/** The in-memory "hash" persistence engine. A mapper built for one model class
    owns a private table from uid to a copy of an entity; every bus handler of
    the source is one atomic transition here, taking the table before the
    handler runs and returning the reply the callback receives together with
    the table after. The capacity `maxSize` is module state shared by every
    mapper and is passed to `Add` explicitly. */
module HashStore {
  import opened Outcomes
  import opened JsValues
  import UidFormat

  /** The own enumerable properties of a model instance. */
  type Entity = map<string, Value>

  /** The store: property key of the uid |-> the stored copy. */
  type Table = map<string, Entity>

  /** The capacity before any `init`. */
  const DefaultMaxSize: int := 1000

  /** What the store needs of the model class a mapper was built for: the own
      properties a fresh `new modelClass()` starts with. */
  datatype ModelClass = ModelClass(initial: Entity)

  /** Errors handed to a callback's first argument, and the one `init` raises. */
  datatype StoreError =
    | DuplicateEntry(uid: string)
    | SizeFull(maxSize: int)
    | MissingEntry(uid: string)
    | MaxSizeNotPositive
  {
    function Message(): string {
      match this
      case DuplicateEntry(uid) => "Duplicate entry, uid:" + uid
      case SizeFull(n) => "Size full, remove entries prior to adding a new one. Size:" + IntToDecimal(n)
      case MissingEntry(uid) => "Missing entry, uid:" + uid
      case MaxSizeNotPositive => "maxSize should be a positive number."
    }
  }

  /** A reply and the table after the handler that produced it. */
  datatype Step<+T> = Step(reply: Result<T, StoreError>, table: Table)

  /** `entity[p]` for an own property; an absent property reads as undefined. */
  function Prop(e: Entity, p: string): Value {
    if p in e then e[p] else Undefined
  }

  function Uid(e: Entity): Value {
    Prop(e, "uid")
  }

  /** The property key `hash[entity.uid]` uses. */
  function Key(e: Entity): string {
    ToString(Uid(e))
  }

  /** `clone`: a fresh instance of the model class with every own property of
      the entity copied over it. */
  function Clone(cls: ModelClass, e: Entity): (c: Entity)
    ensures c.Keys == cls.initial.Keys + e.Keys
    ensures forall p :: p in e ==> c[p] == e[p]
    ensures forall p :: p in cls.initial && p !in e ==> c[p] == cls.initial[p]
  {
    cls.initial + e
  }

  /** Copying a copy changes nothing. */
  lemma CloneIdempotent(cls: ModelClass, e: Entity)
    ensures Clone(cls, Clone(cls, e)) == Clone(cls, e)
  {
  }

  /** An entity that already has every property a fresh instance has is its own clone,
      and only such an entity is. */
  lemma CloneIsIdentityIff(cls: ModelClass, e: Entity)
    ensures Clone(cls, e) == e <==> cls.initial.Keys <= e.Keys
  {
  }

  /** A clone keeps the entity's uid, and so the key it is filed under. */
  lemma CloneKeepsKey(cls: ModelClass, e: Entity)
    requires Truthy(Uid(e))
    ensures Uid(Clone(cls, e)) == Uid(e) && Key(Clone(cls, e)) == Key(e)
  {
  }

  // ---------------------------------------------------------------------------
  // Event identifiers

  /** `exev(action, uid)`: the name of the event that carries an operation's reply. */
  function Exev(action: string, uid: Value): (name: string)
    ensures Truthy(uid) ==> name == action + "-" + ToString(uid)
    ensures !Truthy(uid) ==> name == action + "-result"
  {
    if Truthy(uid) then action + "-" + ToString(uid) else action + "-result"
  }

  /** The seven bus actions of a mapper. */
  const Actions: set<string> := {"add", "update", "updateFields", "remove", "findByUid", "findAllUids", "count"}

  predicate DashFree(s: string) {
    forall i :: 0 <= i < |s| ==> s[i] != '-'
  }

  /** Index of the first dash of a string, or its length when it has none. */
  function FirstDash(s: string): nat
    ensures FirstDash(s) <= |s|
  {
    if s == [] || s[0] == '-' then 0 else 1 + FirstDash(s[1..])
  }

  lemma {:induction false} FirstDashOfJoin(a: string, x: string)
    requires DashFree(a)
    ensures FirstDash(a + "-" + x) == |a|
  {
    if a != [] {
      assert (a + "-" + x)[1..] == a[1..] + "-" + x;
      FirstDashOfJoin(a[1..], x);
    }
  }

  /** Two names `a + "-" + x` and `b + "-" + y` with dash-free `a` and `b` agree only when `a == b` and `x == y`. */
  lemma DashJoinInjective(a: string, x: string, b: string, y: string)
    requires DashFree(a) && DashFree(b)
    requires a + "-" + x == b + "-" + y
    ensures a == b && x == y
  {
    var l, r := a + "-" + x, b + "-" + y;
    FirstDashOfJoin(a, x);
    FirstDashOfJoin(b, y);
    assert a == l[..|a|] == r[..|b|] == b;
    assert x == l[|a| + 1..] == r[|b| + 1..] == y;
  }

  lemma ActionsAreDashFree(a: string)
    requires a in Actions
    ensures DashFree(a)
  {
    if a == "updateFields" {
      assert forall i :: 0 <= i < |a| ==> a[i] != '-';
    }
  }

  /** The reply event of a uid-carrying operation names the action and the uid's key:
      requests of different actions, or on different keys, never share an event,
      and requests of one action on one key always do. */
  lemma ExevIdentifiesRequest(a1: string, u1: Value, a2: string, u2: Value)
    requires a1 in Actions && a2 in Actions
    requires Truthy(u1) && Truthy(u2)
    ensures Exev(a1, u1) == Exev(a2, u2) <==> a1 == a2 && ToString(u1) == ToString(u2)
  {
    var k1, k2 := ToString(u1), ToString(u2);
    assert Exev(a1, u1) == a1 + "-" + k1 && Exev(a2, u2) == a2 + "-" + k2;
    if a1 + "-" + k1 == a2 + "-" + k2 {
      ActionsAreDashFree(a1);
      ActionsAreDashFree(a2);
      DashJoinInjective(a1, k1, a2, k2);
    }
  }

  // ---------------------------------------------------------------------------
  // Table invariant

  /** Every record is filed under the key of its own truthy uid, and carries every
      property a fresh instance of the model class has. */
  predicate Valid(cls: ModelClass, t: Table) {
    forall k :: k in t ==> Truthy(Uid(t[k])) && Key(t[k]) == k && cls.initial.Keys <= t[k].Keys
  }

  // ---------------------------------------------------------------------------
  // add

  /** The caller's entity after `add` stamps it: a falsy uid is replaced with
      `generated`, the string `uuid()` returned for this call; a truthy uid is kept.
      `UidFormat.Uuid` and `UidFormat.UidShapeIsGenerated` show that the
      strings `uuid()` can return are exactly those of the 8-4-4-4-12 shape. */
  function StampUid(e: Entity, generated: string): (s: Entity)
    requires UidFormat.IsUidShape(generated)
    ensures Truthy(Uid(s))
    ensures Truthy(Uid(e)) ==> s == e
    ensures !Truthy(Uid(e)) ==> Uid(s) == Str(generated) && UidFormat.IsUidShape(Key(s))
    ensures forall p :: p != "uid" ==> (p in s <==> p in e) && Prop(s, p) == Prop(e, p)
  {
    if Truthy(Uid(e)) then e else e["uid" := Str(generated)]
  }

  /** What `add` produces: the caller's entity after stamping (the callback also
      receives this object, on success and failure alike), the reply, and the table. */
  datatype AddStep = AddStep(entity: Entity, reply: Result<Entity, StoreError>, table: Table)

  /** `add(entity)` followed by its bus handler. The duplicate check comes before the
      capacity check; on success a clone is stored and the caller's own entity is
      handed back. */
  function Add(t: Table, maxSize: int, cls: ModelClass, e: Entity, generated: string): (r: AddStep)
    requires UidFormat.IsUidShape(generated)
    ensures r.entity == StampUid(e, generated)
    ensures Key(r.entity) in t ==> r.reply == Err(DuplicateEntry(Key(r.entity)))
    ensures Key(r.entity) !in t && |t| >= maxSize ==> r.reply == Err(SizeFull(maxSize))
    ensures r.reply.Err? <==> Key(r.entity) in t || |t| >= maxSize
    ensures r.reply.Err? ==> r.table == t
    ensures r.reply.Ok? ==> (r.reply.value == r.entity
      && r.table == t[Key(r.entity) := Clone(cls, r.entity)]
      && |r.table| == |t| + 1)
  {
    var s := StampUid(e, generated);
    var k := Key(s);
    if k in t then AddStep(s, Err(DuplicateEntry(k)), t)
    else if |t| >= maxSize then AddStep(s, Err(SizeFull(maxSize)), t)
    else AddStep(s, Ok(s), t[k := Clone(cls, s)])
  }

  /** `add` never takes the table above the capacity it started within. */
  lemma AddRespectsCapacity(t: Table, maxSize: int, cls: ModelClass, e: Entity, generated: string)
    requires UidFormat.IsUidShape(generated)
    requires |t| <= maxSize
    ensures |Add(t, maxSize, cls, e, generated).table| <= maxSize
    ensures |t| == maxSize ==> Add(t, maxSize, cls, e, generated).table == t
  {
  }

  // ---------------------------------------------------------------------------
  // update

  /** `update(entity)` followed by its handler: an upsert of a clone under the
      entity's key, with no existence, duplicate or capacity check; the callback
      receives the caller's own entity. */
  function Update(t: Table, cls: ModelClass, e: Entity): (r: Step<Entity>)
    requires Truthy(Uid(e))
    ensures r.reply == Ok(e)
    ensures r.table.Keys == t.Keys + {Key(e)}
    ensures r.table[Key(e)] == Clone(cls, e)
    ensures forall k :: k in t && k != Key(e) ==> r.table[k] == t[k]
  {
    Step(Ok(e), t[Key(e) := Clone(cls, e)])
  }

  /** Because `update` skips the capacity check, `update` of a new uid on a full table
      takes it past `maxSize`. */
  lemma UpdateCanExceedCapacity(t: Table, maxSize: int, cls: ModelClass, e: Entity)
    requires Truthy(Uid(e))
    requires |t| >= maxSize && Key(e) !in t
    ensures |Update(t, cls, e).table| == |t| + 1 > maxSize
  {
    assert Update(t, cls, e).table.Keys == t.Keys + {Key(e)};
  }

  // ---------------------------------------------------------------------------
  // updateFields

  /** The loop of the `updateFields` handler: each listed field of the stored
      record is overwritten, in order, with the entity's value of that field. */
  function ApplyFields(cur: Entity, src: Entity, fields: seq<string>): (r: Entity)
    ensures r.Keys == cur.Keys + set f | f in fields
    ensures forall f :: f in fields ==> r[f] == Prop(src, f)
    ensures forall p :: p in cur && p !in fields ==> r[p] == cur[p]
    decreases |fields|
  {
    if fields == [] then cur
    else ApplyFields(cur[fields[0] := Prop(src, fields[0])], src, fields[1..])
  }

  /** The reply of `updateFields`: a clone of the updated record and the field list. */
  datatype FieldsReply = FieldsReply(record: Entity, fields: seq<string>)

  /** `updateFields(entity, fields)` followed by its handler. The stored record must
      exist: the handler dereferences it without a check. */
  function UpdateFields(t: Table, cls: ModelClass, e: Entity, fields: seq<string>): (r: Step<FieldsReply>)
    requires Truthy(Uid(e))
    requires |fields| > 0
    requires Key(e) in t
    ensures r.table.Keys == t.Keys
    ensures forall k :: k in t && k != Key(e) ==> r.table[k] == t[k]
    ensures r.table[Key(e)].Keys == t[Key(e)].Keys + set f | f in fields
    ensures forall f :: f in fields ==> r.table[Key(e)][f] == Prop(e, f)
    ensures forall p :: p in t[Key(e)] && p !in fields ==> r.table[Key(e)][p] == t[Key(e)][p]
    ensures r.reply == Ok(FieldsReply(Clone(cls, r.table[Key(e)]), fields))
  {
    var k := Key(e);
    var updated := ApplyFields(t[k], e, fields);
    Step(Ok(FieldsReply(Clone(cls, updated), fields)), t[k := updated])
  }

  // ---------------------------------------------------------------------------
  // remove, findByUid, findAllUids, count

  /** `remove(uid)` followed by its handler: the stored record itself is handed back. */
  function Remove(t: Table, uid: string): (r: Step<Entity>)
    requires uid != ""
    ensures uid in t ==> r.reply == Ok(t[uid]) && r.table == t - {uid} && |r.table| == |t| - 1
    ensures uid !in t ==> r.reply == Err(MissingEntry(uid)) && r.table == t
  {
    if uid in t then Step(Ok(t[uid]), t - {uid}) else Step(Err(MissingEntry(uid)), t)
  }

  /** `findByUid(uid)` followed by its handler: a clone of the stored record. */
  function FindByUid(t: Table, cls: ModelClass, uid: string): (r: Step<Entity>)
    requires uid != ""
    ensures r.table == t
    ensures uid in t ==> r.reply == Ok(Clone(cls, t[uid]))
    ensures uid !in t ==> r.reply == Err(MissingEntry(uid))
  {
    if uid in t then Step(Ok(Clone(cls, t[uid])), t) else Step(Err(MissingEntry(uid)), t)
  }

  /** `count()`: the number of stored records. */
  function Count(t: Table): (n: nat)
    ensures n == 0 <==> t == map[]
  {
    |t|
  }

  /** `findAllUids()`: `Object.keys(hash)`, every key exactly once, in an order the
      engine does not promise. */
  method FindAllUids(t: Table) returns (uids: seq<string>)
    ensures forall k :: k in uids <==> k in t
    ensures forall i, j :: 0 <= i < j < |uids| ==> uids[i] != uids[j]
    ensures |uids| == Count(t)
  {
    uids := [];
    var rest := t.Keys;
    while rest != {}
      invariant rest <= t.Keys
      invariant forall k :: k in uids <==> k in t && k !in rest
      invariant forall i, j :: 0 <= i < j < |uids| ==> uids[i] != uids[j]
      invariant |uids| + |rest| == |t.Keys|
      decreases rest
    {
      var k :| k in rest;
      uids := uids + [k];
      rest := rest - {k};
    }
  }

  // ---------------------------------------------------------------------------
  // init

  /** The options object of `init`: `maxSize` present or not. */
  datatype InitOptions = InitOptions(maxSize: Option<int>)

  /** The capacity after `init`, or the rejection it raises. */
  datatype InitStep = InitStep(failure: Option<StoreError>, maxSize: int)

  /** `init(opts)`: a present `maxSize` must be positive and then replaces the shared
      capacity; missing options, or options without `maxSize`, change nothing. */
  function Init(maxSize: int, opts: Option<InitOptions>): (r: InitStep)
    ensures r.failure.Some? <==> opts.Some? && opts.value.maxSize.Some? && opts.value.maxSize.value <= 0
    ensures r.failure.Some? ==> r.failure.value == MaxSizeNotPositive && r.maxSize == maxSize
    ensures opts.None? || opts.value.maxSize.None? ==> r.maxSize == maxSize
    ensures opts.Some? && opts.value.maxSize.Some? && opts.value.maxSize.value > 0 ==> r.maxSize == opts.value.maxSize.value
  {
    match opts
    case None => InitStep(None, maxSize)
    case Some(o) =>
      match o.maxSize
      case None => InitStep(None, maxSize)
      case Some(n) => if n > 0 then InitStep(None, n) else InitStep(Some(MaxSizeNotPositive), maxSize)
  }

  /** The shared capacity stays positive through any `init`. */
  lemma InitKeepsCapacityPositive(maxSize: int, opts: Option<InitOptions>)
    requires maxSize > 0
    ensures Init(maxSize, opts).maxSize > 0
  {
  }
}
