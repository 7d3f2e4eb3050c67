/** Properties of the hash store that relate several operations: the table
    invariant every handler keeps, the round trips between writes and reads,
    and the capacity bound over whole runs of requests. */
module HashStoreProperties {
  import opened Outcomes
  import opened JsValues
  import opened HashStore
  import UidFormat

  // ---------------------------------------------------------------------------
  // Each handler keeps the table invariant

  lemma AddPreservesValid(t: Table, maxSize: int, cls: ModelClass, e: Entity, generated: string)
    requires UidFormat.IsUidShape(generated)
    requires Valid(cls, t)
    ensures Valid(cls, Add(t, maxSize, cls, e, generated).table)
  {
  }

  lemma UpdatePreservesValid(t: Table, cls: ModelClass, e: Entity)
    requires Truthy(Uid(e))
    requires Valid(cls, t)
    ensures Valid(cls, Update(t, cls, e).table)
  {
  }

  lemma UpdateFieldsPreservesValid(t: Table, cls: ModelClass, e: Entity, fields: seq<string>)
    requires Truthy(Uid(e)) && |fields| > 0 && Key(e) in t
    requires Valid(cls, t)
    ensures Valid(cls, UpdateFields(t, cls, e, fields).table)
  {
  }

  lemma RemovePreservesValid(t: Table, cls: ModelClass, uid: string)
    requires uid != ""
    requires Valid(cls, t)
    ensures Valid(cls, Remove(t, uid).table)
  {
  }

  // ---------------------------------------------------------------------------
  // Round trips between writes and reads

  /** On a valid table, `findByUid` hands back a record equal to the stored one,
      filed under the uid asked for. */
  lemma FindReturnsStored(t: Table, cls: ModelClass, uid: string)
    requires uid != "" && uid in t
    requires Valid(cls, t)
    ensures FindByUid(t, cls, uid).reply == Ok(t[uid])
    ensures Key(t[uid]) == uid
  {
    CloneIsIdentityIff(cls, t[uid]);
  }

  /** A successful `add` followed by `findByUid` on the entity's key returns a
      copy equal to the caller's entity, uid included, whenever the entity has
      the properties a fresh instance has (any instance built by the class does). */
  lemma AddThenFind(t: Table, maxSize: int, cls: ModelClass, e: Entity, generated: string)
    requires UidFormat.IsUidShape(generated)
    requires Add(t, maxSize, cls, e, generated).reply.Ok?
    ensures var r := Add(t, maxSize, cls, e, generated);
            Key(r.entity) != "" && FindByUid(r.table, cls, Key(r.entity)).reply == Ok(Clone(cls, r.entity))
    ensures cls.initial.Keys <= e.Keys ==>
            var r := Add(t, maxSize, cls, e, generated);
            FindByUid(r.table, cls, Key(r.entity)).reply == Ok(r.entity)
  {
    var r := Add(t, maxSize, cls, e, generated);
    TruthyKeyNonEmpty(Uid(r.entity));
    CloneIdempotent(cls, r.entity);
    if cls.initial.Keys <= e.Keys {
      CloneIsIdentityIff(cls, r.entity);
    }
  }

  /** Adding a second entity with the uid of a stored one fails with a duplicate
      error and leaves the first record as it was. */
  lemma DuplicateAddRejected(t: Table, maxSize: int, cls: ModelClass, first: Entity, second: Entity, generated: string)
    requires UidFormat.IsUidShape(generated)
    requires Truthy(Uid(first)) && Uid(second) == Uid(first)
    requires Add(t, maxSize, cls, first, generated).reply.Ok?
    ensures var t1 := Add(t, maxSize, cls, first, generated).table;
            var r := Add(t1, maxSize, cls, second, generated);
            r.reply == Err(DuplicateEntry(Key(first))) && r.table == t1 && r.table[Key(first)] == Clone(cls, first)
  {
  }

  /** Adding to a full table a uid it does not hold fails with the capacity error
      and leaves the size where it was. */
  lemma FullTableRejectsNewUid(t: Table, maxSize: int, cls: ModelClass, e: Entity, generated: string)
    requires UidFormat.IsUidShape(generated)
    requires |t| == maxSize
    requires Key(StampUid(e, generated)) !in t
    ensures Add(t, maxSize, cls, e, generated).reply == Err(SizeFull(maxSize))
    ensures Add(t, maxSize, cls, e, generated).reply.error.Message()
            == "Size full, remove entries prior to adding a new one. Size:" + IntToDecimal(maxSize)
    ensures Count(Add(t, maxSize, cls, e, generated).table) == Count(t)
  {
  }

  /** `remove` and `findByUid` agree on which uids are missing, and report them alike. */
  lemma MissingEntrySymmetry(t: Table, cls: ModelClass, uid: string)
    requires uid != ""
    ensures Remove(t, uid).reply.Err? <==> FindByUid(t, cls, uid).reply.Err?
    ensures Remove(t, uid).reply.Err? ==> Remove(t, uid).reply == FindByUid(t, cls, uid).reply == Err(MissingEntry(uid))
  {
  }

  /** After a successful `remove`, the uid is missing: a second remove and a find both fail,
      and every other record is still there. */
  lemma RemoveThenMissing(t: Table, cls: ModelClass, uid: string)
    requires uid != "" && uid in t
    ensures var t' := Remove(t, uid).table;
            && FindByUid(t', cls, uid).reply == Err(MissingEntry(uid))
            && Remove(t', uid).reply == Err(MissingEntry(uid))
            && (forall k :: k in t && k != uid ==> k in t' && t'[k] == t[k])
  {
  }

  /** `update` after `add` replaces the stored copy without changing the count. */
  lemma UpdateAfterAddKeepsCount(t: Table, maxSize: int, cls: ModelClass, e: Entity, e2: Entity, generated: string)
    requires UidFormat.IsUidShape(generated)
    requires Add(t, maxSize, cls, e, generated).reply.Ok?
    requires Key(e2) == Key(Add(t, maxSize, cls, e, generated).entity) && Truthy(Uid(e2))
    ensures var t1 := Add(t, maxSize, cls, e, generated).table;
            && Update(t1, cls, e2).table[Key(e2)] == Clone(cls, e2)
            && Count(Update(t1, cls, e2).table) == Count(t1) == Count(t) + 1
  {
    var r := Add(t, maxSize, cls, e, generated);
    assert Key(e2) in r.table;
    UpdateOfStoredKeepsCount(r.table, cls, e2);
  }

  lemma UpdateOfStoredKeepsCount(t: Table, cls: ModelClass, e: Entity)
    requires Truthy(Uid(e)) && Key(e) in t
    ensures Count(Update(t, cls, e).table) == Count(t)
  {
    assert Update(t, cls, e).table.Keys == t.Keys;
  }

  /** `count` moves by one exactly on a successful `add`, on a `remove` of a stored uid and
      on an `update` of a new uid; every other outcome, and every read, leaves it alone. */
  lemma CountTracksWrites(t: Table, maxSize: int, cls: ModelClass, e: Entity, generated: string, u: Entity, uid: string)
    requires UidFormat.IsUidShape(generated)
    requires Truthy(Uid(u)) && uid != ""
    ensures Count(Add(t, maxSize, cls, e, generated).table)
            == Count(t) + (if Add(t, maxSize, cls, e, generated).reply.Ok? then 1 else 0)
    ensures Count(Update(t, cls, u).table) == Count(t) + (if Key(u) in t then 0 else 1)
    ensures Count(Remove(t, uid).table) == Count(t) - (if uid in t then 1 else 0)
    ensures Count(FindByUid(t, cls, uid).table) == Count(t)
  {
    assert Update(t, cls, u).table.Keys == t.Keys + {Key(u)};
  }

  /** On a valid table the `updateFields` reply goes out on the event the caller listens
      on, `exev('updateFields', entity.uid)`: the updated record's uid has the entity's
      key whether or not `uid` is one of the fields. */
  lemma UpdateFieldsRepliesOnCallersEvent(t: Table, cls: ModelClass, e: Entity, fields: seq<string>)
    requires Truthy(Uid(e)) && |fields| > 0 && Key(e) in t
    requires Valid(cls, t)
    ensures Exev("updateFields", Uid(UpdateFields(t, cls, e, fields).table[Key(e)])) == Exev("updateFields", Uid(e))
  {
    var k := Key(e);
    var u := UpdateFields(t, cls, e, fields).table[k];
    if "uid" !in fields {
      assert Uid(u) == Uid(t[k]);
    }
    assert Truthy(Uid(u)) && ToString(Uid(u)) == k;
  }

  // ---------------------------------------------------------------------------
  // Runs of requests

  /** One request to a mapper, with the arguments the caller passes. An `add`
      carries the string `uuid()` would return for it; `init` rewrites the capacity
      every mapper of the module reads at its next `add`. */
  datatype Request =
    | AddReq(entity: Entity, generated: string)
    | UpdateReq(entity: Entity)
    | UpdateFieldsReq(entity: Entity, fields: seq<string>)
    | RemoveReq(uid: string)
    | FindByUidReq(uid: string)
    | FindAllUidsReq
    | CountReq
    | InitReq(opts: Option<InitOptions>)

  /** Whether the mapper method's argument checks let the request through. A request
      they reject throws before anything is scheduled and leaves the table alone. */
  predicate Accepted(r: Request) {
    match r
    case AddReq(_, generated) => UidFormat.IsUidShape(generated)
    case UpdateReq(e) => Truthy(Uid(e))
    case UpdateFieldsReq(e, fields) => Truthy(Uid(e)) && |fields| > 0
    case RemoveReq(uid) => uid != ""
    case FindByUidReq(uid) => uid != ""
    case FindAllUidsReq => true
    case CountReq => true
    case InitReq(_) => true
  }

  /** An `updateFields` on a missing record crashes its handler. */
  predicate Crashes(t: Table, r: Request) {
    Accepted(r) && r.UpdateFieldsReq? && Key(r.entity) !in t
  }

  /** The table after serving one request at capacity `maxSize`. A rejected request
      changes nothing, and neither do the reads and `init`. */
  function StepTable(t: Table, maxSize: int, cls: ModelClass, r: Request): Table
    requires !Crashes(t, r)
  {
    if !Accepted(r) then t
    else
      match r
      case AddReq(e, generated) => Add(t, maxSize, cls, e, generated).table
      case UpdateReq(e) => Update(t, cls, e).table
      case UpdateFieldsReq(e, fields) => UpdateFields(t, cls, e, fields).table
      case RemoveReq(uid) => Remove(t, uid).table
      case FindByUidReq(uid) => FindByUid(t, cls, uid).table
      case FindAllUidsReq => t
      case CountReq => t
      case InitReq(_) => t
  }

  /** The shared capacity after one request: only `init` moves it, and a rejected
      `init` keeps it. */
  function StepCap(maxSize: int, r: Request): int {
    if r.InitReq? then Init(maxSize, r.opts).maxSize else maxSize
  }

  /** The table after serving the requests one at a time, in order, starting from
      capacity `maxSize`. The run stops at a request that crashes its handler. */
  function Run(t: Table, maxSize: int, cls: ModelClass, reqs: seq<Request>): Table
    decreases |reqs|
  {
    if reqs == [] || Crashes(t, reqs[0]) then t
    else Run(StepTable(t, maxSize, cls, reqs[0]), StepCap(maxSize, reqs[0]), cls, reqs[1..])
  }

  lemma StepPreservesValid(t: Table, maxSize: int, cls: ModelClass, r: Request)
    requires !Crashes(t, r)
    requires Valid(cls, t)
    ensures Valid(cls, StepTable(t, maxSize, cls, r))
  {
    if Accepted(r) {
      match r
      case AddReq(e, generated) => AddPreservesValid(t, maxSize, cls, e, generated);
      case UpdateReq(e) => UpdatePreservesValid(t, cls, e);
      case UpdateFieldsReq(e, fields) => UpdateFieldsPreservesValid(t, cls, e, fields);
      case RemoveReq(uid) => RemovePreservesValid(t, cls, uid);
      case FindByUidReq(uid) =>
      case FindAllUidsReq =>
      case CountReq =>
      case InitReq(_) =>
    }
  }

  /** Every run keeps the table invariant. */
  lemma {:induction false} RunPreservesValid(t: Table, maxSize: int, cls: ModelClass, reqs: seq<Request>)
    requires Valid(cls, t)
    ensures Valid(cls, Run(t, maxSize, cls, reqs))
    decreases |reqs|
  {
    if reqs != [] && !Crashes(t, reqs[0]) {
      StepPreservesValid(t, maxSize, cls, reqs[0]);
      RunPreservesValid(StepTable(t, maxSize, cls, reqs[0]), StepCap(maxSize, reqs[0]), cls, reqs[1..]);
    }
  }

  predicate NoUpdate(reqs: seq<Request>) {
    forall i :: 0 <= i < |reqs| ==> !reqs[i].UpdateReq?
  }

  predicate NoInit(reqs: seq<Request>) {
    forall i :: 0 <= i < |reqs| ==> !reqs[i].InitReq?
  }

  function Max(a: int, b: int): int {
    if a < b then b else a
  }

  /** The largest capacity in force at any point of a run that starts at `maxSize`. */
  function Peak(maxSize: int, reqs: seq<Request>): (p: int)
    ensures p >= maxSize
    decreases |reqs|
  {
    if reqs == [] then maxSize
    else
      Max(maxSize, Peak(StepCap(maxSize, reqs[0]), reqs[1..]))
  }

  /** Without `init` the capacity never moves. */
  lemma {:induction false} PeakWithoutInit(maxSize: int, reqs: seq<Request>)
    requires NoInit(reqs)
    ensures Peak(maxSize, reqs) == maxSize
    decreases |reqs|
  {
    if reqs != [] {
      assert NoInit(reqs[1..]);
      PeakWithoutInit(maxSize, reqs[1..]);
    }
  }

  /** One `add` stores only below the current capacity. */
  lemma AddWithinCapacity(t: Table, maxSize: int, cls: ModelClass, e: Entity, generated: string)
    requires UidFormat.IsUidShape(generated)
    ensures |Add(t, maxSize, cls, e, generated).table| <= Max(|t|, maxSize)
  {
  }

  /** One request other than `update` stores only below the current capacity. */
  lemma StepWithinCapacity(t: Table, maxSize: int, cls: ModelClass, r: Request)
    requires !Crashes(t, r) && !r.UpdateReq?
    ensures |StepTable(t, maxSize, cls, r)| <= Max(|t|, maxSize)
  {
    if Accepted(r) {
      match r
      case AddReq(e, generated) => AddWithinCapacity(t, maxSize, cls, e, generated);
      case UpdateFieldsReq(e, fields) =>
        assert UpdateFields(t, cls, e, fields).table.Keys == t.Keys;
      case RemoveReq(uid) =>
      case FindByUidReq(uid) =>
      case FindAllUidsReq =>
      case CountReq =>
      case InitReq(_) =>
    }
  }

  /** The induction behind `RunWithoutUpdateRespectsCapacity`. */
  lemma {:induction false} RunStaysUnderPeak(t: Table, maxSize: int, cls: ModelClass, reqs: seq<Request>)
    requires NoUpdate(reqs)
    ensures |Run(t, maxSize, cls, reqs)| <= Max(|t|, Peak(maxSize, reqs))
    decreases |reqs|
  {
    if reqs != [] && !Crashes(t, reqs[0]) {
      assert NoUpdate(reqs[1..]);
      StepWithinCapacity(t, maxSize, cls, reqs[0]);
      RunStaysUnderPeak(StepTable(t, maxSize, cls, reqs[0]), StepCap(maxSize, reqs[0]), cls, reqs[1..]);
    }
  }

  /** Without `update`, a run never takes the table above the larger of its starting
      size and the largest capacity in force during the run: `add` stores only below
      the current capacity, `updateFields` keeps the key set, `remove` only shrinks it,
      and `init` moves the capacity without touching the table. In particular a table
      within `maxSize` stays within it over a run with neither `update` nor `init`. */
  lemma RunWithoutUpdateRespectsCapacity(t: Table, maxSize: int, cls: ModelClass, reqs: seq<Request>)
    requires NoUpdate(reqs)
    ensures |Run(t, maxSize, cls, reqs)| <= Max(|t|, Peak(maxSize, reqs))
    ensures NoInit(reqs) && |t| <= maxSize ==> |Run(t, maxSize, cls, reqs)| <= maxSize
  {
    RunStaysUnderPeak(t, maxSize, cls, reqs);
    if NoInit(reqs) {
      PeakWithoutInit(maxSize, reqs);
    }
  }

  /** `init` can lower the shared capacity under a live table: the table is kept whole
      and is then over capacity, with no `update` involved; every later `add` of a new
      uid to it is refused. */
  lemma InitCanLeaveTableOverCapacity(t: Table, maxSize: int, cls: ModelClass, n: int, e: Entity, generated: string)
    requires UidFormat.IsUidShape(generated)
    requires 0 < n < |t|
    ensures Init(maxSize, Some(InitOptions(Some(n)))).maxSize == n < |t|
    ensures Run(t, maxSize, cls, [InitReq(Some(InitOptions(Some(n))))]) == t
    ensures Add(t, n, cls, e, generated).reply.Err? && Add(t, n, cls, e, generated).table == t
  {
  }
}
