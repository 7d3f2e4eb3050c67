/** The existence test of the hash store exactly as the handlers write it.
    `if (hash[uid])` on a plain object literal also reads the properties every
    object inherits from `Object.prototype`, and each of those is truthy, so
    uids that spell one of their names look stored in an empty table. The
    engine in `HashStore` tests `uid in table` instead; the lemmas here show
    where the two part ways and that they agree everywhere else. */
module HashStoreAsWritten {
  import opened Outcomes
  import opened JsValues
  import opened HashStore
  import HashStoreProperties
  import UidFormat

  /** Properties of `Object.prototype` (section 20.1.3 of ECMA-262, with the
      legacy accessors of its Annex B.2.2); all are functions or objects. */
  const InheritedNames: set<string> := {
    "constructor", "hasOwnProperty", "isPrototypeOf", "propertyIsEnumerable",
    "toLocaleString", "toString", "valueOf", "__proto__",
    "__defineGetter__", "__defineSetter__", "__lookupGetter__", "__lookupSetter__"
  }

  /** `hash[k]` is truthy: a stored record, or an inherited member. */
  predicate TruthyLookup(t: Table, k: string) {
    k in t || k in InheritedNames
  }

  /** The `add` handler with the existence test as written. */
  function AddAsWritten(t: Table, maxSize: int, cls: ModelClass, e: Entity, generated: string): (r: AddStep)
    requires UidFormat.IsUidShape(generated)
    ensures r.entity == StampUid(e, generated)
    ensures r.reply.Err? ==> r.table == t
    ensures TruthyLookup(t, Key(r.entity)) ==> r.reply == Err(DuplicateEntry(Key(r.entity)))
  {
    var s := StampUid(e, generated);
    var k := Key(s);
    if TruthyLookup(t, k) then AddStep(s, Err(DuplicateEntry(k)), t)
    else if |t| >= maxSize then AddStep(s, Err(SizeFull(maxSize)), t)
    else AddStep(s, Ok(s), t[k := Clone(cls, s)])
  }

  /** The `findByUid` handler with the existence test as written. An inherited member
      has no own enumerable properties, so its clone is a bare fresh instance. */
  function FindByUidAsWritten(t: Table, cls: ModelClass, uid: string): (r: Step<Entity>)
    requires uid != ""
    ensures r.table == t
    ensures r.reply.Err? <==> !TruthyLookup(t, uid)
  {
    if uid in t then Step(Ok(Clone(cls, t[uid])), t)
    else if uid in InheritedNames then Step(Ok(Clone(cls, map[])), t)
    else Step(Err(MissingEntry(uid)), t)
  }

  /** The event the `updateFields` handler replies on as written, or `None` when it throws.
      `current = hash[entity.uid]` is the stored record or, for an inherited name, the
      inherited member, which has no `uid` of its own. The field writes land on that member,
      except that a write to one of its non-writable properties (a built-in function's
      `name` or `length`) is silently dropped, the handler not being strict code; only
      whether `uid` gets written matters for the reply, and `uid` is always writable.
      For any other uid `current` is undefined and the first field write throws.
      The reply goes out on `exev('updateFields', current.uid)`. */
  function UpdateFieldsEventAsWritten(t: Table, e: Entity, fields: seq<string>): (r: Option<string>)
    requires Truthy(Uid(e)) && |fields| > 0
    ensures r.None? <==> !TruthyLookup(t, Key(e))
    ensures Key(e) !in t && Key(e) in InheritedNames && "uid" !in fields ==> r == Some("updateFields-result")
  {
    var k := Key(e);
    if k in t then Some(Exev("updateFields", Uid(ApplyFields(t[k], e, fields))))
    else if k in InheritedNames then
      var member := ApplyFields(map[], e, fields);
      assert "uid" in member ==> "uid" in fields;
      assert "updateFields" + "-result" == "updateFields-result";
      Some(Exev("updateFields", Uid(member)))
    else None
  }

  /** As written, adding an entity whose uid is "toString" to an empty table is refused
      as a duplicate; the corrected `Add` stores it. */
  lemma InheritedUidRejectedAsWritten(generated: string)
    requires UidFormat.IsUidShape(generated)
    ensures var e := map["uid" := Str("toString")];
            var cls := ModelClass(map[]);
            && AddAsWritten(map[], DefaultMaxSize, cls, e, generated).reply == Err(DuplicateEntry("toString"))
            && Add(map[], DefaultMaxSize, cls, e, generated).reply == Ok(e)
  {
  }

  /** As written, looking up "toString" in an empty table succeeds with a bare instance
      instead of reporting a missing entry; the corrected `FindByUid` reports it missing. */
  lemma InheritedUidFoundAsWritten()
    ensures var cls := ModelClass(map[]);
            && FindByUidAsWritten(map[], cls, "toString").reply == Ok(map[])
            && FindByUid(map[], cls, "toString").reply == Err(MissingEntry("toString"))
  {
  }

  /** Away from the inherited names the as-written handlers and the corrected ones agree. */
  lemma AsWrittenAgreesOffInheritedNames(t: Table, maxSize: int, cls: ModelClass, e: Entity, generated: string, uid: string)
    requires UidFormat.IsUidShape(generated)
    requires Key(StampUid(e, generated)) !in InheritedNames
    requires uid != "" && uid !in InheritedNames
    ensures AddAsWritten(t, maxSize, cls, e, generated) == Add(t, maxSize, cls, e, generated)
    ensures FindByUidAsWritten(t, cls, uid) == FindByUid(t, cls, uid)
  {
  }

  /** As written, `updateFields` with uid "toString" on an empty table writes the field `prop1`
      onto the inherited `toString` function and replies on `updateFields-result`, while the caller
      listens on `updateFields-toString`, so the callback never runs. The corrected engine
      only updates a stored record. */
  lemma InheritedUidUpdateLostAsWritten()
    ensures var e := map["uid" := Str("toString"), "prop1" := Str("x")];
            && UpdateFieldsEventAsWritten(map[], e, ["prop1"]) == Some("updateFields-result")
            && Exev("updateFields", Uid(e)) == "updateFields-toString"
  {
  }

  /** On a stored record of a valid table the as-written handler replies on the caller's
      event, the same one the corrected `UpdateFields` replies on. */
  lemma UpdateFieldsAsWrittenAgreesOnStored(t: Table, cls: ModelClass, e: Entity, fields: seq<string>)
    requires Truthy(Uid(e)) && |fields| > 0 && Key(e) in t
    requires Valid(cls, t)
    ensures UpdateFieldsEventAsWritten(t, e, fields) == Some(Exev("updateFields", Uid(e)))
  {
    HashStoreProperties.UpdateFieldsRepliesOnCallersEvent(t, cls, e, fields);
  }
}
