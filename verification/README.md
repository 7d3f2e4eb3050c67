# moat: the hash persistence engine and the configuration gate, in Dafny

This project models two pieces of the `moat` runtime and proves properties of them.

1. **The "hash" persistence engine** (`src/persistence-hash.js`). A mapper is built for one model
   class. It keeps a private table from uid to a copy of an entity, bounded by a module-wide
   `maxSize` (default 1000, set by `init`). It serves `add`, `update`, `updateFields`, `remove`,
   `findByUid`, `findAllUids` and `count`. In the source each call checks its arguments, then a bus
   handler changes or reads the table on a later tick. Here each handler is one atomic function.
   It takes the table before and returns the callback's reply with the table after (`HashStore`).
   The uid generator (`uuid`/`s4`) is modelled as hex formatting of eight integer draws
   (`UidFormat`). The JavaScript coercions the engine depends on are in `JsValues`: truthiness of
   `if (hash[uid])` and `assert(entity.uid)`, and ToString for `hash[x]` and `'text' + x`.
2. **The one-shot configuration gate** (`src/index.js`; `lib/index.js` has the same logic with a
   different logging helper, so `ConfigGate` models both). The gate is Unconfigured or
   Configured(owner). The process state holds every config's runtime record, because the closing
   config's record becomes the singleton's prototype and stays writable.

Modules:

- `Outcomes`: `Option` and `Result`.
- `JsValues`: property values, truthiness, ToString, and decimal printing.
- `UidFormat`: `toString(16)`, `s4`, `uuid`, the 8-4-4-4-12 shape, and reading draws back from a uid.
- `HashStore`: entities, tables, `clone`, `exev`, the seven handlers, and `init`.
- `HashStoreProperties`: the table invariant, the write/read round trips, and runs of requests.
- `HashStoreAsWritten`: the engine's existence test exactly as written (see Findings).
- `ConfigGate`: configs, the gate, `done()`, `Runtime.singleton()`, and runs of calls.

Modelling choices:

- An entity is the map of its own properties. `clone` is `fresh instance + own properties`, with
  the fresh instance's properties given by `ModelClass.initial`. Values are immutable, so the
  store and its callers can never alias. The "no shared mutable state" promise therefore holds
  in the model by construction and is not stated as a lemma. In the source it holds only under
  the first assumption under "Left out": the handler takes its copy on a later tick
  (src/persistence-hash.js:62 and :71, scheduled at :143-145), so a change the caller makes to
  the entity right after `add` or `update` returns still reaches the store.
- A uid is any property value. The table key is its ToString. The `Valid` invariant says every
  record is filed under the key of its own truthy uid and carries the fresh instance's properties.
- `Add` takes the string `uuid()` returns for the call, required to have the 8-4-4-4-12 shape.
  `UidFormat.Uuid` and `UidFormat.UidShapeIsGenerated` show that these are exactly the
  strings `uuid()` can return.
- The argument checks of the mapper methods become `requires` clauses. `instanceof` becomes the
  parameter's type.

Behaviour of the code that the model keeps as written:

- `add` and `update` hand the caller's own entity to the callback, not a clone.
- `update` has no capacity check, so the table can grow past `maxSize` (`UpdateCanExceedCapacity`).
- `maxSize` is one module variable that every mapper reads at its next `add`. An `init` that lowers
  it under a live table leaves that table over capacity with no `update` involved
  (`InitCanLeaveTableOverCapacity`). Over a run without `update` the table stays within the larger
  of its starting size and the largest capacity in force during the run.
- `updateFields` on a uid that is neither stored nor an `Object.prototype` name crashes the handler.
  A stored record is a precondition here, not an error result. For an inherited name see Findings.
- `add` generates a uid when the uid is *falsy* (`0`, `''`, `false` included), not only when it is
  absent. The generated uid has no version or variant nibble.
- Closing the gate does not freeze the runtime record. Later writes to the closing config's
  `version`/`engine` show through the singleton.

## Model

| member | source | states |
|---|---|---|
| `JsValues.DecimalRoundTrip` | src/persistence-hash.js:60 | the decimal text that `'Size:' + maxSize` appends reads back as the same number |
| `JsValues.IntToDecimalInjective` | src/persistence-hash.js:60 | distinct capacities give distinct size-full messages |
| `JsValues.TruthyKeyNonEmpty` | src/persistence-hash.js:135-137 | a uid that passes the truthiness test never files a record under the empty key, and a string uid is its own key |
| `UidFormat.ToHex` | src/persistence-hash.js:7 | `toString(16)` writes at least one lower-case hex digit |
| `UidFormat.ToHexOfDraw` | src/persistence-hash.js:7 | for a draw in [0x10000, 0x1FFFF], `toString(16)` is `1` followed by the four digits of the draw minus 0x10000 |
| `UidFormat.S4` | src/persistence-hash.js:6-8 | `s4()` is exactly four hex digits of the draw minus 0x10000 |
| `UidFormat.Hex4RoundTrip` | src/persistence-hash.js:7 | the four digits of `s4()` read back as the draw's low 16 bits |
| `UidFormat.ParseHex4RoundTrip` | src/persistence-hash.js:7 | every four-digit lower-case hex group is what `s4()` prints for some draw |
| `UidFormat.UuidGroups` | src/persistence-hash.js:10-11 | `uuid()` is 36 characters, with the eight `s4()` groups at offsets 0, 4, 9, 14, 19, 24, 28, 32 and dashes at 8, 13, 18, 23 |
| `UidFormat.Uuid` | src/persistence-hash.js:5-13 | every generated uid has the 8-4-4-4-12 lower-case hex shape, and its draws can be read back from it, so distinct draws give distinct uids |
| `UidFormat.UidShapeIsGenerated` | src/persistence-hash.js:5-13 | every 8-4-4-4-12 lower-case hex string is generated by some draws; the shape is exactly the generator's range |
| `HashStore.Clone` | src/persistence-hash.js:45-53 | a clone has the fresh instance's properties overridden by every own property of the entity |
| `HashStore.CloneIdempotent` | src/persistence-hash.js:45-53 | cloning a clone gives the same record |
| `HashStore.CloneIsIdentityIff` | src/persistence-hash.js:45-53 | a clone equals its entity exactly when the entity already has every property of a fresh instance |
| `HashStore.CloneKeepsKey` | src/persistence-hash.js:45-53 | a clone keeps the uid and therefore the key it is filed under |
| `HashStore.Exev` | src/persistence-hash.js:33-38 | the reply event is `action-uid` for a truthy uid and `action-result` otherwise |
| `HashStore.ExevIdentifiesRequest` | src/persistence-hash.js:33-38 | for the seven actions, two uid-carrying requests share a reply event exactly when they have the same action and the same uid key |
| `HashStore.StampUid` | src/persistence-hash.js:135-137 | a falsy uid is replaced by the string `uuid()` returned, which has the 8-4-4-4-12 shape; a truthy uid and all other properties are kept |
| `HashStore.Add` | src/persistence-hash.js:55-67 | duplicate key gives `Duplicate entry, uid:<key>`, checked before capacity; a full table gives `Size full … Size:<maxSize>`; an error leaves the table unchanged; success stores a clone under the key, grows the table by one and hands back the caller's entity |
| `HashStore.AddRespectsCapacity` | src/persistence-hash.js:59-62 | `add` on a table within `maxSize` leaves it within `maxSize`, and on a full table changes nothing |
| `HashStore.Update` | src/persistence-hash.js:69-75 | `update` upserts a clone under the entity's key, never fails, and leaves every other key's record unchanged |
| `HashStore.UpdateCanExceedCapacity` | src/persistence-hash.js:69-75 | because `update` skips the capacity check, `update` of a new uid on a table holding `maxSize` or more records takes it one record past `maxSize` |
| `HashStore.ApplyFields` | src/persistence-hash.js:80-82 | the field loop overwrites exactly the listed fields with the entity's values and keeps every other property |
| `HashStore.UpdateFields` | src/persistence-hash.js:77-86 | on a stored record, exactly the listed fields take the entity's values; other fields and other records are kept; the reply is a clone of the updated record plus the field list |
| `HashStore.Remove` | src/persistence-hash.js:88-100 | a present uid is deleted, alone, and its stored record is returned; an absent one gives `Missing entry, uid:<uid>` and no change |
| `HashStore.FindByUid` | src/persistence-hash.js:102-113 | a present uid gives a clone of its record; an absent one gives `Missing entry, uid:<uid>`; the table never changes |
| `HashStore.Count` | src/persistence-hash.js:121-125 | `count()` answers zero exactly on an empty store |
| `HashStore.FindAllUids` | src/persistence-hash.js:115-119 | the reply lists every stored key exactly once and nothing else, so its length is the count |
| `HashStore.Init` | src/persistence-hash.js:262-269 | a non-positive `maxSize` is rejected with `maxSize should be a positive number.` and the capacity is kept; a positive one replaces it; options without `maxSize`, or none, change nothing |
| `HashStore.InitKeepsCapacityPositive` | src/persistence-hash.js:262-269 | starting from the positive default, the shared capacity stays positive through any `init` |
| `HashStoreProperties.AddPreservesValid` | src/persistence-hash.js:55-67 | `add` keeps every record filed under its own uid's key |
| `HashStoreProperties.UpdatePreservesValid` | src/persistence-hash.js:69-75 | `update` keeps every record filed under its own uid's key |
| `HashStoreProperties.UpdateFieldsPreservesValid` | src/persistence-hash.js:77-86 | `updateFields` keeps every record filed under its own uid's key, even when `uid` is one of the fields |
| `HashStoreProperties.RemovePreservesValid` | src/persistence-hash.js:88-100 | `remove` keeps the table invariant |
| `HashStoreProperties.FindReturnsStored` | src/persistence-hash.js:102-113 | on a valid table, `findByUid` returns a record equal to the stored one, whose uid is the uid asked for |
| `HashStoreProperties.AddThenFind` | src/persistence-hash.js:55-113 | after a successful `add`, `findByUid` on the entity's key returns the stored copy, equal to the caller's entity when it has the class's properties |
| `HashStoreProperties.DuplicateAddRejected` | src/persistence-hash.js:57-58 | a second `add` with a stored uid fails as a duplicate and leaves the first record untouched |
| `HashStoreProperties.FullTableRejectsNewUid` | src/persistence-hash.js:59-60 | on a table holding `maxSize` records, an `add` of a new uid fails with the size-full message naming `maxSize` and the count stays the same |
| `HashStoreProperties.MissingEntrySymmetry` | src/persistence-hash.js:88-113 | `remove` and `findByUid` fail on exactly the same uids, with the same missing-entry error |
| `HashStoreProperties.RemoveThenMissing` | src/persistence-hash.js:88-100 | after a successful `remove` the uid is missing for both `findByUid` and `remove`, and every other record is still stored |
| `HashStoreProperties.UpdateAfterAddKeepsCount` | src/persistence-hash.js:69-75 | an `update` of an added uid replaces the record and leaves `count` one above its value before the `add` |
| `HashStoreProperties.CountTracksWrites` | src/persistence-hash.js:55-125 | `count` goes up by one exactly on a successful `add` and on an `update` of a new uid, down by one exactly on a `remove` of a stored uid, and reads leave it alone |
| `HashStoreProperties.UpdateFieldsRepliesOnCallersEvent` | src/persistence-hash.js:77-86 | on a valid table the `updateFields` reply goes out on `exev('updateFields', entity.uid)`, the event the caller listens on (:178), whether or not `uid` is one of the fields |
| `HashStoreProperties.RunPreservesValid` | src/persistence-hash.js:55-125 | any run of requests keeps every record filed under its own uid's key |
| `HashStoreProperties.RunWithoutUpdateRespectsCapacity` | src/persistence-hash.js:55-100 | over any run of requests without `update`, `init` included, the table never exceeds the larger of its starting size and the largest capacity in force during the run; without `init` either, a table within `maxSize` stays within it |
| `HashStoreProperties.InitCanLeaveTableOverCapacity` | src/persistence-hash.js:262-269 | `init` with a positive `maxSize` below a live table's size sets the capacity below that size and leaves the table whole, and every later `add` of a new uid to it is refused |
| `HashStoreAsWritten.AddAsWritten` | src/persistence-hash.js:57-58 | with the lookup as written, a uid that names an `Object.prototype` member is rejected as a duplicate |
| `HashStoreAsWritten.FindByUidAsWritten` | src/persistence-hash.js:105-109 | with the lookup as written, the missing-entry error is reported only for uids neither stored nor inherited |
| `HashStoreAsWritten.InheritedUidRejectedAsWritten` | src/persistence-hash.js:57 | adding uid `toString` to an empty store fails as a duplicate as written, and succeeds in the corrected engine |
| `HashStoreAsWritten.InheritedUidFoundAsWritten` | src/persistence-hash.js:105 | `findByUid('toString')` on an empty store succeeds as written, and reports a missing entry in the corrected engine |
| `HashStoreAsWritten.UpdateFieldsEventAsWritten` | src/persistence-hash.js:77-86 | as written, the handler throws exactly when the uid is neither stored nor inherited; for an inherited name, when `uid` is not among the fields, it replies on `updateFields-result` |
| `HashStoreAsWritten.InheritedUidUpdateLostAsWritten` | src/persistence-hash.js:79 | `updateFields` of uid `toString` with field `prop1` on an empty store replies on `updateFields-result` while the caller listens on `updateFields-toString` |
| `HashStoreAsWritten.UpdateFieldsAsWrittenAgreesOnStored` | src/persistence-hash.js:77-86 | on a stored record of a valid table the as-written handler replies on the caller's event |
| `HashStoreAsWritten.AsWrittenAgreesOffInheritedNames` | src/persistence-hash.js:55-113 | for every other uid, the as-written `add` and `findByUid` equal the corrected ones |
| `ConfigGate.Assign` | src/index.js:39-43 | writing to the sealed runtime record changes an existing key and drops an unknown one; the key set never changes |
| `ConfigGate.NewConfig` | src/index.js:34-43 | `new Config()` adds a config whose runtime record is `{version: '', engine: ''}` and leaves the gate and the other configs alone |
| `ConfigGate.PlainCallRejected` | lib/index.js:35-37 | calling `Config` without `new` throws `This is not a function.` and creates nothing |
| `ConfigGate.SetRuntime` | src/index.js:39-43 | a write to one config's runtime record touches no other config and not the gate |
| `ConfigGate.Done` | src/index.js:44-53 | `done()` answers true exactly when the gate is unconfigured, making its config the owner; otherwise it answers false and changes nothing |
| `ConfigGate.Singleton` | src/index.js:16-21 | `singleton()` fails with `Not yet configured.` exactly while unconfigured, and otherwise returns the instance built on the owner's record |
| `ConfigGate.ReadRuntime` | src/index.js:49-51 | reading `version`/`engine` through the singleton gives the owner's record as it currently stands |
| `ConfigGate.Apply` | lib/index.js:44-53 | a call closes the gate exactly when it is a `done()` on an existing config while the gate is unconfigured |
| `ConfigGate.ApplyPreservesValid` | src/index.js:39-53 | every call keeps each record's keys exactly `version` and `engine`, and keeps the owner an existing config |
| `ConfigGate.RunPreservesValid` | lib/index.js:39-53 | the same holds over any run of calls |
| `ConfigGate.ConfiguredIsTerminal` | src/index.js:45-50 | once configured, no run of calls reopens the gate or changes its owner, and no later `done()` answers true |
| `ConfigGate.DoneSucceedsAtMostOnce` | lib/index.js:44-53 | over any run, whichever configs are used, at most one `done()` answers true, and one does exactly when the gate ends configured |
| `ConfigGate.LaterDoneFails` | src/index.js:44-53 | the first `done()` answers true, and every later `done()`, on any config including ones created afterwards, answers false and changes nothing |
| `ConfigGate.SingletonAfterClosing` | lib/index.js:19-20 | after the closing `done()` of a config, every later `singleton()` returns the same instance, reading that config's current `version` and `engine` |
| `ConfigGate.SingletonFailsUntilClosed` | lib/index.js:15-21 | while no `done()` has answered true, `singleton()` fails with `Not yet configured.` |
| `ConfigGate.RunFromInitial` | src/index.js:10-21 | from load time (no config, `moatRuntime` null) every run keeps the world well formed, closes the gate at most once, and `singleton()` fails with `Not yet configured.` exactly until a `done()` has succeeded |
| `ConfigGate.RuntimeKeysFixed` | lib/index.js:39-43 | however a fresh runtime record is written to, its keys stay exactly `version` and `engine` |
| `ConfigGate.RuntimeEditable` | src/index.js:39-43 | `version` and `engine` of a fresh record take written values, and a write to any other key leaves no trace |

## Findings

| source | as written | input that shows it | evidently intended | confidence | as-written member | corrected member |
|---|---|---|---|---|---|---|
| src/persistence-hash.js:57 | `if (hash[entity.uid])` on a plain `{}` is also truthy for names inherited from `Object.prototype` | `add` of an entity with uid `'toString'` to an empty store fails with `Duplicate entry, uid:toString` | a duplicate only when the uid is a stored key | high; not executed | `HashStoreAsWritten.InheritedUidRejectedAsWritten` | `HashStore.Add` |
| src/persistence-hash.js:79 | `current = hash[entity.uid]` in the `updateFields` handler is the inherited member for an `Object.prototype` name; the fields are written onto it and the reply goes out on `exev('updateFields', current.uid)` | `updateFields({uid: 'toString', prop1: 'x'}, ['prop1'])` on an empty store writes `prop1` onto `Object.prototype.toString` and replies on `updateFields-result`, so the callback waiting on `updateFields-toString` never runs; with uid `__proto__` the fields land on `Object.prototype` itself | only a stored record is updated, and the reply goes out on the event the caller listens on | high; not executed | `HashStoreAsWritten.InheritedUidUpdateLostAsWritten` | `HashStoreProperties.UpdateFieldsRepliesOnCallersEvent` |
| src/persistence-hash.js:105 | `if (hash[uid])` in the `findByUid` handler has the same inherited-name lookup | `findByUid('toString')` on an empty store succeeds with a bare model instance | a `Missing entry, uid:toString` error, as `remove` and `findByUid` give for any absent uid | high; not executed | `HashStoreAsWritten.InheritedUidFoundAsWritten` | `HashStoreProperties.MissingEntrySymmetry` |

## Left out

- Event-bus correlation and scheduling (`EventEmitter`, `bus.once`, `process.nextTick`). Each handler is one atomic step. The caller's entity is not mutated between a call and its handler, and requests that share a reply event are not interleaved.
- Callbacks are the reply. The optional callbacks of `add`, `update`, `updateFields` and `remove` are not modelled. Neither is the synchronous `callback is mandatory.` check of `findByUid`, `findAllUids` and `count`.
- Synchronous argument checks whose failure is a thrown assertion become preconditions: `entity is mandatory.`, `Incompatible entity.`, `entity.uid is mandatory.`, the `[fields]` checks, and `uid is mandatory.` / `uid should be string.`. `instanceof` becomes the parameter type.
- `Math.random` and the float arithmetic of `s4`. The integer draw in [0x10000, 0x1FFFF] is an input.
- Property values: only undefined, null, booleans, integers and strings. Floating point, NaN, objects and functions are not modelled. With object values the shallow `clone` would share nested objects.
- Prototype-inherited properties of entities: `entity[field]` in `updateFields` reads own properties only. Names in `fields` are strings, and `fields` is a sequence, not any array-like.
- `remove` with a uid naming an `Object.prototype` member answers with that member and no error. A function is not an entity, so this is not modelled. `update` with uid `__proto__` sets the table object's prototype instead of storing a record; not modelled either. (`add` with uid `__proto__` is rejected as a duplicate, as `HashStoreAsWritten.AddAsWritten` shows; the corrected `HashStore.Add` stores the record under that key.)
- `init`: `maxSize` is an integer option. Non-numeric values, which JavaScript would coerce, are not modelled. The `assert` identifier that `init` calls is bound only inside the mapper builder. That binding is not modelled; the check is modelled as the rejection it states.
- `HashStore.Clone`: `clone` calls `entity.hasOwnProperty(p)` (src/persistence-hash.js:48). An entity with an own `hasOwnProperty` that is not a function makes it throw inside the `add` and `update` handlers and the `updateFields` reply, so no callback runs. The model's values are never functions, and it stores such an entity like any other. The model also takes `new modelClass()` to be an extensible object with plain data properties. For a sealed instance, or one whose class defines setters, the write `obj[p] = entity[p]` (:49) is silently dropped or diverted, because the file is not strict code; that is not modelled. Both limits carry over to `HashStore.Add`, `HashStore.Update` and `HashStore.UpdateFields`.
- `HashStore.UpdateFields`: requires the record to be stored. For a uid that is neither stored nor inherited the handler throws; for an inherited name it writes onto the inherited member (see Findings). The model states nothing else about either case.
- `JsValues.ToString`: numbers are unbounded integers printed in plain decimal. JavaScript prints integers of magnitude 10^21 or more in exponent form (`1e+21`) and holds integers above 2^53 inexactly. Keys of such numeric uids, and the `Size:` text for such a `maxSize`, are therefore not modelled.
- `HashStore.FindAllUids`: states the key set and its size, not the order `Object.keys` gives (integer-like keys ascending, then insertion order).
- `HashStoreProperties.Run`: an `updateFields` on a missing record crashes its handler. The model ends the run there rather than modelling an uncaught exception.
- `ConfigGate.SetRuntime`: writes go to the sealed record's `version` and `engine`. Replacing `config.runtime` itself (or `config.done`) with another object is not modelled. `config.runtime` is an ordinary writable property, and a replacement object would become the singleton's prototype unsealed, with any keys. `Valid`'s fixed key set and `SingletonAfterClosing` hold only for records the config built.
- `ConfigGate`: runtime record values are strings. Adding a key to the sealed record is modelled as silently dropped, as in a non-strict caller; a strict-mode caller gets a `TypeError`. Writes made through the singleton instance itself (which would create own properties shadowing the prototype) are not modelled. Neither are other `new moat.Runtime()` instances, nor the freezing of `moat`, `moat.spi` and `moat.Runtime`.
- `moat.persistence` and `moat.init` are empty stubs. Console logging (`ERR`, `LOG_ERROR`) is left out.
- The model-class factory, provider binding and namespace loader are not part of this model. Neither are the build script and the test files.
