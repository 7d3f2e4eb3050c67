/** The one-shot configuration gate of the runtime. Every `Config` object owns a
    runtime record with the fixed keys `version` and `engine`; the first `done()`
    from any config closes the gate for good, and from then on
    `Runtime.singleton()` returns one instance whose prototype is the closing
    config's runtime record. The record stays writable after closing, so the
    singleton reports the record's current values, not a snapshot. */
module ConfigGate {
  import opened Outcomes

  /** A sealed runtime record: existing keys are writable, none can be added. */
  type RuntimeRecord = map<string, string>

  const RuntimeKeys: set<string> := {"version", "engine"}

  /** The record a new config starts with. */
  const FreshRuntime: RuntimeRecord := map["version" := "", "engine" := ""]

  /** `record[key] = value` on a sealed record: an existing key takes the value,
      an unknown key is dropped. */
  function Assign(r: RuntimeRecord, key: string, value: string): (r': RuntimeRecord)
    ensures r'.Keys == r.Keys
    ensures key in r ==> r'[key] == value
    ensures forall k :: k in r && k != key ==> r'[k] == r[k]
  {
    if key in r then r[key := value] else r
  }

  /** The gate: Unconfigured, or Configured by the config with index `owner`. */
  datatype Gate = Unconfigured | Configured(owner: nat)

  /** The process: the runtime record of every config created so far, and the gate. */
  datatype World = World(configs: seq<RuntimeRecord>, gate: Gate)

  /** The process at load time: no config yet, and `moatRuntime` still null. */
  const Initial: World := World([], Unconfigured)

  /** Errors thrown by the gate. */
  datatype GateError = NotYetConfigured | NotAFunction {
    function Message(): string {
      match this
      case NotYetConfigured => "Not yet configured."
      case NotAFunction => "This is not a function."
    }
  }

  /** The singleton runtime instance, identified by the config whose record is its prototype. */
  datatype Runtime = Runtime(proto: nat)

  datatype GateStep<+T> = GateStep(reply: Result<T, GateError>, world: World)

  predicate Valid(w: World) {
    && (w.gate.Configured? ==> w.gate.owner < |w.configs|)
    && forall i :: 0 <= i < |w.configs| ==> w.configs[i].Keys == RuntimeKeys
  }

  /** `new moat.spi.Config()` (or the call without `new`, which throws): the new
      config's index. */
  function NewConfig(w: World, calledWithNew: bool): (r: GateStep<nat>)
    ensures !calledWithNew ==> r == GateStep(Err(NotAFunction), w)
    ensures calledWithNew ==> (r.reply == Ok(|w.configs|)
      && r.world.gate == w.gate
      && |r.world.configs| == |w.configs| + 1
      && r.world.configs[..|w.configs|] == w.configs
      && r.world.configs[|w.configs|] == FreshRuntime)
  {
    if calledWithNew then GateStep(Ok(|w.configs|), World(w.configs + [FreshRuntime], w.gate))
    else GateStep(Err(NotAFunction), w)
  }

  /** Calling `Config` without `new` throws "This is not a function." and creates nothing. */
  lemma PlainCallRejected(w: World)
    ensures NewConfig(w, false).world == w
    ensures NewConfig(w, false).reply.Err?
    ensures NewConfig(w, false).reply.error.Message() == "This is not a function."
  {
  }

  /** `config.runtime[key] = value`. */
  function SetRuntime(w: World, id: nat, key: string, value: string): (w': World)
    requires id < |w.configs|
    ensures w'.gate == w.gate && |w'.configs| == |w.configs|
    ensures w'.configs[id] == Assign(w.configs[id], key, value)
    ensures forall i :: 0 <= i < |w.configs| && i != id ==> w'.configs[i] == w.configs[i]
  {
    World(w.configs[id := Assign(w.configs[id], key, value)], w.gate)
  }

  /** `config.done()`: closes an unconfigured gate and answers true; on a
      configured gate answers false and changes nothing. */
  function Done(w: World, id: nat): (r: GateStep<bool>)
    requires id < |w.configs|
    ensures r.reply.Ok?
    ensures r.reply.value <==> w.gate.Unconfigured?
    ensures r.reply.value ==> r.world == World(w.configs, Configured(id))
    ensures !r.reply.value ==> r.world == w
  {
    if w.gate.Configured? then GateStep(Ok(false), w)
    else GateStep(Ok(true), World(w.configs, Configured(id)))
  }

  /** `Runtime.singleton()`. */
  function Singleton(w: World): (r: Result<Runtime, GateError>)
    ensures r.Err? <==> w.gate.Unconfigured?
    ensures r.Err? ==> r.error == NotYetConfigured
    ensures r.Ok? ==> r.value.proto == w.gate.owner
  {
    match w.gate
    case Unconfigured => Err(NotYetConfigured)
    case Configured(owner) => Ok(Runtime(owner))
  }

  /** Reading `runtime.version` or `runtime.engine` through the singleton: the value
      comes from the prototype, the closing config's record as it is now. */
  function ReadRuntime(w: World, rt: Runtime, key: string): (v: Option<string>)
    requires rt.proto < |w.configs|
    ensures v.Some? <==> key in w.configs[rt.proto]
    ensures v.Some? ==> v.value == w.configs[rt.proto][key]
  {
    if key in w.configs[rt.proto] then Some(w.configs[rt.proto][key]) else None
  }

  // ---------------------------------------------------------------------------
  // Runs of calls

  datatype Call =
    | NewCall(calledWithNew: bool)
    | SetCall(id: nat, key: string, value: string)
    | DoneCall(id: nat)
    | SingletonCall

  /** The effect of one call: whether it closed the gate, and the world after it. */
  datatype Transition = Transition(closedGate: bool, world: World)

  /** One call; a call on a config that does not exist has no object to act on and is skipped.
      The replies themselves are those of `NewConfig`, `Done` and `Singleton`. */
  function Apply(w: World, c: Call): (r: Transition)
    ensures r.closedGate <==> c.DoneCall? && c.id < |w.configs| && w.gate.Unconfigured?
  {
    match c
    case NewCall(withNew) => Transition(false, NewConfig(w, withNew).world)
    case SetCall(id, key, value) =>
      if id < |w.configs| then Transition(false, SetRuntime(w, id, key, value)) else Transition(false, w)
    case DoneCall(id) =>
      if id < |w.configs| then
        var d := Done(w, id);
        Transition(d.reply.Ok? && d.reply.value, d.world)
      else Transition(false, w)
    case SingletonCall => Transition(false, w)
  }

  function RunCalls(w: World, calls: seq<Call>): World
    decreases |calls|
  {
    if calls == [] then w else RunCalls(Apply(w, calls[0]).world, calls[1..])
  }

  /** How many `done()` calls of a run answer true. */
  function Closings(w: World, calls: seq<Call>): nat
    decreases |calls|
  {
    if calls == [] then 0
    else
      var r := Apply(w, calls[0]);
      (if r.closedGate then 1 else 0) + Closings(r.world, calls[1..])
  }

  /** Every call keeps the world well formed: configs keep exactly the keys
      `version` and `engine`, and the gate's owner exists. */
  lemma ApplyPreservesValid(w: World, c: Call)
    requires Valid(w)
    ensures Valid(Apply(w, c).world)
  {
  }

  lemma {:induction false} RunPreservesValid(w: World, calls: seq<Call>)
    requires Valid(w)
    ensures Valid(RunCalls(w, calls))
    decreases |calls|
  {
    if calls != [] {
      ApplyPreservesValid(w, calls[0]);
      RunPreservesValid(Apply(w, calls[0]).world, calls[1..]);
    }
  }

  /** Configured is terminal: once closed, no run of calls reopens the gate or changes its owner. */
  lemma {:induction false} ConfiguredIsTerminal(w: World, calls: seq<Call>)
    requires w.gate.Configured?
    ensures RunCalls(w, calls).gate == w.gate
    ensures Closings(w, calls) == 0
    decreases |calls|
  {
    if calls != [] {
      ConfiguredIsTerminal(Apply(w, calls[0]).world, calls[1..]);
    }
  }

  /** Over any run from an unconfigured gate, at most one `done()` answers true,
      whichever configs the calls use; if one does, the gate ends configured. */
  lemma {:induction false} DoneSucceedsAtMostOnce(w: World, calls: seq<Call>)
    requires w.gate.Unconfigured?
    ensures Closings(w, calls) <= 1
    ensures Closings(w, calls) == 1 <==> RunCalls(w, calls).gate.Configured?
    decreases |calls|
  {
    if calls != [] {
      var w' := Apply(w, calls[0]).world;
      if w'.gate.Configured? {
        ConfiguredIsTerminal(w', calls[1..]);
      } else {
        DoneSucceedsAtMostOnce(w', calls[1..]);
      }
    }
  }

  /** After the closing `done()` of config `id`, every later `singleton()` returns the
      same instance, and it reads `version` and `engine` from that config's record
      as the record stands at the time of reading. */
  lemma SingletonAfterClosing(w: World, id: nat, calls: seq<Call>)
    requires Valid(w) && w.gate.Unconfigured? && id < |w.configs|
    ensures var closed := Done(w, id).world;
            var later := RunCalls(closed, calls);
            && Singleton(later) == Ok(Runtime(id))
            && id < |later.configs|
            && later.configs[id].Keys == RuntimeKeys
            && ReadRuntime(later, Runtime(id), "version") == Some(later.configs[id]["version"])
            && ReadRuntime(later, Runtime(id), "engine") == Some(later.configs[id]["engine"])
  {
    var closed := Done(w, id).world;
    assert Valid(closed);
    ConfiguredIsTerminal(closed, calls);
    RunPreservesValid(closed, calls);
  }

  /** The first `done()` answers true; every `done()` after it, on the same config or
      any other, old or created later, answers false and changes nothing. */
  lemma LaterDoneFails(w: World, id: nat, calls: seq<Call>, other: nat)
    requires w.gate.Unconfigured? && id < |w.configs|
    ensures Done(w, id).reply == Ok(true)
    ensures var later := RunCalls(Done(w, id).world, calls);
            other < |later.configs| ==> Done(later, other) == GateStep(Ok(false), later)
  {
    ConfiguredIsTerminal(Done(w, id).world, calls);
  }

  /** Before any successful `done()`, `singleton()` fails with "Not yet configured.". */
  lemma SingletonFailsUntilClosed(w: World, calls: seq<Call>)
    requires w.gate.Unconfigured?
    requires Closings(w, calls) == 0
    ensures Singleton(RunCalls(w, calls)) == Err(NotYetConfigured)
    ensures Singleton(RunCalls(w, calls)).error.Message() == "Not yet configured."
  {
    DoneSucceedsAtMostOnce(w, calls);
  }

  /** From load time, every run of calls keeps the world well formed, closes the gate at most
      once, and leaves `singleton()` failing with `Not yet configured.` until a `done()` succeeds. */
  lemma RunFromInitial(calls: seq<Call>)
    ensures Valid(Initial) && Singleton(Initial) == Err(NotYetConfigured)
    ensures Valid(RunCalls(Initial, calls))
    ensures Closings(Initial, calls) <= 1
    ensures Closings(Initial, calls) == 0 ==> Singleton(RunCalls(Initial, calls)) == Err(NotYetConfigured)
    ensures Closings(Initial, calls) == 1 ==> Singleton(RunCalls(Initial, calls)).Ok?
  {
    RunPreservesValid(Initial, calls);
    DoneSucceedsAtMostOnce(Initial, calls);
    if Closings(Initial, calls) == 0 {
      SingletonFailsUntilClosed(Initial, calls);
    }
  }

  /** A run of writes `record[key] = value`, in order. */
  function AssignAll(r: RuntimeRecord, writes: seq<(string, string)>): RuntimeRecord
    decreases |writes|
  {
    if writes == [] then r else AssignAll(Assign(r, writes[0].0, writes[0].1), writes[1..])
  }

  lemma {:induction false} AssignAllKeepsKeys(r: RuntimeRecord, writes: seq<(string, string)>)
    ensures AssignAll(r, writes).Keys == r.Keys
    decreases |writes|
  {
    if writes != [] {
      AssignAllKeepsKeys(Assign(r, writes[0].0, writes[0].1), writes[1..]);
    }
  }

  /** However a config's runtime record is written to, its keys stay exactly
      `version` and `engine`: no key can be added or removed. */
  lemma RuntimeKeysFixed(writes: seq<(string, string)>)
    ensures AssignAll(FreshRuntime, writes).Keys == RuntimeKeys
  {
    AssignAllKeepsKeys(FreshRuntime, writes);
  }

  /** Writing `version` and `engine` changes their values, and a write to any other
      key is dropped, as the sealed record of a fresh config behaves. */
  lemma RuntimeEditable(v: string, e: string, other: string, x: string)
    requires other !in RuntimeKeys
    ensures var r := AssignAll(FreshRuntime, [("version", v), ("engine", e), (other, x)]);
            r == map["version" := v, "engine" := e] && other !in r
  {
    var r1 := Assign(FreshRuntime, "version", v);
    var r2 := Assign(r1, "engine", e);
    assert AssignAll(r2, [(other, x)]) == AssignAll(Assign(r2, other, x), []);
    assert [("version", v), ("engine", e), (other, x)][1..] == [("engine", e), (other, x)];
    assert [("engine", e), (other, x)][1..] == [(other, x)];
  }
}
