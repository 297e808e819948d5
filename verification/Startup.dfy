/** Start-up: configuration blocks are initialised on first reference, depth first, over a reference
    graph that may hold cycles; shutdown hooks run in reverse. */
module Startup {
  import opened Common

  /** Where a module object is created: as a named configuration block, as an endpoint, or inline
      inside one of these. */
  datatype Home = Named(name: string) | Endpoint(index: nat)

  /** The identity of a module object. */
  datatype Uid = Uid(home: Home, serial: nat)

  /** A module object; its Init goes through `steps` in order and stops at the first that fails. */
  datatype Module = Module(uid: Uid, steps: seq<Step>)

  /** Reference an existing block, create an inline module, or fail for any other reason. */
  datatype Step = Ref(name: string) | Inline(mod: Module) | Broken

  datatype StartError = UnknownBlock | InitFailed | UnusedBlock | UnknownModule | DuplicateName | FactoryFailed | NoEndpoint

  /** The block registry; `closes` says which module objects can be closed. */
  datatype Registry = Registry(instances: map<string, Module>, aliases: map<string, string>, closes: Uid -> bool)

  /** `started` and `finished` record the Init calls, `hooks` the shutdown hooks installed. */
  datatype State = State(initialized: set<string>, started: seq<Uid>, finished: seq<Uid>, hooks: seq<Uid>)

  /** Where an attempt to initialise modules got to, and the error that stopped it, if any. */
  datatype Outcome = Ended(st: State) | Stopped(st: State, error: StartError)

  const NOTHING := State({}, [], [], [])

  function ErrorOf(o: Outcome): Option<StartError> {
    if o.Stopped? then Some(o.error) else None
  }

  function Canonical(reg: Registry, name: string): string {
    if name in reg.aliases && reg.aliases[name] != "" then reg.aliases[name] else name
  }

  predicate HasInstance(reg: Registry, name: string) {
    Canonical(reg, name) in reg.instances
  }

  function Size(mod: Module): nat {
    1 + StepsSize(mod.steps)
  }

  function StepsSize(steps: seq<Step>): nat {
    if steps == [] then 0
    else StepSize(steps[0]) + 1 + StepsSize(steps[1..])
  }

  function StepSize(step: Step): nat {
    if step.Inline? then Size(step.mod) else 0
  }

  function Waiting(reg: Registry, st: State): nat {
    |reg.instances.Keys - st.initialized|
  }

  lemma {:induction false} WaitingShrinks(reg: Registry, a: State, b: State)
    requires a.initialized <= b.initialized
    ensures Waiting(reg, b) <= Waiting(reg, a)
    ensures (exists n :: n in reg.instances && n in b.initialized && n !in a.initialized) ==> Waiting(reg, b) < Waiting(reg, a)
  {
    var x, y := reg.instances.Keys - b.initialized, reg.instances.Keys - a.initialized;
    SubsetCardinality(x, y);
    if n :| n in reg.instances && n in b.initialized && n !in a.initialized {
      assert n in y && n !in x;
      SubsetCardinality(x, y - {n});
    }
  }

  lemma {:induction false} SubsetCardinality<T>(x: set<T>, y: set<T>)
    requires x <= y
    ensures |x| <= |y|
  {
    if x != {} {
      var e :| e in x;
      SubsetCardinality(x - {e}, y - {e});
    }
  }

  // ---------------------------------------------------------------- initialisation

  /** Gets a block by name, initialising it if no one has referenced it yet. A block already being
      initialised counts as initialised: this is what breaks cycles. */
  function Get(reg: Registry, st: State, name: string): (r: Outcome)
    ensures st.initialized <= r.st.initialized
    decreases Waiting(reg, st), 0, 0
  {
    var n := Canonical(reg, name);
    if n !in reg.instances then Stopped(st, UnknownBlock)
    else if n in st.initialized then Ended(st)
    else
      var marked := st.(initialized := st.initialized + {n});
      WaitingShrinks(reg, st, marked);
      Init(reg, marked, reg.instances[n])
  }

  /** Runs Init and, once it has succeeded, installs the shutdown hook. */
  function Init(reg: Registry, st: State, mod: Module): (r: Outcome)
    ensures st.initialized <= r.st.initialized
    decreases Waiting(reg, st), Size(mod), 1
  {
    match RunSteps(reg, st.(started := st.started + [mod.uid]), mod.steps)
    case Stopped(reached, e) => Stopped(reached, e)
    case Ended(done) =>
      Ended(done.(finished := done.finished + [mod.uid],
                  hooks := done.hooks + if reg.closes(mod.uid) then [mod.uid] else []))
  }

  function RunSteps(reg: Registry, st: State, steps: seq<Step>): (r: Outcome)
    ensures st.initialized <= r.st.initialized
    decreases Waiting(reg, st), StepsSize(steps), 0
  {
    if steps == [] then Ended(st)
    else
      match RunStep(reg, st, steps[0])
      case Stopped(reached, e) => Stopped(reached, e)
      case Ended(next) =>
        WaitingShrinks(reg, st, next);
        RunSteps(reg, next, steps[1..])
  }

  function RunStep(reg: Registry, st: State, step: Step): (r: Outcome)
    ensures st.initialized <= r.st.initialized
    decreases Waiting(reg, st), StepSize(step), 2
  {
    match step
    case Ref(name) => Get(reg, st, name)
    case Inline(mod) => Init(reg, st, mod)
    case Broken => Stopped(st, InitFailed)
  }

  /** The first step, and then the others; they are fewer, and wait for no more. */
  lemma {:induction false} RunFirst(reg: Registry, st: State, steps: seq<Step>)
    requires steps != []
    ensures StepSize(steps[0]) < StepsSize(steps) && StepsSize(steps[1..]) < StepsSize(steps)
    ensures var next := RunStep(reg, st, steps[0]);
            && Waiting(reg, next.st) <= Waiting(reg, st)
            && RunSteps(reg, st, steps) == if next.Stopped? then next else RunSteps(reg, next.st, steps[1..])
  {
    WaitingShrinks(reg, st, RunStep(reg, st, steps[0]).st);
  }

  function InitEndpoints(reg: Registry, st: State, endpoints: seq<Module>): Outcome
    decreases |endpoints|
  {
    if endpoints == [] then Ended(st)
    else
      match Init(reg, st, endpoints[0])
      case Stopped(reached, e) => Stopped(reached, e)
      case Ended(next) => InitEndpoints(reg, next, endpoints[1..])
  }

  /** Initialises every endpoint, then insists that every registered block has been used. */
  function Start(reg: Registry, endpoints: seq<Module>): Outcome {
    match InitEndpoints(reg, NOTHING, endpoints)
    case Stopped(reached, e) => Stopped(reached, e)
    case Ended(st) => if reg.instances.Keys <= st.initialized then Ended(st) else Stopped(st, UnusedBlock)
  }

  function Reversed<T>(s: seq<T>): seq<T> {
    if s == [] then [] else Reversed(s[1..]) + [s[0]]
  }

  /** The order in which modules are closed. */
  function ShutdownOrder(st: State): seq<Uid> {
    Reversed(st.hooks)
  }

  // ---------------------------------------------------------------- registration

  datatype BlockKind = EndpointBlock | ModuleBlock | UnknownBlockKind

  /** A top-level configuration block and what its factory makes of it. */
  datatype ConfigBlock = ConfigBlock(directive: string, args: seq<string>, kind: BlockKind, created: Option<Module>)

  datatype Registration = Registration(reg: Registry, endpoints: seq<Module>)

  function InstName(block: ConfigBlock): string {
    if block.args == [] then block.directive else block.args[0]
  }

  function AliasNames(block: ConfigBlock): seq<string> {
    if block.args == [] then [] else block.args[1..]
  }

  /** The name a module object reports as its own. */
  function ReportedName(mod: Module): string {
    if mod.uid.home.Named? then mod.uid.home.name else ""
  }

  function RegisterAliases(reg: Registry, names: seq<string>, target: string): Result<Registry, StartError>
    decreases |names|
  {
    if names == [] then Ok(reg)
    else if HasInstance(reg, names[0]) then Err(DuplicateName)
    else RegisterAliases(reg.(aliases := reg.aliases[names[0] := target]), names[1..], target)
  }

  function RegisterBlock(acc: Registration, block: ConfigBlock): Result<Registration, StartError> {
    match block.kind
    case EndpointBlock =>
      if block.created.None? then Err(FactoryFailed)
      else Ok(acc.(endpoints := acc.endpoints + [block.created.value]))
    case UnknownBlockKind => Err(UnknownModule)
    case ModuleBlock =>
      if HasInstance(acc.reg, InstName(block)) then Err(DuplicateName)
      else if block.created.None? then Err(FactoryFailed)
      else
        var mod := block.created.value;
        var added := acc.reg.(instances := acc.reg.instances[ReportedName(mod) := mod]);
        match RegisterAliases(added, AliasNames(block), InstName(block))
        case Err(e) => Err(e)
        case Ok(reg) => Ok(acc.(reg := reg))
  }

  function RegisterAll(acc: Registration, blocks: seq<ConfigBlock>): Result<Registration, StartError>
    decreases |blocks|
  {
    if blocks == [] then if acc.endpoints == [] then Err(NoEndpoint) else Ok(acc)
    else
      match RegisterBlock(acc, blocks[0])
      case Err(e) => Err(e)
      case Ok(next) => RegisterAll(next, blocks[1..])
  }

  // ---------------------------------------------------------------- the imperative registry

  class ModuleTable {
    const closes: Uid -> bool
    var instances: map<string, Module>
    var aliases: map<string, string>
    var initialized: set<string>
    var hooks: seq<Uid>
    ghost var started: seq<Uid>
    ghost var finished: seq<Uid>

    constructor (closes: Uid -> bool)
      ensures Reg() == Registry(map[], map[], closes) && Now() == NOTHING
    {
      this.closes := closes;
      instances, aliases := map[], map[];
      initialized, hooks, started, finished := {}, [], [], [];
    }

    ghost function Reg(): Registry
      reads this
    {
      Registry(instances, aliases, closes)
    }

    ghost function Now(): State
      reads this
    {
      State(initialized, started, finished, hooks)
    }

    method Resolve(name: string) returns (n: string)
      ensures n == Canonical(Reg(), name)
    {
      n := name;
      if name in aliases && aliases[name] != "" {
        n := aliases[name];
      }
    }

    method GetInstance(name: string) returns (r: Result<Module, StartError>)
      modifies `initialized, `hooks, `started, `finished
      ensures Now() == Get(Reg(), old(Now()), name).st
      ensures match Get(Reg(), old(Now()), name)
              case Stopped(_, e) => r == Err(e)
              case Ended(_) => Canonical(Reg(), name) in instances && r == Ok(instances[Canonical(Reg(), name)])
      decreases Waiting(Reg(), Now()), 0, 0
    {
      var n := Resolve(name);
      if n !in instances {
        return Err(UnknownBlock);
      }
      var mod := instances[n];
      if n in initialized {
        return Ok(mod);
      }
      ghost var before := Now();
      initialized := initialized + {n};
      WaitingShrinks(Reg(), before, Now());
      var failed := InitAndHook(mod);
      if failed.Some? {
        return Err(failed.value);
      }
      return Ok(mod);
    }

    /** Runs Init and installs the shutdown hook of a closable module after it. */
    method InitAndHook(mod: Module) returns (failed: Option<StartError>)
      modifies `initialized, `hooks, `started, `finished
      ensures Now() == Init(Reg(), old(Now()), mod).st && failed == ErrorOf(Init(Reg(), old(Now()), mod))
      decreases Waiting(Reg(), Now()), Size(mod), 1
    {
      ghost var entry := Now();
      started := started + [mod.uid];
      failed := RunInit(mod.steps);
      if failed.Some? {
        return;
      }
      finished := finished + [mod.uid];
      if closes(mod.uid) {
        hooks := hooks + [mod.uid];
      }
    }

    /** The part of Init that matters here: obtaining, one after another, the modules it needs. */
    method RunInit(steps: seq<Step>) returns (failed: Option<StartError>)
      modifies `initialized, `hooks, `started, `finished
      ensures Now() == RunSteps(Reg(), old(Now()), steps).st && failed == ErrorOf(RunSteps(Reg(), old(Now()), steps))
      decreases Waiting(Reg(), Now()), StepsSize(steps), 0
    {
      failed := None;
      if steps == [] {
        return;
      }
      ghost var reg, before := Reg(), Now();
      RunFirst(reg, before, steps);
      failed := RunOne(steps[0]);
      if failed.None? {
        failed := RunInit(steps[1..]);
      }
    }

    method RunOne(step: Step) returns (failed: Option<StartError>)
      modifies `initialized, `hooks, `started, `finished
      ensures Now() == RunStep(Reg(), old(Now()), step).st && failed == ErrorOf(RunStep(Reg(), old(Now()), step))
      decreases Waiting(Reg(), Now()), StepSize(step), 2
    {
      failed := None;
      match step {
        case Ref(name) =>
          var mod := GetInstance(name);
          failed := if mod.Err? then Some(mod.error) else None;
        case Inline(mod) =>
          failed := InitAndHook(mod);
        case Broken =>
          failed := Some(InitFailed);
      }
    }

    method RegisterModules(blocks: seq<ConfigBlock>) returns (r: Result<seq<Module>, StartError>)
      modifies `instances, `aliases
      ensures match RegisterAll(Registration(old(Reg()), []), blocks)
              case Err(e) => r == Err(e)
              case Ok(done) => r == Ok(done.endpoints) && Reg() == done.reg
    {
      var endpoints := [];
      var i := 0;
      while i < |blocks|
        invariant 0 <= i <= |blocks|
        invariant RegisterAll(Registration(old(Reg()), []), blocks) == RegisterAll(Registration(Reg(), endpoints), blocks[i..])
      {
        var block := blocks[i];
        assert blocks[i..][1..] == blocks[i + 1..];
        match block.kind {
          case EndpointBlock =>
            if block.created.None? {
              return Err(FactoryFailed);
            }
            endpoints := endpoints + [block.created.value];
          case UnknownBlockKind =>
            return Err(UnknownModule);
          case ModuleBlock =>
            var failed := RegisterModule(block);
            if failed.Some? {
              return Err(failed.value);
            }
        }
        i := i + 1;
      }
      if endpoints == [] {
        return Err(NoEndpoint);
      }
      return Ok(endpoints);
    }

    method RegisterModule(block: ConfigBlock) returns (failed: Option<StartError>)
      requires block.kind.ModuleBlock?
      modifies `instances, `aliases
      ensures match RegisterBlock(Registration(old(Reg()), []), block)
              case Err(e) => failed == Some(e)
              case Ok(done) => failed.None? && Reg() == done.reg
    {
      var inst := InstName(block);
      var known := Resolve(inst);
      if known in instances {
        return Some(DuplicateName);
      }
      if block.created.None? {
        return Some(FactoryFailed);
      }
      instances := instances[ReportedName(block.created.value) := block.created.value];
      var names, i := AliasNames(block), 0;
      ghost var added := Reg();
      assert names[0..] == names;
      while i < |names|
        invariant 0 <= i <= |names| && instances == added.instances
        invariant RegisterAliases(added, names, inst) == RegisterAliases(Reg(), names[i..], inst)
      {
        assert names[i..][1..] == names[i + 1..];
        var target := Resolve(names[i]);
        if target in instances {
          return Some(DuplicateName);
        }
        aliases := aliases[names[i] := inst];
        i := i + 1;
      }
      return None;
    }

    method InitModules(endpoints: seq<Module>) returns (failed: Option<StartError>)
      requires Now() == NOTHING
      modifies `initialized, `hooks, `started, `finished
      ensures Now() == Start(Reg(), endpoints).st && failed == ErrorOf(Start(Reg(), endpoints))
    {
      var i := 0;
      while i < |endpoints|
        invariant 0 <= i <= |endpoints|
        invariant InitEndpoints(Reg(), NOTHING, endpoints) == InitEndpoints(Reg(), Now(), endpoints[i..])
      {
        assert endpoints[i..][1..] == endpoints[i + 1..];
        failed := InitAndHook(endpoints[i]);
        if failed.Some? {
          return;
        }
        i := i + 1;
      }
      if !(instances.Keys <= initialized) {
        return Some(UnusedBlock);
      }
      return None;
    }

    /** Runs the shutdown hooks, the last installed first; `closed` lists the modules closed. */
    method RunHooks() returns (closed: seq<Uid>)
      ensures closed == ShutdownOrder(Now())
    {
      closed := [];
      var i := |hooks|;
      assert hooks[i..] == [];
      while i > 0
        invariant 0 <= i <= |hooks|
        invariant closed == Reversed(hooks[i..])
      {
        i := i - 1;
        assert hooks[i..][1..] == hooks[i + 1..];
        closed := closed + [hooks[i]];
      }
      assert hooks[0..] == hooks;
    }
  }
}
