/** When a start succeeds, said of the graph of references alone. */
module StartupSuccess {
  import opened Common
  import opened Startup
  import opened StartupLaws

  /** Neither the module nor anything it creates inline has a step that fails. */
  predicate Unbroken(mod: Module) {
    StepsUnbroken(mod.steps)
  }

  predicate StepsUnbroken(steps: seq<Step>) {
    steps == [] || (StepUnbroken(steps[0]) && StepsUnbroken(steps[1..]))
  }

  predicate StepUnbroken(step: Step) {
    match step
    case Ref(_) => true
    case Inline(mod) => Unbroken(mod)
    case Broken => false
  }

  /** What the endpoints and the blocks they reach refer to is registered, and none of them is broken. */
  ghost predicate AllSound(reg: Registry, endpoints: seq<Module>) {
    && (forall i :: 0 <= i < |endpoints| ==> Unbroken(endpoints[i]))
    && (forall n :: Reaches(reg, EndpointRefs(reg, endpoints), n) ==> n in reg.instances && Unbroken(reg.instances[n]))
  }

  ghost predicate AllReached(reg: Registry, endpoints: seq<Module>) {
    forall n :: n in reg.instances ==> Reaches(reg, EndpointRefs(reg, endpoints), n)
  }

  // ---------------------------------------------------------------- what a start that ends has found

  ghost predicate NewUnbroken(reg: Registry, a: State, b: State) {
    forall n :: n in b.initialized && n !in a.initialized ==> n in reg.instances && Unbroken(reg.instances[n])
  }

  lemma {:induction false} GetFound(reg: Registry, st: State, name: string)
    requires Get(reg, st, name).Ended?
    ensures NewUnbroken(reg, st, Get(reg, st, name).st)
    decreases Waiting(reg, st), 0, 0
  {
    var n := Canonical(reg, name);
    if n !in st.initialized {
      var marked := st.(initialized := st.initialized + {n});
      WaitingShrinks(reg, st, marked);
      InitFound(reg, marked, reg.instances[n]);
    }
  }

  lemma {:induction false} InitFound(reg: Registry, st: State, mod: Module)
    requires Init(reg, st, mod).Ended?
    ensures Unbroken(mod) && NewUnbroken(reg, st, Init(reg, st, mod).st)
    decreases Waiting(reg, st), Size(mod), 1
  {
    StepsFound(reg, st.(started := st.started + [mod.uid]), mod.steps);
  }

  lemma {:induction false} StepsFound(reg: Registry, st: State, steps: seq<Step>)
    requires RunSteps(reg, st, steps).Ended?
    ensures StepsUnbroken(steps) && NewUnbroken(reg, st, RunSteps(reg, st, steps).st)
    decreases Waiting(reg, st), StepsSize(steps), 0
  {
    if steps != [] {
      RunFirst(reg, st, steps);
      match steps[0] {
        case Ref(name) => GetFound(reg, st, name);
        case Inline(mod) => InitFound(reg, st, mod);
      }
      StepsFound(reg, RunStep(reg, st, steps[0]).st, steps[1..]);
    }
  }

  lemma {:induction false} EndpointsFound(reg: Registry, st: State, endpoints: seq<Module>)
    requires InitEndpoints(reg, st, endpoints).Ended?
    ensures NewUnbroken(reg, st, InitEndpoints(reg, st, endpoints).st)
    ensures forall i :: 0 <= i < |endpoints| ==> Unbroken(endpoints[i])
    decreases |endpoints|
  {
    if endpoints != [] {
      InitFound(reg, st, endpoints[0]);
      EndpointsFound(reg, Init(reg, st, endpoints[0]).st, endpoints[1..]);
      assert forall i :: 0 < i < |endpoints| ==> endpoints[i] == endpoints[1..][i - 1];
    }
  }

  // ---------------------------------------------------------------- what makes a start end

  /** These blocks are registered, not broken, and refer to no others. */
  ghost predicate SoundAmong(reg: Registry, names: set<string>) {
    forall n :: n in names ==> n in reg.instances && Unbroken(reg.instances[n]) && Refs(reg, reg.instances[n]) <= names
  }

  lemma {:induction false} GetEnds(reg: Registry, st: State, name: string, names: set<string>)
    requires SoundAmong(reg, names) && Canonical(reg, name) in names
    ensures Get(reg, st, name).Ended?
    decreases Waiting(reg, st), 0, 0
  {
    var n := Canonical(reg, name);
    if n !in st.initialized {
      var marked := st.(initialized := st.initialized + {n});
      WaitingShrinks(reg, st, marked);
      InitEnds(reg, marked, reg.instances[n], names);
    }
  }

  lemma {:induction false} InitEnds(reg: Registry, st: State, mod: Module, names: set<string>)
    requires SoundAmong(reg, names) && Unbroken(mod) && Refs(reg, mod) <= names
    ensures Init(reg, st, mod).Ended?
    decreases Waiting(reg, st), Size(mod), 1
  {
    StepsEnd(reg, st.(started := st.started + [mod.uid]), mod.steps, names);
  }

  lemma {:induction false} StepsEnd(reg: Registry, st: State, steps: seq<Step>, names: set<string>)
    requires SoundAmong(reg, names) && StepsUnbroken(steps) && StepsRefs(reg, steps) <= names
    ensures RunSteps(reg, st, steps).Ended?
    decreases Waiting(reg, st), StepsSize(steps), 0
  {
    if steps != [] {
      RunFirst(reg, st, steps);
      match steps[0] {
        case Ref(name) => GetEnds(reg, st, name, names);
        case Inline(mod) => InitEnds(reg, st, mod, names);
      }
      StepsEnd(reg, RunStep(reg, st, steps[0]).st, steps[1..], names);
    }
  }

  lemma {:induction false} EndpointsEnd(reg: Registry, st: State, endpoints: seq<Module>, names: set<string>)
    requires SoundAmong(reg, names) && EndpointRefs(reg, endpoints) <= names
    requires forall i :: 0 <= i < |endpoints| ==> Unbroken(endpoints[i])
    ensures InitEndpoints(reg, st, endpoints).Ended?
    decreases |endpoints|
  {
    if endpoints != [] {
      InitEnds(reg, st, endpoints[0], names);
      assert forall i :: 0 < i < |endpoints| ==> endpoints[i] == endpoints[1..][i - 1];
      EndpointsEnd(reg, Init(reg, st, endpoints[0]).st, endpoints[1..], names);
    }
  }

  lemma {:induction false} ReachesOn(reg: Registry, from: set<string>, n: string, m: string)
    requires Reaches(reg, from, n) && n in reg.instances && m in Refs(reg, reg.instances[n])
    ensures Reaches(reg, from, m)
  {
    var path :| Way(reg, from, path, n);
    var longer := path + [m];
    forall i | 0 <= i < |longer| - 1 ensures longer[i] in reg.instances && longer[i + 1] in Refs(reg, reg.instances[longer[i]]) {
      assert i < |path| - 1 ==> path[i + 1] in Refs(reg, reg.instances[path[i]]);
    }
    assert Way(reg, from, longer, m);
  }

  lemma {:induction false} ReachedIsSound(reg: Registry, endpoints: seq<Module>, names: set<string>)
    requires AllSound(reg, endpoints) && names == set n | n in reg.instances && Reaches(reg, EndpointRefs(reg, endpoints), n)
    ensures SoundAmong(reg, names) && EndpointRefs(reg, endpoints) <= names
  {
    var from := EndpointRefs(reg, endpoints);
    forall n | n in from ensures n in names {
      assert Way(reg, from, [n], n);
      assert Reaches(reg, from, n);
    }
    forall n | n in names ensures Refs(reg, reg.instances[n]) <= names {
      forall m | m in Refs(reg, reg.instances[n]) ensures m in names {
        ReachesOn(reg, from, n, m);
      }
    }
  }

  // ---------------------------------------------------------------- the two together

  /** The endpoints can all be initialised exactly if everything met on the way is registered and not broken. */
  lemma {:induction false} EndpointsEndIff(reg: Registry, endpoints: seq<Module>)
    ensures InitEndpoints(reg, NOTHING, endpoints).Ended? <==> AllSound(reg, endpoints)
  {
    if AllSound(reg, endpoints) {
      var names := set n | n in reg.instances && Reaches(reg, EndpointRefs(reg, endpoints), n);
      ReachedIsSound(reg, endpoints, names);
      EndpointsEnd(reg, NOTHING, endpoints, names);
    }
    if InitEndpoints(reg, NOTHING, endpoints).Ended? {
      EndpointsFound(reg, NOTHING, endpoints);
      var st := InitEndpoints(reg, NOTHING, endpoints).st;
      forall n | Reaches(reg, EndpointRefs(reg, endpoints), n) ensures n in st.initialized {
        ReachedIsInitialized(reg, endpoints, n);
      }
    }
  }

  lemma {:induction false} ReachedIsInitialized(reg: Registry, endpoints: seq<Module>, n: string)
    requires InitEndpoints(reg, NOTHING, endpoints).Ended? && Reaches(reg, EndpointRefs(reg, endpoints), n)
    ensures n in InitEndpoints(reg, NOTHING, endpoints).st.initialized
  {
    var st := InitEndpoints(reg, NOTHING, endpoints).st;
    EndpointsClose(reg, NOTHING, endpoints);
    assert st.initialized - {} == st.initialized;
    var path :| Way(reg, EndpointRefs(reg, endpoints), path, n);
    ClosedUnderWays(reg, EndpointRefs(reg, endpoints), path, n, st);
  }

  /** A start succeeds if and only if everything the endpoints meet is registered and not broken, inline modules
      included, and every registered block is reached from them; cycles do not matter. */
  lemma {:induction false} StartSucceedsIff(reg: Registry, endpoints: seq<Module>)
    ensures Start(reg, endpoints).Ended? <==> AllSound(reg, endpoints) && AllReached(reg, endpoints)
  {
    EndpointsEndIff(reg, endpoints);
    if Start(reg, endpoints).Ended? {
      StartReachesEverything(reg, endpoints);
    }
    if AllSound(reg, endpoints) && AllReached(reg, endpoints) {
      forall n | n in reg.instances ensures n in InitEndpoints(reg, NOTHING, endpoints).st.initialized {
        ReachedIsInitialized(reg, endpoints, n);
      }
    }
  }
}
