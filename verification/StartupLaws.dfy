/** What start-up and shutdown guarantee, over every reference graph. */
module StartupLaws {
  import opened Common
  import opened Startup

  // ---------------------------------------------------------------- objects and references

  /** The module objects created by a module: itself and everything inline below it. */
  function Objects(mod: Module): seq<Module> {
    [mod] + StepsObjects(mod.steps)
  }

  function StepsObjects(steps: seq<Step>): seq<Module> {
    if steps == [] then [] else StepObjects(steps[0]) + StepsObjects(steps[1..])
  }

  function StepObjects(step: Step): seq<Module> {
    if step.Inline? then Objects(step.mod) else []
  }

  function UidsOf(mods: seq<Module>): set<Uid> {
    set m | m in mods :: m.uid
  }

  ghost predicate Distinct(mods: seq<Module>) {
    forall i, j :: 0 <= i < j < |mods| ==> mods[i].uid != mods[j].uid
  }

  /** Every object below a module has its own identity, created at that module's home. */
  ghost predicate OwnObjects(mod: Module, home: Home) {
    Distinct(Objects(mod)) && forall u :: u in UidsOf(Objects(mod)) ==> u.home == home
  }

  ghost predicate WellFormed(reg: Registry, endpoints: seq<Module>) {
    && RegistryOwns(reg)
    && (forall i :: 0 <= i < |endpoints| ==> OwnObjects(endpoints[i], Endpoint(i)))
  }

  ghost predicate RegistryOwns(reg: Registry) {
    forall n :: n in reg.instances ==> OwnObjects(reg.instances[n], Named(n))
  }

  /** The blocks a module refers to, itself or through what it creates inline. */
  function Refs(reg: Registry, mod: Module): set<string> {
    StepsRefs(reg, mod.steps)
  }

  function StepsRefs(reg: Registry, steps: seq<Step>): set<string> {
    if steps == [] then {} else StepRefs(reg, steps[0]) + StepsRefs(reg, steps[1..])
  }

  function StepRefs(reg: Registry, step: Step): set<string> {
    match step
    case Ref(name) => {Canonical(reg, name)}
    case Inline(mod) => Refs(reg, mod)
    case Broken => {}
  }

  // ---------------------------------------------------------------- Init runs at most once

  /** `seg` lists, without repetition, objects of `own` or of blocks initialised between `a` and `b`. */
  ghost predicate NewObjects(seg: seq<Uid>, own: set<Uid>, a: State, b: State) {
    && NoDuplicates(seg)
    && forall u :: u in seg ==> u in own || (u.home.Named? && u.home.name in b.initialized && u.home.name !in a.initialized)
  }

  /** The objects in `own` do not belong to blocks still waiting to be initialised. */
  ghost predicate AtHome(own: set<Uid>, st: State) {
    forall u :: u in own && u.home.Named? ==> u.home.name in st.initialized
  }

  lemma {:induction false} NewObjectsConcat(x: seq<Uid>, own: set<Uid>, a: State, b: State, y: seq<Uid>, more: set<Uid>, c: State)
    requires NewObjects(x, own, a, b) && NewObjects(y, more, b, c)
    requires a.initialized <= b.initialized <= c.initialized
    requires AtHome(own, a) && AtHome(more, a) && own !! more
    ensures NewObjects(x + y, own + more, a, c)
  {
    forall i, j | 0 <= i < |x| && 0 <= j < |y| ensures x[i] != y[j] {
      assert x[i] in x && y[j] in y;
    }
  }

  lemma {:induction false} DistinctParts(a: seq<Module>, b: seq<Module>)
    requires Distinct(a + b)
    ensures Distinct(a) && Distinct(b)
    ensures UidsOf(a) !! UidsOf(b) && UidsOf(a + b) == UidsOf(a) + UidsOf(b)
  {
    var c := a + b;
    assert forall i :: 0 <= i < |a| ==> c[i] == a[i];
    assert forall i :: 0 <= i < |b| ==> c[|a| + i] == b[i];
    forall i, j | 0 <= i < |a| && 0 <= j < |b| ensures a[i].uid != b[j].uid {
      assert c[i].uid != c[|a| + j].uid;
    }
  }

  function Closers(reg: Registry, us: seq<Uid>): seq<Uid> {
    if us == [] then [] else (if reg.closes(us[0]) then [us[0]] else []) + Closers(reg, us[1..])
  }

  lemma {:induction false} ClosersConcat(reg: Registry, a: seq<Uid>, b: seq<Uid>)
    ensures Closers(reg, a + b) == Closers(reg, a) + Closers(reg, b)
  {
    if a == [] {
      assert a + b == b;
    } else {
      assert (a + b)[1..] == a[1..] + b;
      ClosersConcat(reg, a[1..], b);
    }
  }

  /** Everything recorded between two states, told apart by what did it. */
  ghost predicate Ran(reg: Registry, a: State, b: State, begun: seq<Uid>, ended: seq<Uid>, own: set<Uid>) {
    && a.initialized <= b.initialized
    && b.started == a.started + begun && NewObjects(begun, own, a, b)
    && b.finished == a.finished + ended && NewObjects(ended, own, a, b)
    && b.hooks == a.hooks + Closers(reg, ended)
  }

  lemma {:induction false} RanConcat(reg: Registry, a: State, b: State, c: State, begun: seq<Uid>, ended: seq<Uid>, own: set<Uid>,
                  begun': seq<Uid>, ended': seq<Uid>, more: set<Uid>)
    requires Ran(reg, a, b, begun, ended, own) && Ran(reg, b, c, begun', ended', more)
    requires AtHome(own, a) && AtHome(more, a) && own !! more
    ensures Ran(reg, a, c, begun + begun', ended + ended', own + more)
  {
    NewObjectsConcat(begun, own, a, b, begun', more, c);
    NewObjectsConcat(ended, own, a, b, ended', more, c);
    ConcatAssoc(a.started, begun, begun');
    ConcatAssoc(a.finished, ended, ended');
    ClosersConcat(reg, ended, ended');
    ConcatAssoc(a.hooks, Closers(reg, ended), Closers(reg, ended'));
  }

  lemma {:induction false} GetOnce(reg: Registry, st: State, name: string) returns (begun: seq<Uid>, ended: seq<Uid>)
    requires RegistryOwns(reg)
    ensures Ran(reg, st, Get(reg, st, name).st, begun, ended, {})
    decreases Waiting(reg, st), 0, 0
  {
    var n := Canonical(reg, name);
    if n !in reg.instances || n in st.initialized {
      begun, ended := [], [];
    } else {
      var marked := st.(initialized := st.initialized + {n});
      WaitingShrinks(reg, st, marked);
      begun, ended := InitOnce(reg, marked, reg.instances[n]);
    }
  }

  lemma {:induction false} InitOnce(reg: Registry, st: State, mod: Module) returns (begun: seq<Uid>, ended: seq<Uid>)
    requires RegistryOwns(reg)
    requires Distinct(Objects(mod)) && AtHome(UidsOf(Objects(mod)), st)
    ensures Ran(reg, st, Init(reg, st, mod).st, begun, ended, UidsOf(Objects(mod)))
    decreases Waiting(reg, st), Size(mod), 1
  {
    var inner := StepsObjects(mod.steps);
    DistinctParts([mod], inner);
    assert UidsOf([mod]) == {mod.uid};
    var marked := st.(started := st.started + [mod.uid]);
    begun, ended := StepsOnce(reg, marked, mod.steps);
    var done := RunSteps(reg, marked, mod.steps);
    BegunOnce(reg, st, marked, done.st, mod.uid, begun, ended, UidsOf(inner));
    begun := [mod.uid] + begun;
    if done.Ended? {
      EndedOnce(reg, st, done.st, Init(reg, st, mod).st, mod.uid, begun, ended, UidsOf(inner));
      ended := ended + [mod.uid];
    }
  }

  /** The call of Init itself, before what it leads to. */
  lemma {:induction false} BegunOnce(reg: Registry, st: State, marked: State, done: State, uid: Uid, begun: seq<Uid>, ended: seq<Uid>, inner: set<Uid>)
    requires marked == st.(started := st.started + [uid]) && Ran(reg, marked, done, begun, ended, inner)
    requires AtHome({uid} + inner, st) && uid !in inner
    ensures Ran(reg, st, done, [uid] + begun, ended, {uid} + inner) && NewObjects(ended, inner, st, done)
  {
    NewObjectsConcat([uid], {uid}, st, marked, begun, inner, done);
    ConcatAssoc(st.started, [uid], begun);
  }

  /** And its end, after that. */
  lemma {:induction false} EndedOnce(reg: Registry, st: State, done: State, end: State, uid: Uid, begun: seq<Uid>, ended: seq<Uid>, inner: set<Uid>)
    requires Ran(reg, st, done, begun, ended, {uid} + inner) && NewObjects(ended, inner, st, done)
    requires AtHome({uid} + inner, st) && uid !in inner
    requires end == done.(finished := done.finished + [uid], hooks := done.hooks + if reg.closes(uid) then [uid] else [])
    ensures Ran(reg, st, end, begun, ended + [uid], {uid} + inner)
  {
    NewObjectsConcat(ended, inner, st, done, [uid], {uid}, done);
    assert inner + {uid} == {uid} + inner;
    ClosersConcat(reg, ended, [uid]);
    ConcatAssoc(st.hooks, Closers(reg, ended), Closers(reg, [uid]));
    ConcatAssoc(st.finished, ended, [uid]);
  }

  lemma {:induction false} StepsOnce(reg: Registry, st: State, steps: seq<Step>) returns (begun: seq<Uid>, ended: seq<Uid>)
    requires RegistryOwns(reg)
    requires Distinct(StepsObjects(steps)) && AtHome(UidsOf(StepsObjects(steps)), st)
    ensures Ran(reg, st, RunSteps(reg, st, steps).st, begun, ended, UidsOf(StepsObjects(steps)))
    decreases Waiting(reg, st), StepsSize(steps), 0
  {
    if steps == [] {
      begun, ended := [], [];
    } else {
      var next := RunStep(reg, st, steps[0]).st;
      WaitingShrinks(reg, st, next);
      DistinctParts(StepObjects(steps[0]), StepsObjects(steps[1..]));
      begun, ended := StepOnce(reg, st, steps[0]);
      if RunStep(reg, st, steps[0]).Ended? {
        var b, e := StepsOnce(reg, next, steps[1..]);
        RanConcat(reg, st, next, RunSteps(reg, st, steps).st, begun, ended, UidsOf(StepObjects(steps[0])),
                  b, e, UidsOf(StepsObjects(steps[1..])));
        begun, ended := begun + b, ended + e;
      }
    }
  }

  lemma {:induction false} StepOnce(reg: Registry, st: State, step: Step) returns (begun: seq<Uid>, ended: seq<Uid>)
    requires RegistryOwns(reg)
    requires Distinct(StepObjects(step)) && AtHome(UidsOf(StepObjects(step)), st)
    ensures Ran(reg, st, RunStep(reg, st, step).st, begun, ended, UidsOf(StepObjects(step)))
    decreases Waiting(reg, st), StepSize(step), 2
  {
    match step
    case Ref(name) => begun, ended := GetOnce(reg, st, name);
    case Inline(mod) => begun, ended := InitOnce(reg, st, mod);
    case Broken => begun, ended := [], [];
  }

  /** The homes of endpoints with an index of at least `from` are untouched by blocks. */
  lemma {:induction false} EndpointsOnce(reg: Registry, st: State, endpoints: seq<Module>, from: nat) returns (begun: seq<Uid>, ended: seq<Uid>)
    requires RegistryOwns(reg)
    requires forall i :: 0 <= i < |endpoints| ==> OwnObjects(endpoints[i], Endpoint(from + i))
    ensures Ran(reg, st, InitEndpoints(reg, st, endpoints).st, begun, ended, EndpointUids(endpoints))
    decreases |endpoints|
  {
    if endpoints == [] {
      begun, ended := [], [];
    } else {
      var first, rest := UidsOf(Objects(endpoints[0])), EndpointUids(endpoints[1..]);
      var next := Init(reg, st, endpoints[0]).st;
      assert OwnObjects(endpoints[0], Endpoint(from + 0));
      forall i | 0 <= i < |endpoints[1..]| ensures OwnObjects(endpoints[1..][i], Endpoint(from + 1 + i)) {
        assert OwnObjects(endpoints[i + 1], Endpoint(from + (i + 1)));
      }
      EndpointHomes(endpoints[1..], from + 1);
      begun, ended := InitOnce(reg, st, endpoints[0]);
      if Init(reg, st, endpoints[0]).Ended? {
        var b, e := EndpointsOnce(reg, next, endpoints[1..], from + 1);
        RanConcat(reg, st, next, InitEndpoints(reg, st, endpoints).st, begun, ended, first, b, e, rest);
        begun, ended := begun + b, ended + e;
      }
    }
  }

  function EndpointUids(endpoints: seq<Module>): set<Uid> {
    if endpoints == [] then {} else UidsOf(Objects(endpoints[0])) + EndpointUids(endpoints[1..])
  }

  lemma {:induction false} EndpointHomes(endpoints: seq<Module>, from: nat)
    requires forall i :: 0 <= i < |endpoints| ==> OwnObjects(endpoints[i], Endpoint(from + i))
    ensures forall u :: u in EndpointUids(endpoints) ==> u.home.Endpoint? && from <= u.home.index
    decreases |endpoints|
  {
    if endpoints != [] {
      assert OwnObjects(endpoints[0], Endpoint(from + 0));
      forall i | 0 <= i < |endpoints[1..]| ensures OwnObjects(endpoints[1..][i], Endpoint(from + 1 + i)) {
        assert OwnObjects(endpoints[i + 1], Endpoint(from + (i + 1)));
      }
      EndpointHomes(endpoints[1..], from + 1);
    }
  }

  /** Whatever the reference graph, cycles included, and wherever the start stops: Init is called at most
      once for every module object, and the shutdown hooks are those of the closable objects whose Init
      succeeded, each once. */
  lemma {:induction false} InitAtMostOnce(reg: Registry, endpoints: seq<Module>)
    requires WellFormed(reg, endpoints)
    ensures var st := Start(reg, endpoints).st;
            NoDuplicates(st.started) && NoDuplicates(st.finished) && st.hooks == Closers(reg, st.finished)
  {
    assert forall i :: 0 <= i < |endpoints| ==> OwnObjects(endpoints[i], Endpoint(0 + i));
    var begun, ended := EndpointsOnce(reg, NOTHING, endpoints, 0);
    assert [] + begun == begun && [] + ended == ended && [] + Closers(reg, ended) == Closers(reg, ended);
  }

  // ---------------------------------------------------------------- exactly what the endpoints reach

  /** Every name in `names` is a registered block whose own references are all initialised in `st`. */
  ghost predicate Closed(reg: Registry, names: set<string>, st: State) {
    forall n :: n in names ==> n in reg.instances && Refs(reg, reg.instances[n]) <= st.initialized
  }

  lemma {:induction false} GetCloses(reg: Registry, st: State, name: string)
    requires Get(reg, st, name).Ended?
    ensures var end := Get(reg, st, name).st;
            Canonical(reg, name) in end.initialized && Closed(reg, end.initialized - st.initialized, end)
    decreases Waiting(reg, st), 0, 0
  {
    var n := Canonical(reg, name);
    if n !in st.initialized {
      var marked := st.(initialized := st.initialized + {n});
      WaitingShrinks(reg, st, marked);
      InitCloses(reg, marked, reg.instances[n]);
    }
  }

  lemma {:induction false} InitCloses(reg: Registry, st: State, mod: Module)
    requires Init(reg, st, mod).Ended?
    ensures var end := Init(reg, st, mod).st;
            Refs(reg, mod) <= end.initialized && Closed(reg, end.initialized - st.initialized, end)
    decreases Waiting(reg, st), Size(mod), 1
  {
    StepsClose(reg, st.(started := st.started + [mod.uid]), mod.steps);
  }

  lemma {:induction false} StepsClose(reg: Registry, st: State, steps: seq<Step>)
    requires RunSteps(reg, st, steps).Ended?
    ensures var end := RunSteps(reg, st, steps).st;
            StepsRefs(reg, steps) <= end.initialized && Closed(reg, end.initialized - st.initialized, end)
    decreases Waiting(reg, st), StepsSize(steps), 0
  {
    if steps != [] {
      var next := RunStep(reg, st, steps[0]).st;
      WaitingShrinks(reg, st, next);
      assert StepsSize(steps) == StepSize(steps[0]) + 1 + StepsSize(steps[1..]);
      match steps[0] {
        case Ref(name) => GetCloses(reg, st, name);
        case Inline(mod) => InitCloses(reg, st, mod);
      }
      StepsClose(reg, next, steps[1..]);
    }
  }

  /** A way from one of the names in `from` to `n` along references between blocks. */
  ghost predicate Way(reg: Registry, from: set<string>, path: seq<string>, n: string) {
    && path != [] && path[0] in from && Last(path) == n
    && forall i :: 0 <= i < |path| - 1 ==> path[i] in reg.instances && path[i + 1] in Refs(reg, reg.instances[path[i]])
  }

  ghost predicate Reaches(reg: Registry, from: set<string>, n: string) {
    exists path :: Way(reg, from, path, n)
  }

  lemma {:induction false} ReachesMore(reg: Registry, a: set<string>, b: set<string>, n: string)
    requires Reaches(reg, a, n) && a <= b
    ensures Reaches(reg, b, n)
  {
    var path :| Way(reg, a, path, n);
    assert Way(reg, b, path, n);
  }

  lemma {:induction false} GetReached(reg: Registry, st: State, name: string, n: string)
    requires Get(reg, st, name).Ended? && n in Get(reg, st, name).st.initialized - st.initialized
    ensures Reaches(reg, {Canonical(reg, name)}, n)
    decreases Waiting(reg, st), 0, 0
  {
    var c := Canonical(reg, name);
    var marked := st.(initialized := st.initialized + {c});
    WaitingShrinks(reg, st, marked);
    if n == c {
      assert Way(reg, {c}, [c], n);
    } else {
      InitReached(reg, marked, reg.instances[c], n);
      var path :| Way(reg, Refs(reg, reg.instances[c]), path, n);
      assert Way(reg, {c}, [c] + path, n);
    }
  }

  lemma {:induction false} InitReached(reg: Registry, st: State, mod: Module, n: string)
    requires Init(reg, st, mod).Ended? && n in Init(reg, st, mod).st.initialized - st.initialized
    ensures Reaches(reg, Refs(reg, mod), n)
    decreases Waiting(reg, st), Size(mod), 1
  {
    StepsReached(reg, st.(started := st.started + [mod.uid]), mod.steps, n);
  }

  lemma {:induction false} StepsReached(reg: Registry, st: State, steps: seq<Step>, n: string)
    requires RunSteps(reg, st, steps).Ended? && n in RunSteps(reg, st, steps).st.initialized - st.initialized
    ensures Reaches(reg, StepsRefs(reg, steps), n)
    decreases Waiting(reg, st), StepsSize(steps), 0
  {
    var next := RunStep(reg, st, steps[0]).st;
    WaitingShrinks(reg, st, next);
    assert StepsSize(steps) == StepSize(steps[0]) + 1 + StepsSize(steps[1..]);
    if n in next.initialized {
      match steps[0] {
        case Ref(name) => GetReached(reg, st, name, n);
        case Inline(mod) => InitReached(reg, st, mod, n);
      }
      ReachesMore(reg, StepRefs(reg, steps[0]), StepsRefs(reg, steps), n);
    } else {
      StepsReached(reg, next, steps[1..], n);
      ReachesMore(reg, StepsRefs(reg, steps[1..]), StepsRefs(reg, steps), n);
    }
  }

  function EndpointRefs(reg: Registry, endpoints: seq<Module>): set<string> {
    if endpoints == [] then {} else Refs(reg, endpoints[0]) + EndpointRefs(reg, endpoints[1..])
  }

  lemma {:induction false} EndpointsClose(reg: Registry, st: State, endpoints: seq<Module>)
    requires InitEndpoints(reg, st, endpoints).Ended?
    ensures var end := InitEndpoints(reg, st, endpoints).st;
            && st.initialized <= end.initialized
            && EndpointRefs(reg, endpoints) <= end.initialized
            && Closed(reg, end.initialized - st.initialized, end)
    ensures forall n :: n in InitEndpoints(reg, st, endpoints).st.initialized - st.initialized ==>
                          Reaches(reg, EndpointRefs(reg, endpoints), n)
    decreases |endpoints|
  {
    if endpoints != [] {
      var next := Init(reg, st, endpoints[0]).st;
      InitCloses(reg, st, endpoints[0]);
      EndpointsClose(reg, next, endpoints[1..]);
      forall n | n in InitEndpoints(reg, st, endpoints).st.initialized - st.initialized
        ensures Reaches(reg, EndpointRefs(reg, endpoints), n)
      {
        if n in next.initialized {
          InitReached(reg, st, endpoints[0], n);
          ReachesMore(reg, Refs(reg, endpoints[0]), EndpointRefs(reg, endpoints), n);
        } else {
          ReachesMore(reg, EndpointRefs(reg, endpoints[1..]), EndpointRefs(reg, endpoints), n);
        }
      }
    }
  }

  lemma {:induction false} ClosedUnderWays(reg: Registry, from: set<string>, path: seq<string>, n: string, st: State)
    requires Way(reg, from, path, n) && from <= st.initialized && Closed(reg, st.initialized, st)
    ensures n in st.initialized
    decreases |path|
  {
    if |path| > 1 {
      assert path[0 + 1] in Refs(reg, reg.instances[path[0]]);
      var rest := path[1..];
      forall i | 0 <= i < |rest| - 1 ensures rest[i] in reg.instances && rest[i + 1] in Refs(reg, reg.instances[rest[i]]) {
        assert path[i + 1 + 1] in Refs(reg, reg.instances[path[i + 1]]);
      }
      ClosedUnderWays(reg, st.initialized, rest, n, st);
    }
  }

  /** On success the initialised blocks are exactly those the endpoints reach, and that is every
      registered block. */
  lemma {:induction false} StartReachesEverything(reg: Registry, endpoints: seq<Module>)
    requires Start(reg, endpoints).Ended?
    ensures Start(reg, endpoints).st.initialized == reg.instances.Keys
    ensures forall n :: n in reg.instances <==> Reaches(reg, EndpointRefs(reg, endpoints), n)
  {
    var st := Start(reg, endpoints).st;
    EndpointsClose(reg, NOTHING, endpoints);
    assert st.initialized - {} == st.initialized;
    forall n | Reaches(reg, EndpointRefs(reg, endpoints), n) ensures n in st.initialized {
      var path :| Way(reg, EndpointRefs(reg, endpoints), path, n);
      ClosedUnderWays(reg, EndpointRefs(reg, endpoints), path, n, st);
    }
  }

  // ---------------------------------------------------------------- shutdown order

  /** The objects a module uses directly: what it creates inline and the blocks it refers to. */
  function Uses(reg: Registry, mod: Module): set<Uid> {
    StepsUse(reg, mod.steps)
  }

  function StepsUse(reg: Registry, steps: seq<Step>): set<Uid> {
    if steps == [] then {} else StepUses(reg, steps[0]) + StepsUse(reg, steps[1..])
  }

  function StepUses(reg: Registry, step: Step): set<Uid> {
    match step
    case Ref(name) => if HasInstance(reg, name) then {reg.instances[Canonical(reg, name)].uid} else {}
    case Inline(mod) => {mod.uid}
    case Broken => {}
  }

  /** The references between blocks have no cycle. */
  ghost predicate Acyclic(reg: Registry) {
    exists rank: string -> nat :: Ranks(reg, rank)
  }

  ghost predicate Ranks(reg: Registry, rank: string -> nat) {
    forall n, m :: n in reg.instances && m in Refs(reg, reg.instances[n]) ==> rank(m) < rank(n)
  }

  /** Everything the module uses finished before the module itself did. */
  ghost predicate Follows(reg: Registry, mod: Module, finished: seq<Uid>) {
    exists i :: 0 <= i < |finished| && finished[i] == mod.uid && forall u :: u in Uses(reg, mod) ==> u in finished[..i]
  }

  ghost predicate AllFollow(reg: Registry, mods: seq<Module>, finished: seq<Uid>) {
    forall m :: m in mods ==> Follows(reg, m, finished)
  }

  lemma {:induction false} FollowsLater(reg: Registry, mods: seq<Module>, a: seq<Uid>, b: seq<Uid>)
    requires AllFollow(reg, mods, a) && a <= b
    ensures AllFollow(reg, mods, b)
  {
    forall m | m in mods ensures Follows(reg, m, b) {
      var i :| 0 <= i < |a| && a[i] == m.uid && forall u :: u in Uses(reg, m) ==> u in a[..i];
      assert a[..i] == b[..i] && b[i] == m.uid;
    }
  }

  /** Between `a` and `b` every block newly initialised has finished, in order. */
  ghost predicate Progress(reg: Registry, a: State, b: State) {
    && a.initialized <= b.initialized && a.finished <= b.finished
    && forall n :: n in b.initialized && n !in a.initialized ==> InOrder(reg, b, n)
  }

  ghost predicate InOrder(reg: Registry, st: State, n: string) {
    Done(reg, st, n) && AllFollow(reg, Objects(reg.instances[n]), st.finished)
  }

  lemma {:induction false} ProgressOn(reg: Registry, a: State, b: State, c: State)
    requires Progress(reg, a, b) && Progress(reg, b, c)
    ensures Progress(reg, a, c)
  {
    forall n | n in c.initialized && n !in a.initialized ensures InOrder(reg, c, n) {
      if n in b.initialized {
        assert InOrder(reg, b, n);
        FollowsLater(reg, Objects(reg.instances[n]), b.finished, c.finished);
      }
    }
  }

  lemma {:induction false} FollowBoth(reg: Registry, x: seq<Module>, y: seq<Module>, a: seq<Uid>, b: seq<Uid>)
    requires AllFollow(reg, x, a) && AllFollow(reg, y, b) && a <= b
    ensures AllFollow(reg, x + y, b)
  {
    FollowsLater(reg, x, a, b);
  }

  ghost predicate AllIn(us: set<Uid>, finished: seq<Uid>) {
    forall u :: u in us ==> u in finished
  }

  /** Blocks whose Init is still running lie above every block in `refs`. */
  ghost predicate RunningAbove(reg: Registry, st: State, rank: string -> nat, refs: set<string>) {
    forall g, m :: g in st.initialized && m in refs && !Done(reg, st, g) ==> rank(m) < rank(g)
  }

  ghost predicate Done(reg: Registry, st: State, n: string) {
    n in reg.instances && reg.instances[n].uid in st.finished
  }

  lemma {:induction false} GetOrdered(reg: Registry, st: State, name: string, rank: string -> nat)
    requires Ranks(reg, rank) && Get(reg, st, name).Ended? && RunningAbove(reg, st, rank, {Canonical(reg, name)})
    ensures Progress(reg, st, Get(reg, st, name).st) && Done(reg, Get(reg, st, name).st, Canonical(reg, name))
    decreases Waiting(reg, st), 0, 0
  {
    var n := Canonical(reg, name);
    if n !in st.initialized {
      var marked := st.(initialized := st.initialized + {n});
      WaitingShrinks(reg, st, marked);
      InitOrdered(reg, marked, reg.instances[n], rank);
    } else {
      assert Done(reg, st, n);
    }
  }

  lemma {:induction false} InitOrdered(reg: Registry, st: State, mod: Module, rank: string -> nat)
    requires Ranks(reg, rank) && Init(reg, st, mod).Ended? && RunningAbove(reg, st, rank, Refs(reg, mod))
    ensures var end := Init(reg, st, mod).st;
            && Progress(reg, st, end) && mod.uid in end.finished
            && AllFollow(reg, Objects(mod), end.finished)
    decreases Waiting(reg, st), Size(mod), 1
  {
    var marked := st.(started := st.started + [mod.uid]);
    StepsOrdered(reg, marked, mod.steps, rank);
    var done := RunSteps(reg, marked, mod.steps).st;
    var end := Init(reg, st, mod).st;
    assert Progress(reg, st, marked);
    ProgressOn(reg, st, marked, done);
    ProgressOn(reg, st, done, end);
    OwnFollows(reg, mod, done.finished, end.finished);
  }

  lemma {:induction false} OwnFollows(reg: Registry, mod: Module, done: seq<Uid>, end: seq<Uid>)
    requires AllFollow(reg, StepsObjects(mod.steps), done) && AllIn(Uses(reg, mod), done) && end == done + [mod.uid]
    ensures AllFollow(reg, Objects(mod), end) && mod.uid in end
  {
    var i := |done|;
    assert end[i] == mod.uid && end[..i] == done;
    assert Follows(reg, mod, end);
    FollowsLater(reg, StepsObjects(mod.steps), done, end);
  }

  lemma {:induction false} AboveLater(reg: Registry, st: State, next: State, rank: string -> nat, refs: set<string>, fewer: set<string>)
    requires RunningAbove(reg, st, rank, refs) && Progress(reg, st, next) && fewer <= refs
    ensures RunningAbove(reg, next, rank, fewer)
  {
    forall g, m | g in next.initialized && m in fewer && !Done(reg, next, g) ensures rank(m) < rank(g) {
      assert g in st.initialized && !Done(reg, st, g);
    }
  }

  lemma {:induction false} StepsOrdered(reg: Registry, st: State, steps: seq<Step>, rank: string -> nat)
    requires Ranks(reg, rank) && RunSteps(reg, st, steps).Ended? && RunningAbove(reg, st, rank, StepsRefs(reg, steps))
    ensures var end := RunSteps(reg, st, steps).st;
            && Progress(reg, st, end) && AllFollow(reg, StepsObjects(steps), end.finished)
            && AllIn(StepsUse(reg, steps), end.finished)
    decreases Waiting(reg, st), StepsSize(steps), 0
  {
    if steps != [] {
      var next := RunStep(reg, st, steps[0]).st;
      var end := RunSteps(reg, st, steps).st;
      WaitingShrinks(reg, st, next);
      StepOrdered(reg, st, steps[0], rank);
      AboveLater(reg, st, next, rank, StepsRefs(reg, steps), StepsRefs(reg, steps[1..]));
      StepsOrdered(reg, next, steps[1..], rank);
      ProgressOn(reg, st, next, end);
      FollowBoth(reg, StepObjects(steps[0]), StepsObjects(steps[1..]), next.finished, end.finished);
    }
  }

  lemma {:induction false} StepOrdered(reg: Registry, st: State, step: Step, rank: string -> nat)
    requires Ranks(reg, rank) && RunStep(reg, st, step).Ended? && RunningAbove(reg, st, rank, StepRefs(reg, step))
    ensures var end := RunStep(reg, st, step).st;
            && Progress(reg, st, end) && AllFollow(reg, StepObjects(step), end.finished)
            && AllIn(StepUses(reg, step), end.finished)
    decreases Waiting(reg, st), StepSize(step), 2
  {
    match step
    case Ref(name) => GetOrdered(reg, st, name, rank);
    case Inline(mod) => InitOrdered(reg, st, mod, rank);
  }

  lemma {:induction false} EndpointsOrdered(reg: Registry, st: State, endpoints: seq<Module>, rank: string -> nat)
    requires Ranks(reg, rank) && InitEndpoints(reg, st, endpoints).Ended?
    requires forall g :: g in st.initialized ==> Done(reg, st, g)
    ensures var end := InitEndpoints(reg, st, endpoints).st;
            Progress(reg, st, end) && forall i :: 0 <= i < |endpoints| ==> AllFollow(reg, Objects(endpoints[i]), end.finished)
    decreases |endpoints|
  {
    if endpoints != [] {
      var next := Init(reg, st, endpoints[0]).st;
      var end := InitEndpoints(reg, st, endpoints).st;
      InitOrdered(reg, st, endpoints[0], rank);
      EndpointsOrdered(reg, next, endpoints[1..], rank);
      ProgressOn(reg, st, next, end);
      FollowsLater(reg, Objects(endpoints[0]), next.finished, end.finished);
      assert forall i :: 0 < i < |endpoints| ==> endpoints[i] == endpoints[1..][i - 1];
    }
  }

  /** The object is a registered block, an endpoint, or inline inside one. */
  ghost predicate IsObject(reg: Registry, endpoints: seq<Module>, mod: Module) {
    || (exists n :: n in reg.instances && mod in Objects(reg.instances[n]))
    || (exists i :: 0 <= i < |endpoints| && mod in Objects(endpoints[i]))
  }

  ghost predicate AllOrdered(reg: Registry, endpoints: seq<Module>, st: State) {
    forall mod :: IsObject(reg, endpoints, mod) ==> Follows(reg, mod, st.finished)
  }

  lemma {:induction false} AcyclicOrders(reg: Registry, endpoints: seq<Module>)
    requires Start(reg, endpoints).Ended? && Acyclic(reg)
    ensures AllOrdered(reg, endpoints, Start(reg, endpoints).st)
  {
    var rank: string -> nat :| Ranks(reg, rank);
    EndpointsOrdered(reg, NOTHING, endpoints, rank);
  }

  function IndexOf(s: seq<Uid>, u: Uid): (i: nat)
    requires u in s
    ensures i < |s| && s[i] == u
  {
    if s[0] == u then 0 else 1 + IndexOf(s[1..], u)
  }

  lemma {:induction false} UsedEarlier(reg: Registry, mod: Module, finished: seq<Uid>, u: Uid)
    requires NoDuplicates(finished) && Follows(reg, mod, finished) && u in Uses(reg, mod)
    ensures mod.uid in finished && u in finished && IndexOf(finished, u) < IndexOf(finished, mod.uid)
  {
    var i :| 0 <= i < |finished| && finished[i] == mod.uid && forall u :: u in Uses(reg, mod) ==> u in finished[..i];
    var j :| 0 <= j < |finished[..i]| && finished[..i][j] == u;
    assert finished[j] == u;
    assert IndexOf(finished, mod.uid) == i && IndexOf(finished, u) == j;
  }

  lemma {:induction false} RefsEarlier(reg: Registry, mod: Module, finished: seq<Uid>, m: string)
    requires NoDuplicates(finished) && AllFollow(reg, Objects(mod), finished)
    requires m in Refs(reg, mod) && m in reg.instances
    ensures mod.uid in finished && reg.instances[m].uid in finished
    ensures IndexOf(finished, reg.instances[m].uid) < IndexOf(finished, mod.uid)
    decreases mod
  {
    var step := FindRef(reg, mod.steps, m);
    assert mod in Objects(mod);
    match step
    case Ref(name) =>
      UsedEarlier(reg, mod, finished, reg.instances[m].uid);
    case Inline(inner) =>
      RefsEarlier(reg, inner, finished, m);
      UsedEarlier(reg, mod, finished, inner.uid);
  }

  lemma {:induction false} FindRef(reg: Registry, steps: seq<Step>, m: string) returns (step: Step)
    requires m in StepsRefs(reg, steps)
    ensures step in steps && m in StepRefs(reg, step)
    ensures StepUses(reg, step) <= StepsUse(reg, steps)
    ensures forall x :: x in StepObjects(step) ==> x in StepsObjects(steps)
  {
    if m in StepRefs(reg, steps[0]) {
      step := steps[0];
    } else {
      step := FindRef(reg, steps[1..], m);
    }
  }

  lemma {:induction false} OrderedIsAcyclic(reg: Registry, endpoints: seq<Module>)
    requires WellFormed(reg, endpoints) && Start(reg, endpoints).Ended?
    requires AllOrdered(reg, endpoints, Start(reg, endpoints).st)
    ensures Acyclic(reg)
  {
    var st := Start(reg, endpoints).st;
    var rank: string -> nat :=
      n => if n in reg.instances && reg.instances[n].uid in st.finished then IndexOf(st.finished, reg.instances[n].uid) else 0;
    InitAtMostOnce(reg, endpoints);
    StartReachesEverything(reg, endpoints);
    EndpointsClose(reg, NOTHING, endpoints);
    forall n, m | n in reg.instances && m in Refs(reg, reg.instances[n]) ensures rank(m) < rank(n) {
      forall x | x in Objects(reg.instances[n]) ensures Follows(reg, x, st.finished) {
        assert IsObject(reg, endpoints, x);
      }
      assert n in st.initialized - {} && m in st.initialized;
      RefsEarlier(reg, reg.instances[n], st.finished, m);
    }
    assert Ranks(reg, rank);
  }

  /** After a successful start, every module object finished its Init after everything it uses if and
      only if the references between blocks have no cycle. */
  lemma {:induction false} OrderedIffAcyclic(reg: Registry, endpoints: seq<Module>)
    requires WellFormed(reg, endpoints) && Start(reg, endpoints).Ended?
    ensures AllOrdered(reg, endpoints, Start(reg, endpoints).st) <==> Acyclic(reg)
  {
    if Acyclic(reg) {
      AcyclicOrders(reg, endpoints);
    } else if AllOrdered(reg, endpoints, Start(reg, endpoints).st) {
      OrderedIsAcyclic(reg, endpoints);
    }
  }

  ghost predicate Before<T>(s: seq<T>, a: T, b: T) {
    exists i, j :: 0 <= i < j < |s| && s[i] == a && s[j] == b
  }

  lemma {:induction false} ClosersMember(reg: Registry, s: seq<Uid>, u: Uid)
    ensures u in Closers(reg, s) <==> u in s && reg.closes(u)
  {
    if s != [] {
      ClosersMember(reg, s[1..], u);
    }
  }

  lemma {:induction false} ClosersDistinct(reg: Registry, s: seq<Uid>)
    requires NoDuplicates(s)
    ensures NoDuplicates(Closers(reg, s))
  {
    if s != [] {
      ClosersDistinct(reg, s[1..]);
      ClosersMember(reg, s[1..], s[0]);
      var rest := Closers(reg, s[1..]);
      forall k | 0 <= k < |rest| ensures rest[k] != s[0] {
        assert rest[k] in rest;
      }
    }
  }

  lemma {:induction false} ClosersBefore(reg: Registry, s: seq<Uid>, a: Uid, b: Uid)
    requires Before(s, a, b) && reg.closes(a) && reg.closes(b)
    ensures Before(Closers(reg, s), a, b)
  {
    var i, j :| 0 <= i < j < |s| && s[i] == a && s[j] == b;
    var x, y := s[..j], s[j..];
    assert s == x + y && x[i] == a && y[0] == b;
    ClosersConcat(reg, x, y);
    ClosersMember(reg, x, a);
    ClosersMember(reg, y, b);
    var cx, cy := Closers(reg, x), Closers(reg, y);
    var k :| 0 <= k < |cx| && cx[k] == a;
    var m :| 0 <= m < |cy| && cy[m] == b;
    assert (cx + cy)[k] == a && (cx + cy)[|cx| + m] == b;
  }

  lemma {:induction false} ReversedAt<T>(s: seq<T>, k: nat)
    requires k < |s|
    ensures |Reversed(s)| == |s| && Reversed(s)[|s| - 1 - k] == s[k]
  {
    if |s| > 1 {
      ReversedAt(s[1..], if k == 0 then 0 else k - 1);
    }
  }

  lemma {:induction false} ReversedOrder<T>(s: seq<T>, a: T, b: T)
    ensures Before(s, a, b) ==> Before(Reversed(s), b, a)
  {
    if i, j :| 0 <= i < j < |s| && s[i] == a && s[j] == b {
      ReversedAt(s, i);
      ReversedAt(s, j);
    }
  }

  lemma {:induction false} ReversedSame<T>(s: seq<T>)
    ensures NoDuplicates(s) ==> NoDuplicates(Reversed(s))
    ensures forall x :: x in Reversed(s) <==> x in s
  {
    var r := Reversed(s);
    assert s == [] ==> r == [];
    forall k | 0 <= k < |s| ensures |r| == |s| && r[|s| - 1 - k] == s[k] {
      ReversedAt(s, k);
    }
    assert forall k :: 0 <= k < |r| ==> |s| - 1 - (|s| - 1 - k) == k && r[k] == s[|s| - 1 - k];
  }

  /** Each module in the chain uses the next one. */
  ghost predicate UseChain(reg: Registry, endpoints: seq<Module>, chain: seq<Module>) {
    && |chain| > 1
    && (forall i :: 0 <= i < |chain| ==> IsObject(reg, endpoints, chain[i]))
    && (forall i :: 0 <= i < |chain| - 1 ==> chain[i + 1].uid in Uses(reg, chain[i]))
  }

  lemma {:induction false} ChainEarlier(reg: Registry, endpoints: seq<Module>, chain: seq<Module>, st: State)
    requires NoDuplicates(st.finished) && AllOrdered(reg, endpoints, st) && UseChain(reg, endpoints, chain)
    ensures Before(st.finished, Last(chain).uid, chain[0].uid)
    decreases |chain|
  {
    assert Follows(reg, chain[0], st.finished);
    assert chain[0 + 1].uid in Uses(reg, chain[0]);
    UsedEarlier(reg, chain[0], st.finished, chain[1].uid);
    var i, j := IndexOf(st.finished, chain[1].uid), IndexOf(st.finished, chain[0].uid);
    if |chain| > 2 {
      var rest := chain[1..];
      forall k | 0 <= k < |rest| - 1 ensures rest[k + 1].uid in Uses(reg, rest[k]) {
        assert chain[k + 1 + 1].uid in Uses(reg, chain[k + 1]);
      }
      ChainEarlier(reg, endpoints, rest, st);
      var x, y :| 0 <= x < y < |st.finished| && st.finished[x] == Last(rest).uid && st.finished[y] == chain[1].uid;
      assert y == i;
      assert st.finished[x] == Last(chain).uid && st.finished[j] == chain[0].uid;
    }
  }

  /** Wherever the start stops, shutdown closes exactly the closable objects whose Init succeeded, each once. */
  lemma {:induction false} ShutdownClosesFinished(reg: Registry, endpoints: seq<Module>)
    requires WellFormed(reg, endpoints)
    ensures var st := Start(reg, endpoints).st;
            && NoDuplicates(ShutdownOrder(st))
            && forall u :: u in ShutdownOrder(st) <==> u in st.finished && reg.closes(u)
  {
    var st := Start(reg, endpoints).st;
    InitAtMostOnce(reg, endpoints);
    ClosersDistinct(reg, st.finished);
    ReversedSame(st.hooks);
    forall u ensures u in ShutdownOrder(st) <==> u in st.finished && reg.closes(u) {
      ClosersMember(reg, st.finished, u);
    }
  }

  /** With acyclic references, shutdown after a successful start closes every closable module object
      exactly once, and closes it before anything it uses, directly or through other modules. */
  lemma {:induction false} ShutdownBeforeDependencies(reg: Registry, endpoints: seq<Module>)
    requires WellFormed(reg, endpoints) && Start(reg, endpoints).Ended? && Acyclic(reg)
    ensures NoDuplicates(ShutdownOrder(Start(reg, endpoints).st))
    ensures forall mod :: IsObject(reg, endpoints, mod) && reg.closes(mod.uid) ==> mod.uid in ShutdownOrder(Start(reg, endpoints).st)
    ensures forall chain: seq<Module> :: UseChain(reg, endpoints, chain) && reg.closes(chain[0].uid) && reg.closes(Last(chain).uid) ==>
              Before(ShutdownOrder(Start(reg, endpoints).st), chain[0].uid, Last(chain).uid)
  {
    var st := Start(reg, endpoints).st;
    InitAtMostOnce(reg, endpoints);
    AcyclicOrders(reg, endpoints);
    ShutdownClosesFinished(reg, endpoints);
    forall mod | IsObject(reg, endpoints, mod) && reg.closes(mod.uid) ensures mod.uid in ShutdownOrder(st) {
      assert Follows(reg, mod, st.finished);
    }
    forall chain: seq<Module> | UseChain(reg, endpoints, chain) && reg.closes(chain[0].uid) && reg.closes(Last(chain).uid)
      ensures Before(ShutdownOrder(st), chain[0].uid, Last(chain).uid)
    {
      ChainEarlier(reg, endpoints, chain, st);
      ClosersBefore(reg, st.finished, Last(chain).uid, chain[0].uid);
      ReversedOrder(st.hooks, Last(chain).uid, chain[0].uid);
    }
  }
}
