/** Per-recipient statuses: pipelines nested to any depth rewrite recipients on the way in, noting each
    rewrite in one map shared by the message, and statuses are translated back on the way out. */
module Statuses {
  import opened Common

  /** A rewritten recipient and where its block delivers it. */
  datatype Hop = Hop(to: string, targets: seq<nat>)

  /** A pipeline: what a recipient becomes, and the pipelines among its targets. Target `i` is the nested
      pipeline `i`, or a plain target if there is no such pipeline. */
  datatype Pipe = Pipe(expand: string -> seq<Hop>, nested: seq<Pipe>)

  /** The addresses a recipient passes through below a pipeline, up to each plain target. */
  function Tails(pipe: Pipe, to: string): seq<seq<string>>
    decreases pipe, 3, 0
  {
    TailsOfHops(pipe, pipe.expand(to))
  }

  function TailsOfHops(pipe: Pipe, hops: seq<Hop>): seq<seq<string>>
    decreases pipe, 2, |hops|
  {
    if hops == [] then [] else TailsOfTargets(pipe, hops[0].to, hops[0].targets) + TailsOfHops(pipe, hops[1..])
  }

  function TailsOfTargets(pipe: Pipe, to: string, targets: seq<nat>): seq<seq<string>>
    decreases pipe, 1, |targets|
  {
    if targets == [] then [] else TailsOfTarget(pipe, to, targets[0]) + TailsOfTargets(pipe, to, targets[1..])
  }

  function TailsOfTarget(pipe: Pipe, to: string, target: nat): seq<seq<string>>
    decreases pipe, 0, 0
  {
    if target < |pipe.nested| then From([to], Tails(pipe.nested[target], to)) else [[to]]
  }

  /** The rewrites that presenting a recipient can lead to: the pairs of an address presented to some
      pipeline and a different address it becomes there. */
  function Pairs(pipe: Pipe, to: string): set<(string, string)>
    decreases pipe, 3, 0
  {
    PairsOfHops(pipe, to, pipe.expand(to))
  }

  function PairsOfHops(pipe: Pipe, from: string, hops: seq<Hop>): set<(string, string)>
    decreases pipe, 2, |hops|
  {
    if hops == [] then {}
    else Pair(from, hops[0].to) + PairsOfTargets(pipe, hops[0].to, hops[0].targets) + PairsOfHops(pipe, from, hops[1..])
  }

  function Pair(from: string, to: string): set<(string, string)> {
    if from != to then {(from, to)} else {}
  }

  function PairsOfTargets(pipe: Pipe, to: string, targets: seq<nat>): set<(string, string)>
    decreases pipe, 1, |targets|
  {
    if targets == [] then {} else PairsOfTarget(pipe, to, targets[0]) + PairsOfTargets(pipe, to, targets[1..])
  }

  function PairsOfTarget(pipe: Pipe, to: string, target: nat): set<(string, string)>
    decreases pipe, 0, 0
  {
    if target < |pipe.nested| then Pairs(pipe.nested[target], to) else {}
  }

  function AllPairs(pipe: Pipe, clients: seq<string>): set<(string, string)> {
    if clients == [] then {} else AllPairs(pipe, Front(clients)) + Pairs(pipe, Last(clients))
  }

  /** The map after a recipient was presented and nothing refused it: a rewrite noted later replaces one noted
      earlier with the same result. */
  function Recorded(pipe: Pipe, original: map<string, string>, to: string): map<string, string>
    decreases pipe, 3, 0
  {
    RecordedByHops(pipe, original, to, pipe.expand(to))
  }

  function RecordedByHops(pipe: Pipe, original: map<string, string>, from: string, hops: seq<Hop>): map<string, string>
    decreases pipe, 2, |hops|
  {
    if hops == [] then original
    else
      var noted := WithNote(original, from, hops[0].to);
      RecordedByHops(pipe, RecordedByTargets(pipe, noted, hops[0].to, hops[0].targets), from, hops[1..])
  }

  function WithNote(original: map<string, string>, from: string, to: string): map<string, string> {
    if from != to then original[to := from] else original
  }

  function RecordedByTargets(pipe: Pipe, original: map<string, string>, to: string, targets: seq<nat>): map<string, string>
    decreases pipe, 1, |targets|
  {
    if targets == [] then original
    else RecordedByTargets(pipe, RecordedByTarget(pipe, original, to, targets[0]), to, targets[1..])
  }

  function RecordedByTarget(pipe: Pipe, original: map<string, string>, to: string, target: nat): map<string, string>
    decreases pipe, 0, 0
  {
    if target < |pipe.nested| then Recorded(pipe.nested[target], original, to) else original
  }

  function RecordedAll(pipe: Pipe, clients: seq<string>): map<string, string> {
    if clients == [] then map[] else Recorded(pipe, RecordedAll(pipe, Front(clients)), Last(clients))
  }

  /** Every tail, with the same start. */
  function From(path: seq<string>, tails: seq<seq<string>>): seq<seq<string>> {
    seq(|tails|, i requires 0 <= i < |tails| => path + tails[i])
  }

  /** Of the chains to come, the next ones are here. */
  lemma {:induction false} FromNext(done: seq<seq<string>>, path: seq<string>, here: seq<seq<string>>, rest: seq<seq<string>>)
    ensures done + From(path, here + rest) == (done + From(path, here)) + From(path, rest)
  {
    ConcatAssoc(done, From(path, here), From(path, rest));
  }

  lemma {:induction false} FromTwice(path: seq<string>, more: seq<string>, tails: seq<seq<string>>)
    ensures From(path, From(more, tails)) == From(path + more, tails)
  {
    forall i | 0 <= i < |tails| ensures path + (more + tails[i]) == (path + more) + tails[i] {
      ConcatAssoc(path, more, tails[i]);
    }
  }

  /** The first rewrite of the recipient is recorded, whether or not it was then refused. */
  ghost predicate FirstNoted(pipe: Pipe, to: string, rewrites: set<(string, string)>) {
    pipe.expand(to) != [] ==> Pair(to, pipe.expand(to)[0].to) <= rewrites
  }

  /** The chains of all recipients, if none is refused. */
  function AllChains(pipe: Pipe, clients: seq<string>): seq<seq<string>> {
    if clients == [] then [] else AllChains(pipe, Front(clients)) + From([Last(clients)], Tails(pipe, Last(clients)))
  }

  // ---------------------------------------------------------------- the way in

  /** Each step of the chain keeps the address or is a recorded rewrite. */
  ghost predicate Linked(chain: seq<string>, rewrites: set<(string, string)>) {
    forall i :: 0 <= i < |chain| - 1 ==> chain[i] == chain[i + 1] || (chain[i], chain[i + 1]) in rewrites
  }

  /** The map knows of every recorded rewrite, and of nothing else; of several with one result, it has one. */
  ghost predicate Noted(original: map<string, string>, rewrites: set<(string, string)>) {
    && (forall to :: to in original ==> (original[to], to) in rewrites)
    && (forall r :: r in rewrites ==> r.0 != r.1 && r.1 in original)
  }

  ghost predicate AllLinked(chains: seq<seq<string>>, rewrites: set<(string, string)>) {
    forall i :: 0 <= i < |chains| ==> |chains[i]| >= 2 && Linked(chains[i], rewrites)
  }

  /** Chains are only added, and the new ones go on from `path`. */
  ghost predicate Longer(before: seq<seq<string>>, after: seq<seq<string>>, path: seq<string>) {
    before <= after && forall i :: |before| <= i < |after| ==> path <= after[i]
  }

  lemma {:induction false} LinkedMore(chain: seq<string>, to: string, rewrites: set<(string, string)>)
    requires chain != [] && Linked(chain, rewrites) && (Last(chain) == to || (Last(chain), to) in rewrites)
    ensures Linked(chain + [to], rewrites)
  {
    var longer := chain + [to];
    forall i | 0 <= i < |longer| - 1 ensures longer[i] == longer[i + 1] || (longer[i], longer[i + 1]) in rewrites {
      assert i < |chain| - 1 ==> longer[i] == chain[i] && longer[i + 1] == chain[i + 1];
    }
  }

  /** What belongs to a message. `rewrites` are the pairs recorded, `chains` the addresses that plain
      targets accepted, each with the addresses it came from. */
  class Message {
    var originalRcpts: map<string, string>
    ghost var rewrites: set<(string, string)>
    ghost var chains: seq<seq<string>>

    constructor ()
      ensures Valid() && originalRcpts == map[] && rewrites == {} && chains == []
    {
      originalRcpts, rewrites, chains := map[], {}, [];
    }

    ghost predicate Valid()
      reads this
    {
      Noted(originalRcpts, rewrites) && AllLinked(chains, rewrites)
    }

    method Note(presented: string, to: string)
      requires Valid()
      modifies this
      ensures Valid() && chains == old(chains)
      ensures rewrites == old(rewrites) + Pair(presented, to) && originalRcpts == WithNote(old(originalRcpts), presented, to)
    {
      if presented != to {
        originalRcpts := originalRcpts[to := presented];
        rewrites := rewrites + {(presented, to)};
      }
    }
  }

  /** Presents a recipient to a pipeline. `path` is how the recipient came here. Any target may refuse;
      the rest is then not tried. */
  method AddRcpt(pipe: Pipe, message: Message, to: string, ghost path: seq<string>) returns (refused: bool)
    requires message.Valid() && path != [] && Last(path) == to && Linked(path, message.rewrites)
    modifies message
    ensures message.Valid() && Longer(old(message.chains), message.chains, path)
    ensures old(message.rewrites) <= message.rewrites <= old(message.rewrites) + Pairs(pipe, to)
    ensures !refused ==> message.chains == old(message.chains) + From(path, Tails(pipe, to))
    ensures !refused ==> message.originalRcpts == Recorded(pipe, old(message.originalRcpts), to)
    ensures FirstNoted(pipe, to, message.rewrites)
    decreases pipe, 3
  {
    var hops := pipe.expand(to);
    var i := 0;
    ghost var before, was := message.chains, message.originalRcpts;
    refused := false;
    assert hops[0..] == hops;
    while i < |hops| && !refused
      invariant 0 <= i <= |hops| && message.Valid() && Longer(before, message.chains, path)
      invariant old(message.rewrites) <= message.rewrites
      invariant message.rewrites + PairsOfHops(pipe, to, hops[i..]) <= old(message.rewrites) + Pairs(pipe, to)
      invariant !refused ==> message.chains + From(path, TailsOfHops(pipe, hops[i..])) == before + From(path, Tails(pipe, to))
      invariant !refused ==> RecordedByHops(pipe, message.originalRcpts, to, hops[i..]) == Recorded(pipe, was, to)
      invariant if i == 0 then !refused else FirstNoted(pipe, to, message.rewrites)
    {
      var hop := hops[i];
      assert hops[i..][0] == hop && hops[i..][1..] == hops[i + 1..];
      FromNext(message.chains, path, TailsOfTargets(pipe, hop.to, hop.targets), TailsOfHops(pipe, hops[i + 1..]));
      refused := TakeHop(pipe, message, to, hop, path);
      i := i + 1;
    }
    assert !refused ==> From(path, TailsOfHops(pipe, hops[i..])) == [];
  }

  method TakeHop(pipe: Pipe, message: Message, from: string, hop: Hop, ghost path: seq<string>) returns (refused: bool)
    requires message.Valid() && path != [] && Last(path) == from && Linked(path, message.rewrites)
    modifies message
    ensures message.Valid() && Longer(old(message.chains), message.chains, path)
    ensures old(message.rewrites) <= message.rewrites <= old(message.rewrites) + Pair(from, hop.to) + PairsOfTargets(pipe, hop.to, hop.targets)
    ensures !refused ==> message.chains == old(message.chains) + From(path, TailsOfTargets(pipe, hop.to, hop.targets))
    ensures !refused ==> message.originalRcpts == RecordedByTargets(pipe, WithNote(old(message.originalRcpts), from, hop.to), hop.to, hop.targets)
    ensures Pair(from, hop.to) <= message.rewrites
    decreases pipe, 2
  {
    message.Note(from, hop.to);
    LinkedMore(path, hop.to, message.rewrites);
    refused := HandOver(pipe, message, hop, path);
  }

  method HandOver(pipe: Pipe, message: Message, hop: Hop, ghost path: seq<string>) returns (refused: bool)
    requires message.Valid() && path != [] && Linked(path + [hop.to], message.rewrites)
    modifies message
    ensures message.Valid() && Longer(old(message.chains), message.chains, path)
    ensures old(message.rewrites) <= message.rewrites <= old(message.rewrites) + PairsOfTargets(pipe, hop.to, hop.targets)
    ensures !refused ==> message.chains == old(message.chains) + From(path, TailsOfTargets(pipe, hop.to, hop.targets))
    ensures !refused ==> message.originalRcpts == RecordedByTargets(pipe, old(message.originalRcpts), hop.to, hop.targets)
    decreases pipe, 1
  {
    var k := 0;
    ghost var before, was := message.chains, message.originalRcpts;
    refused := false;
    assert hop.targets[0..] == hop.targets;
    while k < |hop.targets| && !refused
      invariant 0 <= k <= |hop.targets| && message.Valid() && Longer(before, message.chains, path)
      invariant old(message.rewrites) <= message.rewrites
      invariant message.rewrites + PairsOfTargets(pipe, hop.to, hop.targets[k..])
             <= old(message.rewrites) + PairsOfTargets(pipe, hop.to, hop.targets)
      invariant !refused ==>
                  message.chains + From(path, TailsOfTargets(pipe, hop.to, hop.targets[k..])) == before + From(path, TailsOfTargets(pipe, hop.to, hop.targets))
      invariant !refused ==> RecordedByTargets(pipe, message.originalRcpts, hop.to, hop.targets[k..]) == RecordedByTargets(pipe, was, hop.to, hop.targets)
    {
      var target := hop.targets[k];
      assert hop.targets[k..][0] == target && hop.targets[k..][1..] == hop.targets[k + 1..];
      FromNext(message.chains, path, TailsOfTarget(pipe, hop.to, target), TailsOfTargets(pipe, hop.to, hop.targets[k + 1..]));
      refused := GiveTo(pipe, message, target, hop.to, path);
      k := k + 1;
    }
    assert !refused ==> From(path, TailsOfTargets(pipe, hop.to, hop.targets[k..])) == [];
  }

  method GiveTo(pipe: Pipe, message: Message, target: nat, to: string, ghost path: seq<string>) returns (refused: bool)
    requires message.Valid() && path != [] && Linked(path + [to], message.rewrites)
    modifies message
    ensures message.Valid() && Longer(old(message.chains), message.chains, path)
    ensures old(message.rewrites) <= message.rewrites <= old(message.rewrites) + PairsOfTarget(pipe, to, target)
    ensures !refused ==> message.chains == old(message.chains) + From(path, TailsOfTarget(pipe, to, target))
    ensures !refused ==> message.originalRcpts == RecordedByTarget(pipe, old(message.originalRcpts), to, target)
    decreases pipe, 0
  {
    if target < |pipe.nested| {
      FromTwice(path, [to], Tails(pipe.nested[target], to));
      refused := AddRcpt(pipe.nested[target], message, to, path + [to]);
    } else {
      refused := *;
      if !refused {
        assert From(path, [[to]]) == [path + [to]];
        message.chains := message.chains + [path + [to]];
      }
    }
  }

  // ---------------------------------------------------------------- the way out

  /** Who gets a status: the client, or one pipeline's wrapper around the next outer collector. */
  datatype Collector = Client | Wrapped(outer: Collector)

  function Translate(original: map<string, string>, rcpt: string): string {
    if rcpt in original then original[rcpt] else rcpt
  }

  /** The address under which the client learns of a status set here. */
  function SetStatus(collector: Collector, original: map<string, string>, rcpt: string): string {
    match collector
    case Client => rcpt
    case Wrapped(outer) => SetStatus(outer, original, Translate(original, rcpt))
  }

  /** The collector that a target under this many pipelines is given. */
  function Nested(depth: nat): Collector {
    if depth == 0 then Client else Wrapped(Nested(depth - 1))
  }

  /** No address is the result of rewriting two different ones. */
  ghost predicate OneSource(rewrites: set<(string, string)>) {
    forall r, s :: r in rewrites && s in rewrites && r.1 == s.1 ==> r.0 == s.0
  }

  ghost predicate IsResult(to: string, rewrites: set<(string, string)>) {
    exists r :: r in rewrites && r.1 == to
  }

  lemma {:induction false} OneMore(depth: nat, original: map<string, string>, rcpt: string)
    ensures SetStatus(Nested(depth + 1), original, rcpt) == Translate(original, SetStatus(Nested(depth), original, rcpt))
  {
    if depth > 0 {
      OneMore(depth - 1, original, Translate(original, rcpt));
    }
  }

  /** A status for the address at any point of a chain, set with the collector of that depth, reaches the
      client under the address it presented. */
  lemma {:induction false} StatusReachesClient(original: map<string, string>, rewrites: set<(string, string)>,
                                               chain: seq<string>, k: nat)
    requires Noted(original, rewrites) && OneSource(rewrites)
    requires k < |chain| && Linked(chain, rewrites) && !IsResult(chain[0], rewrites)
    ensures SetStatus(Nested(k), original, chain[k]) == chain[0]
    decreases k
  {
    if k > 0 {
      StatusReachesClient(original, rewrites, chain, k - 1);
      assert chain[k - 1] == chain[k] || (chain[k - 1], chain[k]) in rewrites;
      if (chain[k - 1], chain[k]) in rewrites {
        assert (original[chain[k]], chain[k]) in rewrites;
        assert Translate(original, chain[k]) == chain[k - 1];
      } else {
        OneMore(k - 1, original, chain[k]);
        assert chain[0] !in original;
      }
    }
  }

  /** The same for a whole message: whatever the targets and pipelines on the way report. */
  lemma {:induction false} StatusesReachClients(original: map<string, string>, rewrites: set<(string, string)>, chains: seq<seq<string>>)
    requires Noted(original, rewrites) && AllLinked(chains, rewrites) && OneSource(rewrites)
    requires forall i :: 0 <= i < |chains| ==> !IsResult(chains[i][0], rewrites)
    ensures AllReach(original, chains)
  {
    forall i, k | 0 <= i < |chains| && 0 <= k < |chains[i]|
      ensures SetStatus(Nested(k), original, chains[i][k]) == chains[i][0]
    {
      StatusReachesClient(original, rewrites, chains[i], k);
    }
  }

  /** A client presents its recipients one after the other to the outermost pipeline. If no two addresses
      can be rewritten to one, and none of the client's is the result of a rewrite, then every status set
      on the way or at a target reaches the client under the address it presented. */
  method PresentAll(pipe: Pipe, clients: seq<string>) returns (message: Message, refused: seq<bool>)
    ensures message.Valid() && fresh(message) && |refused| == |clients|
    ensures forall i :: 0 <= i < |clients| && !refused[i] ==> Followed(pipe, clients[i], message.chains)
    ensures true !in refused ==> message.originalRcpts == RecordedAll(pipe, clients) && message.chains == AllChains(pipe, clients)
    ensures message.rewrites <= AllPairs(pipe, clients) && forall i :: 0 <= i < |clients| ==> FirstNoted(pipe, clients[i], message.rewrites)
    ensures OneSource(AllPairs(pipe, clients)) && (forall c :: c in clients ==> !IsResult(c, AllPairs(pipe, clients))) ==>
              AllReach(message.originalRcpts, message.chains)
  {
    message := new Message();
    refused := [];
    var i := 0;
    while i < |clients|
      invariant 0 <= i <= |clients| && message.Valid() && fresh(message) && |refused| == i
      invariant message.rewrites <= AllPairs(pipe, clients[..i])
      invariant true !in refused ==> message.originalRcpts == RecordedAll(pipe, clients[..i])
      invariant true !in refused ==> message.chains == AllChains(pipe, clients[..i])
      invariant forall j :: 0 <= j < i ==> FirstNoted(pipe, clients[j], message.rewrites)
      invariant forall j :: 0 <= j < |message.chains| ==> message.chains[j][0] in clients
      invariant forall j :: 0 <= j < i && !refused[j] ==> Followed(pipe, clients[j], message.chains)
    {
      ghost var was := message.chains;
      var r := AddRcpt(pipe, message, clients[i], [clients[i]]);
      assert Front(clients[..i + 1]) == clients[..i] && Last(clients[..i + 1]) == clients[i];
      forall j | 0 <= j < |message.chains| ensures message.chains[j][0] in clients {
        assert j < |was| ==> message.chains[j] == was[j];
      }
      if !r {
        FollowedNow(pipe, clients[i], was, message.chains);
      }
      refused := refused + [r];
      i := i + 1;
    }
    assert clients[..i] == clients;
    if OneSource(AllPairs(pipe, clients)) && forall c :: c in clients ==> !IsResult(c, AllPairs(pipe, clients)) {
      StatusesReachClients(message.originalRcpts, message.rewrites, message.chains);
    }
  }

  ghost predicate AllReach(original: map<string, string>, chains: seq<seq<string>>) {
    forall i, k :: 0 <= i < |chains| && 0 <= k < |chains[i]| ==> SetStatus(Nested(k), original, chains[i][k]) == chains[i][0]
  }

  /** The recipient got through to every target its pipelines send it to. */
  ghost predicate Followed(pipe: Pipe, client: string, chains: seq<seq<string>>) {
    forall t :: t in Tails(pipe, client) ==> [client] + t in chains
  }

  lemma {:induction false} FollowedNow(pipe: Pipe, client: string, was: seq<seq<string>>, chains: seq<seq<string>>)
    requires chains == was + From([client], Tails(pipe, client))
    ensures Followed(pipe, client, chains)
  {
    forall t | t in Tails(pipe, client) ensures [client] + t in chains {
      var k :| 0 <= k < |Tails(pipe, client)| && Tails(pipe, client)[k] == t;
      assert From([client], Tails(pipe, client))[k] in chains;
    }
  }

  // ---------------------------------------------------------------- a single pipeline

  ghost predicate Gives(pipe: Pipe, client: string, to: string) {
    exists k :: 0 <= k < |pipe.expand(client)| && pipe.expand(client)[k].to == to
  }

  ghost predicate Delivers(pipe: Pipe, client: string, to: string) {
    exists k :: 0 <= k < |pipe.expand(client)| && pipe.expand(client)[k].to == to && pipe.expand(client)[k].targets != []
  }

  /** The last of the recipients that is rewritten to the address. */
  ghost function LastGiver(pipe: Pipe, clients: seq<string>, to: string): Option<string> {
    if clients == [] then None
    else if Last(clients) != to && Gives(pipe, Last(clients), to) then Some(Last(clients))
    else LastGiver(pipe, Front(clients), to)
  }

  /** Whoever is delivered under an address is the last that is rewritten to it or, if none is, has that
      address. */
  ghost predicate RightlyNamed(pipe: Pipe, clients: seq<string>) {
    forall c, to :: c in clients && Delivers(pipe, c, to) ==> Named(pipe, clients, c, to)
  }

  ghost predicate Named(pipe: Pipe, clients: seq<string>, c: string, to: string) {
    var last := LastGiver(pipe, clients, to);
    if last.None? then c == to else last.value == c
  }

  lemma {:induction false} HopsRecorded(pipe: Pipe, original: map<string, string>, from: string, hops: seq<Hop>, to: string)
    requires pipe.nested == []
    ensures var after := RecordedByHops(pipe, original, from, hops);
            if from != to && exists k :: 0 <= k < |hops| && hops[k].to == to then to in after && after[to] == from
            else SameFor(original, after, to)
    decreases |hops|
  {
    if hops != [] {
      var noted, rest := WithNote(original, from, hops[0].to), hops[1..];
      PlainTargetsRecordNothing(pipe, noted, hops[0].to, hops[0].targets);
      HopsRecorded(pipe, noted, from, rest, to);
      assert forall k :: 0 <= k < |rest| ==> rest[k] == hops[k + 1];
      assert forall k :: 0 < k < |hops| ==> hops[k] == rest[k - 1];
    }
  }

  ghost predicate SameFor(a: map<string, string>, b: map<string, string>, to: string) {
    if to in a then to in b && b[to] == a[to] else to !in b
  }

  lemma {:induction false} RecordedIsLast(pipe: Pipe, clients: seq<string>, to: string)
    requires pipe.nested == []
    ensures var original, last := RecordedAll(pipe, clients), LastGiver(pipe, clients, to);
            if last.Some? then to in original && original[to] == last.value else to !in original
  {
    if clients != [] {
      RecordedIsLast(pipe, Front(clients), to);
      HopsRecorded(pipe, RecordedAll(pipe, Front(clients)), Last(clients), pipe.expand(Last(clients)), to);
    }
  }

  lemma {:induction false} TargetsTails(pipe: Pipe, to: string, targets: seq<nat>, t: seq<string>)
    requires pipe.nested == []
    ensures t in TailsOfTargets(pipe, to, targets) <==> targets != [] && t == [to]
    decreases |targets|
  {
    if targets != [] {
      TargetsTails(pipe, to, targets[1..], t);
      assert TailsOfTarget(pipe, to, targets[0]) == [[to]];
    }
  }

  lemma {:induction false} HopsTails(pipe: Pipe, hops: seq<Hop>, t: seq<string>)
    requires pipe.nested == []
    ensures t in TailsOfHops(pipe, hops) <==> exists k :: 0 <= k < |hops| && hops[k].targets != [] && t == [hops[k].to]
    decreases |hops|
  {
    if hops != [] {
      var rest := hops[1..];
      HopsTails(pipe, rest, t);
      TargetsTails(pipe, hops[0].to, hops[0].targets, t);
      assert forall k :: 0 <= k < |rest| ==> rest[k] == hops[k + 1];
      assert forall k :: 0 < k < |hops| ==> hops[k] == rest[k - 1];
    }
  }

  /** The chains are those of the recipients that are delivered, under the addresses they are delivered under. */
  lemma {:induction false} ChainsDeliver(pipe: Pipe, clients: seq<string>, c: string, to: string)
    requires pipe.nested == []
    ensures [c, to] in AllChains(pipe, clients) <==> c in clients && Delivers(pipe, c, to)
  {
    if clients != [] {
      var last := Last(clients);
      ChainsDeliver(pipe, Front(clients), c, to);
      assert clients == Front(clients) + [last];
      HopsTails(pipe, pipe.expand(last), [to]);
      FromOne(last, Tails(pipe, last), c, to);
    }
  }

  lemma {:induction false} FromOne(x: string, tails: seq<seq<string>>, c: string, to: string)
    ensures [c, to] in From([x], tails) <==> c == x && [to] in tails
  {
    var all := From([x], tails);
    if [c, to] in all {
      var i :| 0 <= i < |all| && all[i] == [c, to];
      assert all[i] == [x] + tails[i] && all[i][0] == x && tails[i] == all[i][1..] == [to];
    }
    if c == x && [to] in tails {
      var i :| 0 <= i < |tails| && tails[i] == [to];
      assert all[i] == [x] + [to] == [c, to];
    }
  }

  lemma {:induction false} ChainsArePairs(pipe: Pipe, clients: seq<string>, i: nat)
    requires pipe.nested == [] && i < |AllChains(pipe, clients)|
    ensures |AllChains(pipe, clients)[i]| == 2
  {
    var earlier, last := AllChains(pipe, Front(clients)), Last(clients);
    if i < |earlier| {
      ChainsArePairs(pipe, Front(clients), i);
    } else {
      var t := Tails(pipe, last)[i - |earlier|];
      HopsTails(pipe, pipe.expand(last), t);
      assert t in Tails(pipe, last);
    }
  }

  /** With a single pipeline that refuses none, the statuses all come back right if and only if whoever is
      delivered under an address is the last one that is rewritten to it or, if none is, has that address. */
  lemma {:induction false} OnePipelineIff(pipe: Pipe, clients: seq<string>)
    requires pipe.nested == []
    ensures AllReach(RecordedAll(pipe, clients), AllChains(pipe, clients)) <==> RightlyNamed(pipe, clients)
  {
    var original, chains := RecordedAll(pipe, clients), AllChains(pipe, clients);
    if RightlyNamed(pipe, clients) {
      forall i, k | 0 <= i < |chains| && 0 <= k < |chains[i]| ensures SetStatus(Nested(k), original, chains[i][k]) == chains[i][0] {
        ChainsArePairs(pipe, clients, i);
        var c, to := chains[i][0], chains[i][1];
        assert chains[i] == [c, to];
        ChainsDeliver(pipe, clients, c, to);
        assert Named(pipe, clients, c, to);
        OneChain(pipe, clients, c, to);
        assert Nested(0) == Client;
      }
    }
    if AllReach(original, chains) {
      forall c, to | c in clients && Delivers(pipe, c, to) ensures Named(pipe, clients, c, to) {
        ChainsDeliver(pipe, clients, c, to);
        var i :| 0 <= i < |chains| && chains[i] == [c, to];
        assert SetStatus(Nested(1), original, chains[i][1]) == chains[i][0];
        OneChain(pipe, clients, c, to);
      }
    }
  }

  lemma {:induction false} OneChain(pipe: Pipe, clients: seq<string>, c: string, to: string)
    requires pipe.nested == []
    ensures SetStatus(Nested(1), RecordedAll(pipe, clients), to) == c <==> Named(pipe, clients, c, to)
  {
    RecordedIsLast(pipe, clients, to);
    assert Nested(1) == Wrapped(Nested(0)) == Wrapped(Client);
  }

  /** The same for a client that presents its recipients. */
  method PresentToOne(pipe: Pipe, clients: seq<string>) returns (message: Message, refused: seq<bool>)
    requires pipe.nested == []
    ensures true !in refused ==> (AllReach(message.originalRcpts, message.chains) <==> RightlyNamed(pipe, clients))
  {
    message, refused := PresentAll(pipe, clients);
    OnePipelineIff(pipe, clients);
  }

  // ---------------------------------------------------------------- why the conditions are needed

  /** Of two recipients that end up at one address, the one rewritten to it gets the statuses of both. */
  lemma {:induction false} RewrittenWins(pipe: Pipe, x: string, y: string, to: string, targets: seq<nat>, others: seq<nat>)
    requires pipe.nested == [] && x != y && to != y && pipe.expand(x) == [Hop(to, targets)] && pipe.expand(y) == [Hop(to, others)]
    ensures SetStatus(Nested(1), RecordedAll(pipe, [x, y]), to) == y
  {
    var first := WithNote(map[], x, to);
    OneHopRecorded(pipe, map[], x, to, targets);
    OneHopRecorded(pipe, first, y, to, others);
    assert Front([x, y]) == [x] && Front([x]) == [];
    assert RecordedAll(pipe, [x]) == Recorded(pipe, RecordedAll(pipe, []), x) == first;
    assert Nested(1) == Wrapped(Nested(0)) == Wrapped(Client);
  }

  lemma {:induction false} PlainTargetsRecordNothing(pipe: Pipe, original: map<string, string>, to: string, targets: seq<nat>)
    requires pipe.nested == []
    ensures RecordedByTargets(pipe, original, to, targets) == original
    decreases |targets|
  {
    if targets != [] {
      PlainTargetsRecordNothing(pipe, original, to, targets[1..]);
    }
  }

  lemma {:induction false} OneHopRecorded(pipe: Pipe, original: map<string, string>, x: string, to: string, targets: seq<nat>)
    requires pipe.nested == [] && pipe.expand(x) == [Hop(to, targets)]
    ensures Recorded(pipe, original, x) == WithNote(original, x, to)
  {
    var hops := pipe.expand(x);
    var noted := WithNote(original, x, to);
    assert hops[1..] == [];
    PlainTargetsRecordNothing(pipe, noted, to, targets);
    assert RecordedByHops(pipe, original, x, hops) == RecordedByHops(pipe, noted, x, []) == noted;
  }

  lemma {:induction false} ChainOf(pipe: Pipe, x: string, to: string, target: nat, chains: seq<seq<string>>)
    requires pipe.nested == [] && pipe.expand(x) == [Hop(to, [target])] && Followed(pipe, x, chains)
    ensures [x, to] in chains
  {
    var hops := pipe.expand(x);
    assert [target][1..] == [] && hops[1..] == [];
    assert TailsOfTargets(pipe, to, [target]) == [[to]] + [] == [[to]];
    assert TailsOfHops(pipe, hops) == [[to]] + [] == [[to]];
    assert [to] in Tails(pipe, x) && [x] + [to] == [x, to];
  }

  /** A client presents two recipients that one pipeline rewrites to one address. The one noted last wins: the
      statuses of the first reach the client under the second. */
  method SharedResultMisleads(x: string, y: string, to: string) returns (message: Message, refused: seq<bool>)
    requires x != y && to != x && to != y
    ensures |refused| == 2
    ensures !refused[0] && !refused[1] ==> [x, to] in message.chains && SetStatus(Nested(1), message.originalRcpts, to) == y
  {
    var pipe := Pipe(rcpt => if rcpt == x || rcpt == y then [Hop(to, [0])] else [], []);
    message, refused := PresentAll(pipe, [x, y]);
    RewrittenWins(pipe, x, y, to, [0], [0]);
    if !refused[0] {
      ChainOf(pipe, x, to, 0, message.chains);
    }
  }

  /** A client presents a recipient that is kept, and another that is rewritten to the first. The statuses of
      the first reach the client under the second, whether the second is refused or not. */
  method ClientAsResultMisleads(x: string, y: string) returns (message: Message, refused: seq<bool>)
    requires x != y
    ensures |refused| == 2
    ensures !refused[0] ==> [x, x] in message.chains && SetStatus(Nested(1), message.originalRcpts, x) == y
  {
    var pipe := Pipe(rcpt => if rcpt == x || rcpt == y then [Hop(x, [0])] else [], []);
    message, refused := PresentAll(pipe, [x, y]);
    OnlyPair(pipe, x, y);
    assert FirstNoted(pipe, [x, y][1], message.rewrites);
    assert (y, x) in message.rewrites && x in message.originalRcpts && (message.originalRcpts[x], x) in message.rewrites;
    assert Nested(1) == Wrapped(Nested(0)) == Wrapped(Client);
    if !refused[0] {
      ChainOf(pipe, x, x, 0, message.chains);
    }
  }

  lemma {:induction false} OnlyPair(pipe: Pipe, x: string, y: string)
    requires x != y && pipe.nested == [] && pipe.expand(x) == [Hop(x, [0])] && pipe.expand(y) == [Hop(x, [0])]
    ensures AllPairs(pipe, [x, y]) == {(y, x)}
  {
    var kept, moved := pipe.expand(x), pipe.expand(y);
    assert kept[1..] == [] && moved[1..] == [] && [0][1..] == [];
    assert PairsOfTargets(pipe, x, [0]) == {};
    assert PairsOfHops(pipe, y, []) == {} && PairsOfHops(pipe, x, []) == {};
    assert PairsOfHops(pipe, x, kept) == Pair(x, x) + {} + {} == {};
    assert PairsOfHops(pipe, y, moved) == Pair(y, x) + {} + {} == {(y, x)};
    assert Front([x, y]) == [x] && Front([x]) == [];
    assert AllPairs(pipe, [x]) == AllPairs(pipe, []) + Pairs(pipe, x) == {};
  }
}
