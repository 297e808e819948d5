/** One message on its way through a pipeline: start, recipients, body, and commit or abort. */
module Pipeline {
  import opened Common
  import opened Dmarc
  import opened Checks
  import opened CheckBatch
  import opened CheckLogs
  import opened CheckAnswers
  import opened CheckHistory
  import opened CheckRunner
  import opened Routing
  import Rewrite

  /** What the modules and libraries behind the configuration do. */
  datatype Env = Env(normalize: string -> Option<string>, modifier: nat -> Rewrite.Modifier)

  function GroupOf(env: Env, modifiers: seq<nat>): Rewrite.Modifier {
    Rewrite.Group(seq(|modifiers|, i requires 0 <= i < |modifiers| => env.modifier(modifiers[i])))
  }

  // ---------------------------------------------------------------- the blocks of a configuration

  ghost predicate Among<B>(rules: Rules<B>, block: B) {
    || (exists i :: 0 <= i < |rules.tables| && rules.tables[i].block == block)
    || (exists key :: key in rules.exact && rules.exact[key] == block)
    || rules.fallback == Some(block)
  }

  ghost predicate TidySource(source: SourceBlock) {
    NoDuplicates(source.checks) && forall b :: TidyBlock(source, b)
  }

  ghost predicate TidyBlock(source: SourceBlock, b: RcptBlock) {
    Among(source.rcpts, b) ==> NoDuplicates(b.checks)
  }

  /** No check list of the configuration names a check twice. */
  ghost predicate Tidy(config: Config) {
    NoDuplicates(config.checks) && forall s :: TidyIn(config, s)
  }

  ghost predicate TidyIn(config: Config, s: SourceBlock) {
    Among(config.sources, s) ==> TidySource(s)
  }

  lemma {:induction false} TidyLists(config: Config, source: SourceBlock)
    requires Among(config.sources, source)
    ensures Tidy(config) ==> NoDuplicates(config.checks) && NoDuplicates(source.checks)
  {
    if Tidy(config) {
      assert TidyIn(config, source);
    }
  }

  lemma {:induction false} TidyBlocks(config: Config, source: SourceBlock, b: RcptBlock)
    requires Among(config.sources, source) && Among(source.rcpts, b)
    ensures Tidy(config) ==> NoDuplicates(b.checks)
  {
    if Tidy(config) {
      assert TidyIn(config, source) && TidyBlock(source, b);
    }
  }

  /** These are blocks of the source. */
  ghost predicate OwnBlocks(source: SourceBlock, blocks: set<RcptBlock>) {
    forall b :: OwnBlock(source, blocks, b)
  }

  ghost predicate OwnBlock(source: SourceBlock, blocks: set<RcptBlock>, b: RcptBlock) {
    b in blocks ==> Among(source.rcpts, b)
  }

  lemma {:induction false} OneMoreBlock(source: SourceBlock, blocks: set<RcptBlock>, b: RcptBlock)
    requires OwnBlocks(source, blocks) && Among(source.rcpts, b)
    ensures OwnBlocks(source, blocks + {b})
  {
    forall x ensures OwnBlock(source, blocks + {b}, x) {
      assert OwnBlock(source, blocks, x);
    }
  }

  // ---------------------------------------------------------------- where a recipient ends up

  /** Who is given which address, and the recipient, as presented, that it stands for. */
  datatype Handover = Handover(target: nat, to: string, original: string)

  function ToTargets(targets: seq<nat>, to: string, original: string): seq<Handover> {
    seq(|targets|, i requires 0 <= i < |targets| => Handover(targets[i], to, original))
  }

  function ToAll(targets: seq<nat>, finals: seq<string>, original: string): seq<Handover> {
    if finals == [] then [] else ToTargets(targets, finals[0], original) + ToAll(targets, finals[1..], original)
  }

  /** What becomes of an address behind the global and source modifiers, if nothing refuses it. */
  function PlanOne(env: Env, source: SourceBlock, to: string, original: string): Option<seq<Handover>> {
    var route := RcptRoute(source, env.normalize, to);
    if route.Err? || route.value.None? || route.value.value.reject.Some? then None
    else
      var finals := Rewrite.Rcpt(GroupOf(env, route.value.value.modifiers), to);
      if finals.Err? then None else Some(ToAll(route.value.value.targets, finals.value, original))
  }

  function PlanEach(env: Env, source: SourceBlock, list: seq<string>, original: string): Option<seq<Handover>> {
    if list == [] then Some([])
    else
      var first, rest := PlanOne(env, source, list[0], original), PlanEach(env, source, list[1..], original);
      if first.None? || rest.None? then None else Some(first.value + rest.value)
  }

  /** The addresses a recipient becomes behind the global and source modifiers. */
  function Rewritten(env: Env, config: Config, source: SourceBlock, to: string): Result<seq<string>, string> {
    var first := Rewrite.Rcpt(GroupOf(env, config.modifiers), to);
    if first.Err? then first else Rewrite.Level(GroupOf(env, source.modifiers), first.value)
  }

  function Plan(env: Env, config: Config, source: SourceBlock, to: string): Option<seq<Handover>> {
    var list := Rewritten(env, config, source, to);
    if list.Err? then None else PlanEach(env, source, list.value, to)
  }

  lemma {:induction false} PlanSplit(env: Env, source: SourceBlock, a: seq<string>, b: seq<string>, original: string)
    requires PlanEach(env, source, a, original).Some?
    ensures PlanEach(env, source, a + b, original)
         == if PlanEach(env, source, b, original).None? then None else Some(PlanEach(env, source, a, original).value + PlanEach(env, source, b, original).value)
  {
    if a == [] {
      assert a + b == b;
      assert PlanEach(env, source, b, original).Some? ==> [] + PlanEach(env, source, b, original).value == PlanEach(env, source, b, original).value;
    } else {
      assert (a + b)[1..] == a[1..] + b;
      PlanSplit(env, source, a[1..], b, original);
      if PlanEach(env, source, b, original).Some? {
        ConcatAssoc(PlanOne(env, source, a[0], original).value, PlanEach(env, source, a[1..], original).value, PlanEach(env, source, b, original).value);
      }
    }
  }

  lemma {:induction false} PlanNext(env: Env, source: SourceBlock, list: seq<string>, i: nat, original: string)
    requires i < |list| && PlanEach(env, source, list[..i], original).Some?
    ensures PlanOne(env, source, list[i], original).Some? ==>
              PlanEach(env, source, list[..i + 1], original) == Some(PlanEach(env, source, list[..i], original).value + PlanOne(env, source, list[i], original).value)
  {
    assert list[..i + 1] == list[..i] + [list[i]] && [list[i]][1..] == [];
    PlanSplit(env, source, list[..i], [list[i]], original);
    assert PlanOne(env, source, list[i], original).Some? ==> PlanOne(env, source, list[i], original).value + [] == PlanOne(env, source, list[i], original).value;
  }

  /** The modifiers of the block an address is routed to. */
  function BlockGroup(env: Env, source: SourceBlock): string -> Rewrite.Modifier {
    to =>
      var route := RcptRoute(source, env.normalize, to);
      if route.Ok? && route.value.Some? then GroupOf(env, route.value.value.modifiers) else Rewrite.Group([])
  }

  /** What targets are given is what one depth-first pass through all the modifiers makes of the recipient:
      no other address, and every one of them whose block has a target. */
  lemma {:induction false} PlanIsRewriting(env: Env, config: Config, source: SourceBlock, to: string)
    requires Plan(env, config, source, to).Some?
    ensures var all := Rewrite.Deep(Rewrite.Group([GroupOf(env, config.modifiers), GroupOf(env, source.modifiers),
                                                   Rewrite.ByBlock(BlockGroup(env, source))]), to);
            && all.Some?
            && (forall h :: h in Plan(env, config, source, to).value ==> h.to in all.value)
            && (AllHaveTargets(env, source, Rewritten(env, config, source, to).value) ==>
                  forall x :: x in all.value ==> GivenToSome(Plan(env, config, source, to).value, x))
  {
    var list := Rewritten(env, config, source, to).value;
    EachIsRouted(env, source, list, to);
    Rewrite.StagesCompose(GroupOf(env, config.modifiers), GroupOf(env, source.modifiers), BlockGroup(env, source), to);
  }

  ghost predicate GivenToSome(plan: seq<Handover>, to: string) {
    exists i :: 0 <= i < |plan| && plan[i].to == to
  }

  ghost predicate AllHaveTargets(env: Env, source: SourceBlock, list: seq<string>) {
    forall i :: 0 <= i < |list| ==> HasTarget(RcptRoute(source, env.normalize, list[i]))
  }

  ghost predicate HasTarget(route: Result<Option<RcptBlock>, RouteError>) {
    route.Ok? && route.value.Some? && route.value.value.targets != []
  }

  lemma {:induction false} EachIsRouted(env: Env, source: SourceBlock, list: seq<string>, original: string)
    requires PlanEach(env, source, list, original).Some?
    ensures var all := Rewrite.Routed(BlockGroup(env, source), list);
            && all.Ok?
            && (forall h :: h in PlanEach(env, source, list, original).value ==> h.to in all.value)
            && (AllHaveTargets(env, source, list) ==> forall x :: x in all.value ==> GivenToSome(PlanEach(env, source, list, original).value, x))
  {
    if list != [] {
      EachIsRouted(env, source, list[1..], original);
      var block := RcptRoute(source, env.normalize, list[0]).value.value;
      var finals := Rewrite.Rcpt(GroupOf(env, block.modifiers), list[0]).value;
      var rest := PlanEach(env, source, list[1..], original).value;
      AllGiven(block.targets, finals, original);
      if AllHaveTargets(env, source, list) {
        assert HasTarget(RcptRoute(source, env.normalize, list[0]));
        assert AllHaveTargets(env, source, list[1..]) by {
          assert forall i :: 0 <= i < |list[1..]| ==> list[1..][i] == list[i + 1];
        }
        forall x | x in Rewrite.Routed(BlockGroup(env, source), list).value
          ensures GivenToSome(PlanEach(env, source, list, original).value, x)
        {
          GivenInEither(ToAll(block.targets, finals, original), rest, x);
        }
      }
    }
  }

  lemma {:induction false} AllGiven(targets: seq<nat>, finals: seq<string>, original: string)
    ensures forall h :: h in ToAll(targets, finals, original) ==> h.to in finals
    ensures targets != [] ==> forall x :: x in finals ==> GivenToSome(ToAll(targets, finals, original), x)
  {
    if finals != [] {
      AllGiven(targets, finals[1..], original);
      var here, rest := ToTargets(targets, finals[0], original), ToAll(targets, finals[1..], original);
      if targets != [] {
        assert here[0].to == finals[0];
        forall x | x in finals ensures GivenToSome(ToAll(targets, finals, original), x) {
          GivenInEither(here, rest, x);
        }
      }
    }
  }

  lemma {:induction false} GivenInEither(a: seq<Handover>, b: seq<Handover>, to: string)
    ensures GivenToSome(a, to) || GivenToSome(b, to) ==> GivenToSome(a + b, to)
  {
    if GivenToSome(a, to) {
      var i :| 0 <= i < |a| && a[i].to == to;
      assert (a + b)[i] == a[i];
    } else if GivenToSome(b, to) {
      var i :| 0 <= i < |b| && b[i].to == to;
      assert (a + b)[|a| + i] == b[i];
    }
  }

  // ---------------------------------------------------------------- the deliveries of the targets

  /** The recipients, as presented, of what a target was given, in order. */
  function OriginalsFor(handed: seq<Handover>, t: nat): seq<string> {
    if handed == [] then []
    else OriginalsFor(Front(handed), t) + if Last(handed).target == t then [Last(handed).original] else []
  }

  /** Every target that was given an address has a delivery, which knows for whom it is used. */
  ghost predicate Delivered(recipients: map<nat, seq<string>>, handed: seq<Handover>) {
    (forall h :: HasDelivery(recipients, handed, h)) && forall t :: UsedFor(recipients, handed, t)
  }

  ghost predicate HasDelivery(recipients: map<nat, seq<string>>, handed: seq<Handover>, h: Handover) {
    h in handed ==> h.target in recipients
  }

  ghost predicate UsedFor(recipients: map<nat, seq<string>>, handed: seq<Handover>, t: nat) {
    t in recipients ==> recipients[t] == OriginalsFor(handed, t)
  }

  lemma {:induction false} NothingFor(handed: seq<Handover>, t: nat)
    requires forall h :: h in handed ==> h.target != t
    ensures OriginalsFor(handed, t) == []
  {
    if handed != [] {
      NothingFor(Front(handed), t);
    }
  }

  lemma {:induction false} DeliveryStarted(recipients: map<nat, seq<string>>, handed: seq<Handover>, t: nat)
    requires Delivered(recipients, handed) && t !in recipients
    ensures Delivered(recipients[t := []], handed)
  {
    var more := recipients[t := []];
    forall h ensures HasDelivery(more, handed, h) && (h in handed ==> h.target != t) {
      assert HasDelivery(recipients, handed, h);
    }
    NothingFor(handed, t);
    forall x ensures UsedFor(more, handed, x) {
      assert UsedFor(recipients, handed, x);
    }
  }

  lemma {:induction false} DeliveryUsed(recipients: map<nat, seq<string>>, handed: seq<Handover>, h: Handover)
    requires Delivered(recipients, handed) && h.target in recipients
    ensures Delivered(recipients[h.target := recipients[h.target] + [h.original]], handed + [h])
  {
    var longer, more := handed + [h], recipients[h.target := recipients[h.target] + [h.original]];
    assert Front(longer) == handed && Last(longer) == h;
    forall x ensures HasDelivery(more, longer, x) {
      assert HasDelivery(recipients, handed, x);
    }
    forall t ensures UsedFor(more, longer, t) {
      assert UsedFor(recipients, handed, t);
    }
  }

  // ---------------------------------------------------------------- who has judged an address

  /** What the checks have seen and said so far. */
  datatype Trail = Trail(states: map<Check, nat>, logs: seq<Log>, history: seq<BatchRecord>)

  /** Nothing of it is ever taken back. */
  ghost predicate Grown(a: Trail, b: Trail) {
    Kept(a.states, b.states) && Extends(a.logs, b.logs) && a.history <= b.history
  }

  ghost predicate ClearedBy(checks: seq<Check>, t: Trail, to: string) {
    Cleared(checks, t.states, t.logs, t.history, to)
  }

  lemma {:induction false} ClearedStays(checks: seq<Check>, a: Trail, b: Trail, to: string)
    requires ClearedBy(checks, a, to) && Grown(a, b)
    ensures ClearedBy(checks, b, to)
  {
    ClearedStill(checks, a.states, b.states, a.logs, b.logs, a.history, b.history, to);
  }

  lemma {:induction false} GrownOn(a: Trail, b: Trail, c: Trail)
    requires Grown(a, b) && Grown(b, c)
    ensures Grown(a, c)
  {
    ExtendsOn(a.logs, b.logs, c.logs);
    forall x ensures KeptAt(a.states, c.states, x) {
      assert KeptAt(a.states, b.states, x) && KeptAt(b.states, c.states, x);
    }
  }

  lemma {:induction false} GrownSelf(a: Trail)
    ensures Grown(a, a)
  {
    forall id | 0 <= id < |a.logs| ensures ExtendsAt(a.logs, a.logs, id) {
    }
    forall x ensures KeptAt(a.states, a.states, x) {
    }
  }

  /** The address has a block, the block is in use, and its checks have let the address pass. */
  ghost predicate Arrived(env: Env, source: SourceBlock, reached: set<RcptBlock>, t: Trail, to: string) {
    var route := RcptRoute(source, env.normalize, to);
    route.Ok? && route.value.Some? && route.value.value in reached && ClearedBy(route.value.value.checks, t, to)
  }

  ghost predicate AllArrived(env: Env, source: SourceBlock, reached: set<RcptBlock>, t: Trail, list: seq<string>) {
    forall i :: 0 <= i < |list| ==> Arrived(env, source, reached, t, list[i])
  }

  lemma {:induction false} StillArrived(env: Env, source: SourceBlock, r: set<RcptBlock>, r': set<RcptBlock>, a: Trail, b: Trail, list: seq<string>)
    requires AllArrived(env, source, r, a, list) && r <= r' && Grown(a, b)
    ensures AllArrived(env, source, r', b, list)
  {
    forall i | 0 <= i < |list| ensures Arrived(env, source, r', b, list[i]) {
      assert Arrived(env, source, r, a, list[i]);
      ClearedStays(RcptRoute(source, env.normalize, list[i]).value.value.checks, a, b, list[i]);
    }
  }

  lemma {:induction false} OneMoreArrived(env: Env, source: SourceBlock, r: set<RcptBlock>, t: Trail, list: seq<string>, i: nat)
    requires i < |list| && AllArrived(env, source, r, t, list[..i]) && Arrived(env, source, r, t, list[i])
    ensures AllArrived(env, source, r, t, list[..i + 1])
  {
    var less, more := list[..i], list[..i + 1];
    forall k | 0 <= k < |more| ensures Arrived(env, source, r, t, more[k]) {
      assert k < i ==> more[k] == less[k];
    }
  }

  // ---------------------------------------------------------------- who may be given an address

  /** The recipient was let pass by the global and the source checks, as it was presented. */
  ghost predicate Admitted(config: Config, source: SourceBlock, t: Trail, original: string) {
    ClearedBy(config.checks, t, original) && ClearedBy(source.checks, t, original)
  }

  lemma {:induction false} StillAdmitted(config: Config, source: SourceBlock, a: Trail, b: Trail, original: string)
    requires Admitted(config, source, a, original) && Grown(a, b)
    ensures Admitted(config, source, b, original)
  {
    ClearedStays(config.checks, a, b, original);
    ClearedStays(source.checks, a, b, original);
  }

  /** The target belongs to the block `b`, which is in use and does not reject; the recipient was admitted, it
      became `x` behind the global and source modifiers, `x` is routed to `b` and was let pass by the checks
      of `b`, and the modifiers of `b` make the address of it. */
  ghost predicate VettedBy(env: Env, config: Config, source: SourceBlock, reached: set<RcptBlock>, t: Trail, h: Handover,
                           b: RcptBlock, x: string) {
    && b in reached && b.reject.None? && h.target in b.targets
    && Admitted(config, source, t, h.original) && Becomes(env, config, source, h.original, x)
    && RcptRoute(source, env.normalize, x) == Ok(Some(b)) && ClearedBy(b.checks, t, x)
    && Rewrite.Rcpt(GroupOf(env, b.modifiers), x).Ok? && h.to in Rewrite.Rcpt(GroupOf(env, b.modifiers), x).value
  }

  ghost predicate Becomes(env: Env, config: Config, source: SourceBlock, original: string, x: string) {
    Rewritten(env, config, source, original).Ok? && x in Rewritten(env, config, source, original).value
  }

  ghost predicate Vetted(env: Env, config: Config, source: SourceBlock, reached: set<RcptBlock>, t: Trail, h: Handover) {
    exists b, x :: VettedBy(env, config, source, reached, t, h, b, x)
  }

  ghost predicate AllVetted(env: Env, config: Config, source: SourceBlock, reached: set<RcptBlock>, t: Trail, offered: seq<Handover>) {
    forall i :: 0 <= i < |offered| ==> Vetted(env, config, source, reached, t, offered[i])
  }

  lemma {:induction false} StillVetted(env: Env, config: Config, source: SourceBlock, r: set<RcptBlock>, r': set<RcptBlock>, a: Trail, b: Trail,
                                       offered: seq<Handover>)
    requires AllVetted(env, config, source, r, a, offered) && r <= r' && Grown(a, b)
    ensures AllVetted(env, config, source, r', b, offered)
  {
    forall i | 0 <= i < |offered| ensures Vetted(env, config, source, r', b, offered[i]) {
      assert Vetted(env, config, source, r, a, offered[i]);
      var block, x :| VettedBy(env, config, source, r, a, offered[i], block, x);
      StillAdmitted(config, source, a, b, offered[i].original);
      ClearedStays(block.checks, a, b, x);
      assert VettedBy(env, config, source, r', b, offered[i], block, x);
    }
  }

  /** Each of these targets may be given each of these addresses. */
  ghost predicate Permitted(env: Env, config: Config, source: SourceBlock, reached: set<RcptBlock>, t: Trail, targets: seq<nat>,
                            finals: seq<string>, original: string) {
    forall k, i :: 0 <= k < |targets| && 0 <= i < |finals| ==>
      Vetted(env, config, source, reached, t, Handover(targets[k], finals[i], original))
  }

  lemma {:induction false} BlockPermits(env: Env, config: Config, source: SourceBlock, reached: set<RcptBlock>, t: Trail, b: RcptBlock,
                                        x: string, original: string)
    requires b in reached && b.reject.None? && RcptRoute(source, env.normalize, x) == Ok(Some(b)) && ClearedBy(b.checks, t, x)
    requires Admitted(config, source, t, original) && Becomes(env, config, source, original, x)
    requires Rewrite.Rcpt(GroupOf(env, b.modifiers), x).Ok?
    ensures Permitted(env, config, source, reached, t, b.targets, Rewrite.Rcpt(GroupOf(env, b.modifiers), x).value, original)
  {
    var finals := Rewrite.Rcpt(GroupOf(env, b.modifiers), x).value;
    forall k, i | 0 <= k < |b.targets| && 0 <= i < |finals|
      ensures Vetted(env, config, source, reached, t, Handover(b.targets[k], finals[i], original))
    {
      assert VettedBy(env, config, source, reached, t, Handover(b.targets[k], finals[i], original), b, x);
    }
  }

  /** More was offered, all of it for one recipient. */
  ghost predicate OffersFor(before: seq<Handover>, after: seq<Handover>, original: string) {
    before <= after && forall i :: |before| <= i < |after| ==> IsFor(after, i, original)
  }

  ghost predicate IsFor(offered: seq<Handover>, i: nat, original: string)
    requires i < |offered|
  {
    offered[i].original == original
  }

  lemma {:induction false} OffersOn(a: seq<Handover>, b: seq<Handover>, h: Handover, c: seq<Handover>)
    requires OffersFor(a, b, h.original) && (c == b || c == b + [h])
    ensures OffersFor(a, c, h.original)
  {
    forall i | |a| <= i < |c| ensures IsFor(c, i, h.original) {
      assert i < |b| ==> IsFor(b, i, h.original);
    }
  }

  lemma {:induction false} OffersTwice(a: seq<Handover>, b: seq<Handover>, c: seq<Handover>, original: string)
    requires OffersFor(a, b, original) && OffersFor(b, c, original)
    ensures OffersFor(a, c, original)
  {
    forall i | |a| <= i < |c| ensures IsFor(c, i, original) {
      assert i < |b| ==> IsFor(b, i, original) && b[i] == c[i];
      assert i >= |b| ==> IsFor(c, i, original);
    }
  }

  ghost predicate WasOffered(offered: seq<Handover>, t: nat) {
    exists i :: 0 <= i < |offered| && offered[i].target == t
  }

  /** Whatever was handed over had been offered, and there is no delivery for a target that was not offered
      an address. */
  ghost predicate Offers(recipients: map<nat, seq<string>>, handed: seq<Handover>, offered: seq<Handover>) {
    (forall h :: HadOffer(handed, offered, h)) && forall t :: OfferedFirst(recipients, offered, t)
  }

  ghost predicate HadOffer(handed: seq<Handover>, offered: seq<Handover>, h: Handover) {
    h in handed ==> h in offered
  }

  ghost predicate OfferedFirst(recipients: map<nat, seq<string>>, offered: seq<Handover>, t: nat) {
    t in recipients ==> WasOffered(offered, t)
  }

  /** The target is offered an address, for which it may need a delivery. */
  lemma {:induction false} OneMoreOffered(recipients: map<nat, seq<string>>, more: map<nat, seq<string>>, handed: seq<Handover>,
                                          offered: seq<Handover>, h: Handover)
    requires Offers(recipients, handed, offered) && more.Keys == recipients.Keys + {h.target}
    ensures Offers(more, handed, offered + [h])
  {
    var longer := offered + [h];
    assert longer[|offered|] == h;
    forall x ensures HadOffer(handed, longer, x) {
      assert HadOffer(handed, offered, x);
    }
    forall t ensures OfferedFirst(more, longer, t) {
      assert OfferedFirst(recipients, offered, t);
      if t in recipients {
        var i :| 0 <= i < |offered| && offered[i].target == t;
        assert longer[i] == offered[i];
      }
    }
  }

  /** It takes the address. */
  lemma {:induction false} OneMoreTaken(recipients: map<nat, seq<string>>, more: map<nat, seq<string>>, handed: seq<Handover>,
                                        offered: seq<Handover>, h: Handover)
    requires Offers(recipients, handed, offered) && more.Keys == recipients.Keys && h in offered
    ensures Offers(more, handed + [h], offered)
  {
    forall x ensures HadOffer(handed + [h], offered, x) {
      assert HadOffer(handed, offered, x);
    }
    forall t ensures OfferedFirst(more, offered, t) {
      assert OfferedFirst(recipients, offered, t);
    }
  }

  lemma {:induction false} OneMoreVetted(env: Env, config: Config, source: SourceBlock, reached: set<RcptBlock>, t: Trail, offered: seq<Handover>,
                                         h: Handover)
    requires AllVetted(env, config, source, reached, t, offered) && Vetted(env, config, source, reached, t, h)
    ensures AllVetted(env, config, source, reached, t, offered + [h])
  {
    var longer := offered + [h];
    forall i | 0 <= i < |longer| ensures Vetted(env, config, source, reached, t, longer[i]) {
      assert i < |offered| ==> longer[i] == offered[i];
    }
  }

  // ---------------------------------------------------------------- passing the body checks

  /** Every one of these lists had its body batch since then, and no body batch rejected. */
  ghost predicate AllPassed(history: seq<BatchRecord>, from: nat, states: map<Check, nat>, lists: set<seq<Check>>) {
    BodiesClear(history) && forall list :: list in lists ==> Passed(history, from, states, list, Body)
  }

  lemma {:induction false} AllStillPassed(a: seq<BatchRecord>, b: seq<BatchRecord>, from: nat, s: map<Check, nat>, t: map<Check, nat>, lists: set<seq<Check>>)
    requires a <= b && Kept(s, t) && AllPassed(a, from, s, lists) && NoneRejected(b, |a|)
    ensures AllPassed(b, from, t, lists)
  {
    forall list | list in lists ensures Passed(b, from, t, list, Body) {
      StillPassed(a, b, from, s, t, list, Body);
    }
  }

  // ---------------------------------------------------------------- senders

  /** The states of these checks, leaving out the others, were shown this sender when they were created. */
  ghost predicate ShownSender(checks: seq<Check>, others: seq<Check>, states: map<Check, nat>, logs: seq<Log>, from: string) {
    forall c :: c in checks && c !in others ==> OpenedAt(states, logs, Missed(from, []), c)
  }

  lemma {:induction false} StillShownSender(checks: seq<Check>, others: seq<Check>, s: map<Check, nat>, t: map<Check, nat>, a: seq<Log>, b: seq<Log>,
                                            from: string)
    requires ShownSender(checks, others, s, a, from) && Kept(s, t) && Extends(a, b) && Registered(t, b)
    ensures ShownSender(checks, others, t, b, from)
  {
    forall c | c in checks && c !in others ensures OpenedAt(t, b, Missed(from, []), c) {
      assert OpenedAt(s, a, Missed(from, []), c) && KeptAt(s, t, c) && ExtendsAt(a, b, s[c]) && RegisteredAt(t, b, c);
    }
  }

  lemma {:induction false} LateShownSender(checks: seq<Check>, others: seq<Check>, before: map<Check, nat>, states: map<Check, nat>, logs: seq<Log>,
                                           from: string)
    requires LateCaughtUp(checks, before, states, logs, Missed(from, [])) && forall c :: c in before ==> c in others
    ensures ShownSender(checks, others, states, logs, from)
  {
    forall c | c in checks && c !in others ensures OpenedAt(states, logs, Missed(from, []), c) {
      assert CaughtUpAt(states, logs, Missed(from, []), c);
      CaughtUpOpened(logs[states[c]]);
    }
  }

  // ---------------------------------------------------------------- the delivery object

  class Delivery {
    const config: Config
    const env: Env
    const runner: Runner
    /** Whether the message was marked for quarantine when it came. */
    ghost const marked: bool
    var source: Option<SourceBlock>
    /** The recipient blocks that have a modifier state for this message. */
    var reached: set<RcptBlock>
    /** The targets with a delivery of their own, and the recipients, as presented, each is used for. */
    var recipients: map<nat, seq<string>>
    /** What targets were asked to take, and what of it they took. */
    ghost var offered: seq<Handover>
    ghost var handed: seq<Handover>
    ghost var bodies: seq<nat>
    ghost var bodyCalled: bool

    constructor (config: Config, env: Env, domains: Domains, quarantined: bool)
      ensures this.config == config && this.env == env && fresh(runner) && fresh(runner.verifier) && marked == quarantined
      ensures runner.Valid() && runner.clean && !runner.reclosed && Fetching() && runner.states == map[] && runner.checkedRcpts == []
      ensures runner.verifier.domains == domains
      ensures source.None? && reached == {} && recipients == map[] && offered == handed == [] && bodies == [] && !bodyCalled
    {
      this.config, this.env, marked := config, env, quarantined;
      runner := new Runner(config.doDMARC, domains, quarantined);
      source, reached, recipients := None, {}, map[];
      offered, handed, bodies, bodyCalled := [], [], [], false;
    }

    ghost function Now(): Trail
      reads runner`states, runner`logs, runner`history
    {
      Trail(runner.states, runner.logs, runner.history)
    }

    /** Until the body comes, the DMARC record has not been asked for, and no check has been shown the body. */
    ghost predicate Fetching()
      reads `bodyCalled, runner`didFetch, runner`history, runner`msgQuarantine, runner.verifier
    {
      && runner.doDMARC == config.doDMARC && runner.msgQuarantine == marked
      && (!bodyCalled ==> !runner.didFetch && runner.verifier.fetched.None? && NoBodies([], runner.history))
    }

    /** The blocks in use are blocks of the configuration, and every target that was given an address has
        a delivery. */
    ghost predicate Placed()
      reads `source, `reached, `recipients, `handed
    {
      source.Some? && Among(config.sources, source.value) && OwnBlocks(source.value, reached) && Delivered(recipients, handed)
    }

    /** No target has been asked to take an address that has not been let through to it. */
    ghost predicate Vetting()
      reads `source, `reached, `recipients, `handed, `offered, runner`states, runner`logs, runner`history
    {
      && source.Some? && Offers(recipients, handed, offered)
      && AllVetted(env, config, source.value, reached, Now(), offered)
    }

    ghost predicate Running()
      reads runner
    {
      runner.Valid() && (Tidy(config) ==> runner.clean)
    }

    /** When the checks have run. */
    ghost predicate Ending()
      reads runner
    {
      runner.Books() && (Tidy(config) ==> runner.clean)
    }

    ghost predicate Valid()
      reads this, runner, runner.verifier
    {
      Running() && runner.mailFromReceived && Fetching() && Placed() && Vetting()
    }

    /** The connection and sender checks, sender rewriting and the choice of a source block. */
    method Begin(mailFrom: string) returns (err: Option<Reason>)
      requires Running() && Fetching() && !bodyCalled && source.None? && reached == {} && Delivered(recipients, handed)
      requires recipients == map[] && handed == offered == [] && runner.states == map[] && runner.checkedRcpts == []
      modifies `source, runner
      ensures Running() && Fetching() && runner.didFetch == old(runner.didFetch)
      ensures err.None? ==> Valid() && Chose(mailFrom) && Greeted(mailFrom)
      ensures err.None? ==> AllIn(config.checks, runner.states) && AllIn(source.value.checks, runner.states)
    {
      err := runner.CheckConnSender(config.checks, mailFrom);
      if err.None? {
        LateShownSender(config.checks, [], map[], runner.states, runner.logs, mailFrom);
        var refused: bool := *;
        if refused {
          err := Some(Reason("no modifier state"));
        } else {
          err := BeginRest(mailFrom);
        }
      }
    }

    method BeginRest(ghost mailFrom: string) returns (err: Option<Reason>)
      requires Running() && Fetching() && !bodyCalled && reached == {} && Delivered(recipients, handed)
      requires recipients == map[] && handed == offered == [] && runner.checkedRcpts == [] && runner.mailFrom == mailFrom
      requires runner.states.Keys == (set c | c in config.checks) && ShownSender(config.checks, [], runner.states, runner.logs, mailFrom)
      modifies `source, runner
      ensures Running() && Fetching() && runner.didFetch == old(runner.didFetch)
      ensures err.None? ==> Valid() && Chose(mailFrom) && Greeted(mailFrom)
      ensures err.None? ==> AllIn(config.checks, runner.states) && AllIn(source.value.checks, runner.states)
    {
      var from := Rewrite.RewriteSender(GroupOf(env, config.modifiers), runner.mailFrom);
      if from.Err? {
        err := Some(Reason(from.error));
      } else {
        err := Choose(from.value);
        if err.None? {
          err := BeginSource(from.value, mailFrom);
        }
      }
    }

    /** The source block is the one for the sender as the global modifiers leave it, and later states are
        shown that sender. */
    ghost predicate Chose(mailFrom: string)
      reads `source, runner`mailFrom
    {
      var from := Rewrite.Sender(GroupOf(env, config.modifiers), mailFrom);
      from.Ok? && SourceRoute(config, env.normalize, from.value) == Ok(source) && runner.mailFrom == from.value
    }

    /** The states of the global checks were shown the sender as it was presented, and those of the other
        source checks the sender as the global modifiers leave it. */
    ghost predicate Greeted(mailFrom: string)
      reads `source, runner`mailFrom, runner`states, runner`logs
    {
      && source.Some?
      && ShownSender(config.checks, [], runner.states, runner.logs, mailFrom)
      && ShownSender(source.value.checks, config.checks, runner.states, runner.logs, runner.mailFrom)
    }

    method Choose(from: string) returns (err: Option<Reason>)
      modifies `source
      ensures err.None? ==> source.Some? && Among(config.sources, source.value)
      ensures err.None? ==> SourceRoute(config, env.normalize, from) == Ok(source)
    {
      var route := SrcBlockForAddr(config, env.normalize, from);
      if route.Err? {
        return Some(Reason("invalid sender address"));
      }
      if route.value.None? {
        return Some(Reason("no source block"));
      }
      source := route.value;
      return None;
    }

    method BeginSource(from: string, ghost mailFrom: string) returns (err: Option<Reason>)
      requires Running() && Fetching() && !bodyCalled && Placed() && runner.checkedRcpts == []
      requires recipients == map[] && handed == offered == []
      requires runner.states.Keys == (set c | c in config.checks) && ShownSender(config.checks, [], runner.states, runner.logs, mailFrom)
      modifies runner
      ensures Running() && Fetching() && runner.didFetch == old(runner.didFetch)
      ensures err.None? ==> Valid() && runner.mailFrom == from && Greeted(mailFrom)
      ensures err.None? ==> AllIn(config.checks, runner.states) && AllIn(source.value.checks, runner.states)
    {
      TidyLists(config, source.value);
      ghost var before := Now();
      err := runner.CheckConnSender(source.value.checks, from);
      if err.None? {
        StillShownSender(config.checks, [], before.states, runner.states, before.logs, runner.logs, mailFrom);
        LateShownSender(source.value.checks, config.checks, before.states, runner.states, runner.logs, from);
        err := EnterSource(from);
      }
    }

    /** The modifier state of the source, and what its modifiers say of the sender. */
    method EnterSource(from: string) returns (err: Option<Reason>)
      requires source.Some?
    {
      var refused: bool := *;
      if refused {
        return Some(Reason("no modifier state"));
      }
      var sender := Rewrite.RewriteSender(GroupOf(env, source.value.modifiers), from);
      if sender.Err? {
        return Some(Reason(sender.error));
      }
      return None;
    }

    /** Presents a recipient: it is judged by the checks, rewritten, and handed over to the targets. */
    method AddRcpt(to: string) returns (err: Option<Reason>)
      requires Valid() && !bodyCalled
      modifies `reached, `recipients, `handed, `offered, runner
      ensures Valid() && old(handed) <= handed && old(reached) <= reached && Grown(old(Now()), Now())
      ensures OffersFor(old(offered), offered, to)
      ensures err.None? ==> Plan(env, config, source.value, to).Some?
      ensures err.None? ==> handed == old(handed) + Plan(env, config, source.value, to).value
      ensures err.None? ==> Admitted(config, source.value, Now(), to)
      ensures err.None? ==> AllArrived(env, source.value, reached, Now(), Rewritten(env, config, source.value, to).value)
    {
      err := Judge(to);
      if err.None? {
        var list := RewriteStages(to);
        if list.Err? {
          err := Some(Reason(list.error));
        } else {
          ghost var before := Now();
          err := AddEach(list.value, to);
          GrownOn(old(Now()), before, Now());
          StillAdmitted(config, source.value, before, Now(), to);
        }
      }
    }

    method Judge(to: string) returns (err: Option<Reason>)
      requires Valid() && !bodyCalled
      modifies runner
      ensures Valid() && Grown(old(Now()), Now())
      ensures err.None? ==> Admitted(config, source.value, Now(), to)
    {
      TidyLists(config, source.value);
      err := Ask(config.checks, to);
      if err.None? {
        ghost var before := Now();
        err := Ask(source.value.checks, to);
        GrownOn(old(Now()), before, Now());
        ClearedStays(config.checks, before, Now(), to);
      }
    }

    /** Presents a recipient to the checks of a list. */
    method Ask(checks: seq<Check>, to: string) returns (err: Option<Reason>)
      requires Valid() && !bodyCalled && (Tidy(config) ==> NoDuplicates(checks))
      modifies runner
      ensures Valid() && Grown(old(Now()), Now())
      ensures err.None? ==> ClearedBy(checks, Now(), to)
    {
      ghost var shown;
      err, shown := runner.CheckRcpt(checks, to);
      StillVetted(env, config, source.value, reached, reached, old(Now()), Now(), offered);
    }

    method RewriteStages(to: string) returns (r: Result<seq<string>, string>)
      requires source.Some?
      ensures r == Rewritten(env, config, source.value, to)
    {
      r := Rewrite.RewriteRcpt(GroupOf(env, config.modifiers), to);
      if r.Ok? {
        r := Rewrite.RewriteAll(GroupOf(env, source.value.modifiers), r.value);
      }
    }

    method AddEach(list: seq<string>, original: string) returns (err: Option<Reason>)
      requires Valid() && !bodyCalled && Admitted(config, source.value, Now(), original)
      requires Rewritten(env, config, source.value, original) == Ok(list)
      modifies `reached, `recipients, `handed, `offered, runner
      ensures Valid() && old(handed) <= handed && old(reached) <= reached && Grown(old(Now()), Now())
      ensures OffersFor(old(offered), offered, original)
      ensures err.None? ==> PlanEach(env, source.value, list, original).Some?
      ensures err.None? ==> handed == old(handed) + PlanEach(env, source.value, list, original).value
      ensures err.None? ==> AllArrived(env, source.value, reached, Now(), list)
    {
      var i := 0;
      err := None;
      ghost var start, handed0, reached0, offered0 := Now(), handed, reached, offered;
      GrownSelf(start);
      while i < |list| && err.None?
        invariant 0 <= i <= |list| && Valid() && Along(start, handed0, reached0, offered0, original)
        invariant err.None? ==> Done(handed0, list[..i], original)
      {
        err := AddNext(list, i, original, start, handed0, reached0, offered0);
        i := i + 1;
      }
      assert err.None? ==> list[..i] == list;
    }

    /** Nothing was taken back since the start, the recipient is still admitted, and all offers since are for it. */
    ghost predicate Along(start: Trail, handed0: seq<Handover>, reached0: set<RcptBlock>, offered0: seq<Handover>, original: string)
      reads `source, `reached, `handed, `offered, runner`states, runner`logs, runner`history
    {
      && source.Some? && handed0 <= handed && reached0 <= reached && Grown(start, Now())
      && OffersFor(offered0, offered, original) && Admitted(config, source.value, Now(), original)
    }

    /** The address at position `i`, after those before it. */
    method AddNext(list: seq<string>, i: nat, original: string, ghost start: Trail, ghost handed0: seq<Handover>, ghost reached0: set<RcptBlock>,
                   ghost offered0: seq<Handover>) returns (err: Option<Reason>)
      requires Valid() && !bodyCalled && i < |list| && Rewritten(env, config, source.value, original) == Ok(list)
      requires Along(start, handed0, reached0, offered0, original) && Done(handed0, list[..i], original)
      modifies `reached, `recipients, `handed, `offered, runner
      ensures Valid() && Along(start, handed0, reached0, offered0, original)
      ensures err.None? ==> Done(handed0, list[..i + 1], original)
    {
      ghost var before, handed1, reached1, offered1 := Now(), handed, reached, offered;
      err := AddOne(list[i], original);
      OffersTwice(offered0, offered1, offered, original);
      GrownOn(start, before, Now());
      StillAdmitted(config, source.value, before, Now(), original);
      if err.None? {
        DoneNext(env, source.value, handed0, handed1, handed, reached1, reached, before, Now(), list, i, original);
      }
    }

    /** These addresses have been handed over as planned. */
    ghost predicate Done(before: seq<Handover>, list: seq<string>, original: string)
      requires source.Some?
      reads `source, `reached, `handed, runner`states, runner`logs, runner`history
    {
      AsPlanned(env, source.value, before, handed, reached, Now(), list, original)
    }

    method AddOne(to: string, original: string) returns (err: Option<Reason>)
      requires Valid() && !bodyCalled && Admitted(config, source.value, Now(), original)
      requires Becomes(env, config, source.value, original, to)
      modifies `reached, `recipients, `handed, `offered, runner
      ensures Valid() && old(handed) <= handed && old(reached) <= reached && Grown(old(Now()), Now())
      ensures OffersFor(old(offered), offered, original)
      ensures err.None? ==> PlanOne(env, source.value, to, original).Some?
      ensures err.None? ==> handed == old(handed) + PlanOne(env, source.value, to, original).value
      ensures err.None? ==> Arrived(env, source.value, reached, Now(), to)
    {
      GrownSelf(Now());
      var route := RcptBlockForAddr(source.value, env.normalize, to);
      if route.Err? {
        err := Some(Reason("invalid recipient address"));
      } else if route.value.None? {
        err := Some(Reason("no recipient block"));
      } else if route.value.value.reject.Some? {
        err := route.value.value.reject;
      } else {
        err := Enter(route.value.value, to, original);
      }
    }

    /** The way of an address through its block. */
    method Enter(block: RcptBlock, to: string, original: string) returns (err: Option<Reason>)
      requires Valid() && !bodyCalled && Admitted(config, source.value, Now(), original)
      requires Becomes(env, config, source.value, original, to) && RcptRoute(source.value, env.normalize, to) == Ok(Some(block))
      requires block.reject.None?
      modifies `reached, `recipients, `handed, `offered, runner
      ensures Valid() && old(handed) <= handed && old(reached) <= reached && Grown(old(Now()), Now())
      ensures OffersFor(old(offered), offered, original)
      ensures err.None? ==> PlanOne(env, source.value, to, original).Some?
      ensures err.None? ==> handed == old(handed) + PlanOne(env, source.value, to, original).value
      ensures err.None? ==> Arrived(env, source.value, reached, Now(), to)
    {
      RoutedAmong(source.value, env.normalize, to);
      err := Reach(block, to);
      if err.None? {
        var finals := Rewrite.RewriteRcpt(GroupOf(env, block.modifiers), to);
        if finals.Err? {
          err := Some(Reason(finals.error));
        } else {
          StillAdmitted(config, source.value, old(Now()), Now(), original);
          BlockPermits(env, config, source.value, reached, Now(), block, to, original);
          err := HandAll(block.targets, finals.value, original);
        }
      }
    }

    /** The block's checks, and its modifier state, made when the block is first used. */
    method Reach(block: RcptBlock, to: string) returns (err: Option<Reason>)
      requires Valid() && !bodyCalled && Among(source.value.rcpts, block)
      modifies `reached, runner
      ensures Valid() && old(reached) <= reached && Grown(old(Now()), Now())
      ensures err.None? ==> block in reached && ClearedBy(block.checks, Now(), to)
    {
      TidyBlocks(config, source.value, block);
      err := Ask(block.checks, to);
      if err.None? && block !in reached {
        var refused: bool := *;
        if refused {
          err := Some(Reason("no modifier state"));
        } else {
          GrownSelf(Now());
          StillVetted(env, config, source.value, reached, reached + {block}, Now(), Now(), offered);
          OneMoreBlock(source.value, reached, block);
          reached := reached + {block};
        }
      }
    }

    method HandAll(targets: seq<nat>, finals: seq<string>, original: string) returns (err: Option<Reason>)
      requires Placed() && Vetting() && Permitted(env, config, source.value, reached, Now(), targets, finals, original)
      modifies `recipients, `handed, `offered
      ensures Placed() && Vetting() && old(handed) <= handed && OffersFor(old(offered), offered, original)
      ensures err.None? ==> handed == old(handed) + ToAll(targets, finals, original)
    {
      var i := 0;
      err := None;
      ghost var all := old(handed) + ToAll(targets, finals, original);
      assert finals[0..] == finals;
      while i < |finals| && err.None?
        invariant 0 <= i <= |finals| && Placed() && Vetting() && old(handed) <= handed && OffersFor(old(offered), offered, original)
        invariant err.None? ==> handed + ToAll(targets, finals[i..], original) == all
      {
        assert finals[i..][0] == finals[i] && finals[i..][1..] == finals[i + 1..];
        ConcatAssoc(handed, ToTargets(targets, finals[i], original), ToAll(targets, finals[i + 1..], original));
        PermittedOne(env, config, source.value, reached, Now(), targets, finals, i, original);
        ghost var offered1 := offered;
        err := HandOver(targets, finals[i], original);
        OffersTwice(old(offered), offered1, offered, original);
        i := i + 1;
      }
    }

    /** One address, to every target of its block; a target's delivery is started when it is first needed. */
    method HandOver(targets: seq<nat>, to: string, original: string) returns (err: Option<Reason>)
      requires Placed() && Vetting() && Permitted(env, config, source.value, reached, Now(), targets, [to], original)
      modifies `recipients, `handed, `offered
      ensures Placed() && Vetting() && old(handed) <= handed && OffersFor(old(offered), offered, original)
      ensures err.None? ==> handed == old(handed) + ToTargets(targets, to, original)
    {
      var k := 0;
      err := None;
      while k < |targets| && err.None?
        invariant 0 <= k <= |targets| && Placed() && Vetting() && old(handed) <= handed && OffersFor(old(offered), offered, original)
        invariant err.None? ==> HandedTo(old(handed), handed, targets, k, to, original)
      {
        ghost var handed1, offered1 := handed, offered;
        assert Vetted(env, config, source.value, reached, Now(), Handover(targets[k], [to][0], original));
        err := GiveTo(targets[k], to, original);
        OffersOn(old(offered), offered1, Handover(targets[k], to, original), offered);
        if err.None? {
          HandedNext(old(handed), handed1, targets, k, to, original);
        }
        k := k + 1;
      }
      assert err.None? ==> ToTargets(targets, to, original)[..k] == ToTargets(targets, to, original);
    }

    method GiveTo(t: nat, to: string, original: string) returns (err: Option<Reason>)
      requires Placed() && Vetting() && Vetted(env, config, source.value, reached, Now(), Handover(t, to, original))
      modifies `recipients, `handed, `offered
      ensures Placed() && Vetting()
      ensures handed == old(handed) + if err.None? then [Handover(t, to, original)] else []
      ensures offered == old(offered) || offered == old(offered) + [Handover(t, to, original)]
    {
      err := StartDelivery(t, to, original);
      if err.None? {
        var rejected: bool := *;
        if rejected {
          err := Some(Reason("recipient refused by target"));
        } else {
          Take(t, to, original);
        }
      }
    }

    method Take(t: nat, ghost to: string, original: string)
      requires Placed() && Vetting() && t in recipients && Handover(t, to, original) in offered
      modifies `recipients, `handed
      ensures Placed() && Vetting() && handed == old(handed) + [Handover(t, to, original)]
    {
      ghost var h := Handover(t, to, original);
      var more := recipients[t := recipients[t] + [original]];
      DeliveryUsed(recipients, handed, h);
      OneMoreTaken(recipients, more, handed, offered, h);
      recipients, handed := more, handed + [h];
    }

    /** The delivery of the target, which is then asked to take the address. */
    method StartDelivery(t: nat, ghost to: string, ghost original: string) returns (err: Option<Reason>)
      requires Placed() && Vetting() && Vetted(env, config, source.value, reached, Now(), Handover(t, to, original))
      modifies `recipients, `offered
      ensures Placed() && Vetting() && (err.None? ==> t in recipients)
      ensures offered == old(offered) + if err.None? then [Handover(t, to, original)] else []
    {
      err := None;
      var more := recipients;
      if t !in recipients {
        var refused: bool := *;
        if refused {
          err := Some(Reason("delivery not started"));
        } else {
          DeliveryStarted(recipients, handed, t);
          more := recipients[t := []];
        }
      }
      if err.None? {
        ghost var h := Handover(t, to, original);
        OneMoreOffered(recipients, more, handed, offered, h);
        OneMoreVetted(env, config, source.value, reached, Now(), offered, h);
        recipients, offered := more, offered + [h];
      }
    }

    // ------------------------------------------------------------- the body

    /** The check lists whose body checks decide about the message. */
    ghost function Lists(): set<seq<Check>>
      reads `source, `reached
      requires source.Some?
    {
      ListsOf(config, source.value, reached)
    }

    /** What holds when the body goes out. */
    ghost predicate Safe(from: nat, lookup: Lookup, draw: nat)
      requires source.Some?
      reads `source, `reached, runner`history, runner`states, runner`quarantine, runner`msgQuarantine, runner`auth, runner`judged
    {
      && AllPassed(runner.history, from, runner.states, Lists())
      && Heeded(config.doDMARC, runner.verifier.domains, lookup, draw, runner.history, runner.quarantine, runner.auth, runner.judged, runner.msgQuarantine)
    }

    ghost predicate SafeSent(lookup: Lookup, draw: nat)
      reads `source, `reached, runner`history, runner`states, runner`quarantine, runner`msgQuarantine, runner`auth, runner`judged
    {
      source.Some? && exists from: nat :: Safe(from, lookup, draw)
    }

    /** What holds whether the body goes out or not. */
    ghost predicate Decided(lookup: Lookup, draw: nat)
      reads runner`history, runner`quarantine, runner`msgQuarantine, runner`judged
    {
      Weighed(config.doDMARC, runner.verifier.domains, lookup, draw, runner.history, runner.quarantine, runner.judged, marked, runner.msgQuarantine)
    }

    /** Every check of every list was shown the body and did not reject it. */
    ghost predicate Unrejected()
      requires source.Some?
      reads `source, `reached, runner`states, runner`logs
    {
      forall list, c :: list in Lists() && c in list ==>
        c in runner.states && runner.states[c] < |runner.logs| && LetBodyPass(runner.logs[runner.states[c]])
    }

    /** While the body checks run: the runner is sound and holds the DMARC lookup, once it has started it. */
    ghost predicate Checking(lookup: Lookup)
      reads `bodyCalled, runner, runner.verifier
    {
      && Running() && runner.mailFromReceived && runner.doDMARC == config.doDMARC && runner.msgQuarantine == marked
      && runner.verifier.fetched == if runner.didFetch then Some(lookup) else None
    }

    /** One list; what has passed before still has. */
    method CheckList(checks: seq<Check>, lookup: Lookup, ghost from: nat, ghost lists: set<seq<Check>>) returns (err: Option<Reason>)
      requires Checking(lookup) && (Tidy(config) ==> NoDuplicates(checks)) && from <= |runner.history|
      requires AllPassed(runner.history, from, runner.states, lists)
      modifies runner, runner.verifier
      ensures Checking(lookup) && from <= |runner.history| && Grown(old(Now()), Now())
      ensures err.None? ==> AllPassed(runner.history, from, runner.states, lists + {checks}) && (config.doDMARC ==> runner.didFetch)
    {
      ghost var states0, history0 := runner.states, runner.history;
      ghost var shown;
      err, shown := runner.CheckBody(checks, lookup);
      if err.None? {
        OneMorePassed(history0, runner.history, from, states0, runner.states, lists, checks);
      }
    }

    method RunBodyChecks(lookup: Lookup, ghost from: nat) returns (err: Option<Reason>)
      requires Checking(lookup) && Placed() && from <= |runner.history| && BodiesClear(runner.history)
      modifies runner, runner.verifier
      ensures Checking(lookup) && Grown(old(Now()), Now())
      ensures err.None? ==> AllPassed(runner.history, from, runner.states, Lists()) && (config.doDMARC ==> runner.didFetch)
    {
      TidyLists(config, source.value);
      ghost var lists := {};
      err := CheckList(config.checks, lookup, from, lists);
      if err.None? {
        lists := lists + {config.checks};
        ghost var before := Now();
        err := CheckList(source.value.checks, lookup, from, lists);
        GrownOn(old(Now()), before, Now());
      }
      if err.None? {
        lists := lists + {source.value.checks};
        ghost var before := Now();
        err, lists := CheckReached(lookup, from, lists);
        GrownOn(old(Now()), before, Now());
      }
    }

    /** The body checks of the blocks in use, in any order. */
    method CheckReached(lookup: Lookup, ghost from: nat, ghost lists: set<seq<Check>>)
      returns (err: Option<Reason>, ghost all: set<seq<Check>>)
      requires Checking(lookup) && Placed() && from <= |runner.history| && (config.doDMARC ==> runner.didFetch)
      requires AllPassed(runner.history, from, runner.states, lists)
      modifies runner, runner.verifier
      ensures Checking(lookup) && Grown(old(Now()), Now())
      ensures lists <= all && (forall b :: b in reached ==> err.None? ==> b.checks in all)
      ensures err.None? ==> AllPassed(runner.history, from, runner.states, all) && (config.doDMARC ==> runner.didFetch)
    {
      all := lists;
      err := None;
      GrownSelf(Now());
      var todo := reached;
      while todo != {} && err.None?
        invariant todo <= reached && Checking(lookup) && from <= |runner.history| && Grown(old(Now()), Now())
        invariant err.None? ==> AllPassed(runner.history, from, runner.states, all) && (config.doDMARC ==> runner.didFetch)
        invariant lists <= all && forall b :: b in reached - todo ==> err.None? ==> b.checks in all
        decreases todo
      {
        var b :| b in todo;
        ghost var before := Now();
        assert OwnBlock(source.value, reached, b);
        TidyBlocks(config, source.value, b);
        err := CheckList(b.checks, lookup, from, all);
        GrownOn(old(Now()), before, Now());
        all := all + {b.checks};
        todo := todo - {b};
      }
    }

    /** Sends the body to every target's delivery, in any order, until one fails. */
    method SendBodies() returns (err: Option<Reason>)
      modifies `bodies
      ensures multiset(bodies) <= multiset(old(bodies)) + multiset(recipients.Keys)
      ensures err.None? ==> multiset(bodies) == multiset(old(bodies)) + multiset(recipients.Keys)
    {
      err := None;
      var todo := recipients.Keys;
      while todo != {} && err.None?
        invariant todo <= recipients.Keys
        invariant multiset(bodies) + multiset(todo) == multiset(old(bodies)) + multiset(recipients.Keys)
        decreases todo
      {
        var t :| t in todo;
        assert multiset(todo) == multiset(todo - {t}) + multiset{t};
        bodies := bodies + [t];
        todo := todo - {t};
        var failed: bool := *;
        if failed {
          err := Some(Reason("body refused by target"));
        }
      }
    }

    /** The body: no target is sent it unless it is safe to. */
    method Body(lookup: Lookup, draw: nat) returns (err: Option<Reason>)
      requires Valid() && !bodyCalled
      modifies `bodyCalled, `bodies, runner, runner.verifier
      ensures Ending() && Placed() && Vetting() && Decided(lookup, draw)
      ensures bodies != old(bodies) || err.None? ==> Safe(|old(runner.history)|, lookup, draw)
      ensures multiset(bodies) <= multiset(old(bodies)) + multiset(recipients.Keys)
      ensures err.None? ==> multiset(bodies) == multiset(old(bodies)) + multiset(recipients.Keys)
    {
      err := Consider(lookup, draw);
      if err.None? {
        var refused: bool := *;
        if refused {
          err := Some(Reason("body refused by modifier"));
        } else {
          err := SendBodies();
        }
      }
    }

    /** Runs the body checks and decides about the message. */
    method Consider(lookup: Lookup, draw: nat) returns (err: Option<Reason>)
      requires Valid() && !bodyCalled
      modifies `bodyCalled, runner, runner.verifier
      ensures Ending() && Placed() && Vetting() && Decided(lookup, draw)
      ensures err.None? ==> Safe(|old(runner.history)|, lookup, draw)
    {
      ghost var from := |runner.history|;
      err := AskAll(lookup);
      if err.None? {
        err := Release(lookup, draw, from);
      }
    }

    /** Shows the body to all checks. */
    method AskAll(lookup: Lookup) returns (err: Option<Reason>)
      requires Valid() && !bodyCalled
      modifies `bodyCalled, runner, runner.verifier
      ensures Checking(lookup) && Vetting()
      ensures err.None? ==> AllPassed(runner.history, |old(runner.history)|, runner.states, Lists()) && (config.doDMARC ==> runner.didFetch)
    {
      bodyCalled := true;
      err := RunBodyChecks(lookup, |runner.history|);
      StillVetted(env, config, source.value, reached, reached, old(Now()), Now(), offered);
    }

    /** Adds the Received field and the results of the checks, and decides about the message. */
    method Release(lookup: Lookup, draw: nat, ghost from: nat) returns (err: Option<Reason>)
      requires Checking(lookup) && Placed() && (config.doDMARC ==> runner.didFetch)
      requires AllPassed(runner.history, from, runner.states, Lists())
      modifies runner`auth, runner`msgQuarantine, runner`judged, runner.verifier
      ensures Ending() && Decided(lookup, draw) && (err.None? ==> Safe(from, lookup, draw))
    {
      var failed: bool := *;
      if failed {
        NotJudged(lookup, draw);
        err := Some(Reason("no Received field"));
      } else {
        err := Decide(lookup, draw, from);
      }
    }

    lemma {:induction false} NotJudged(lookup: Lookup, draw: nat)
      requires Checking(lookup)
      ensures Ending() && Decided(lookup, draw)
    {
    }

    method Decide(ghost lookup: Lookup, draw: nat, ghost from: nat) returns (err: Option<Reason>)
      requires Checking(lookup) && Placed() && (config.doDMARC ==> runner.didFetch)
      requires AllPassed(runner.history, from, runner.states, Lists())
      modifies runner`auth, runner`msgQuarantine, runner`judged, runner.verifier
      ensures Ending() && Decided(lookup, draw) && (err.None? ==> Safe(from, lookup, draw))
    {
      NotJudged(lookup, draw);
      err := Apply(lookup, draw);
    }

    method Apply(ghost lookup: Lookup, draw: nat) returns (err: Option<Reason>)
      requires Checking(lookup) && (config.doDMARC ==> runner.didFetch)
      modifies runner`auth, runner`msgQuarantine, runner`judged, runner.verifier
      ensures Decided(lookup, draw)
      ensures err.None? ==> Heeded(config.doDMARC, runner.verifier.domains, lookup, draw, runner.history, runner.quarantine, runner.auth,
                                   runner.judged, runner.msgQuarantine)
    {
      assert GatheredBy(runner.history, runner.auth, runner.header, |runner.history|);
      assert Holds(OnTape(), OfBatches);
      var results, fields;
      err, results, fields := runner.ApplyResults(draw);
    }

    // ------------------------------------------------------------- the end

    /** Every check state made for the message has been closed, and exactly once if no list of states that could
        not be obtained named an earlier one. Without tidy lists the runner knows whether one is left open. */
    ghost predicate AllClosed()
      reads runner
    {
      && (runner.clean <==> EachClosed(runner.logs)) && (Tidy(config) ==> EachClosed(runner.logs))
      && (runner.clean && !runner.reclosed <==> EachOnce(runner.logs))
    }

    /** What is on record about the message. */
    ghost function OnTape(): Tape
      reads runner
    {
      Tape(runner.logs, runner.seen, runner.checkedRcpts, runner.history, runner.quarantine)
    }

    method Close()
      requires Ending()
      modifies runner`logs
      ensures AllClosed() && Traced(runner.states, OnTape()) && Grown(old(Now()), Now())
    {
      ghost var before, tape := Now(), OnTape();
      runner.Close();
      ClosedTrail(before.states, before.logs, runner.logs, before.history);
      SoundStill(tape, runner.logs);
      ClosingKeeps(before.logs, runner.logs, runner.states);
      SoundIsTraced(runner.states, OnTape());
    }

    /** Closes the check states and commits the targets' deliveries, until one fails. */
    method Commit() returns (err: Option<Reason>, ghost ended: multiset<nat>)
      requires Ending()
      modifies runner`logs
      ensures AllClosed() && Traced(runner.states, OnTape()) && Grown(old(Now()), Now())
      ensures ended <= multiset(recipients.Keys) && (err.None? ==> ended == multiset(recipients.Keys))
    {
      Close();
      ended, err := multiset{}, None;
      var todo := recipients.Keys;
      while todo != {} && err.None?
        invariant todo <= recipients.Keys
        invariant if err.None? then ended + multiset(todo) == multiset(recipients.Keys) else ended <= multiset(recipients.Keys)
        decreases todo, err.None?
      {
        var t :| t in todo;
        assert multiset(todo) == multiset(todo - {t}) + multiset{t};
        var failed: bool := *;
        if failed {
          err := Some(Reason("commit failed"));
        } else {
          ended := ended + multiset{t};
          todo := todo - {t};
        }
      }
    }

    /** Closes the check states and aborts every delivery, whatever goes wrong. */
    method Abort() returns (err: Option<Reason>, ghost ended: multiset<nat>)
      requires Ending()
      modifies runner`logs
      ensures AllClosed() && Traced(runner.states, OnTape()) && Grown(old(Now()), Now())
      ensures ended == multiset(recipients.Keys)
    {
      Close();
      err, ended := None, multiset{};
      var todo := recipients.Keys;
      while todo != {}
        invariant todo <= recipients.Keys && ended + multiset(todo) == multiset(recipients.Keys)
        decreases todo
      {
        var t :| t in todo;
        assert multiset(todo) == multiset(todo - {t}) + multiset{t};
        var failed: bool := *;
        if failed {
          err := Some(Reason("abort failed"));
        }
        ended := ended + multiset{t};
        todo := todo - {t};
      }
    }
  }

  function ListsOf(config: Config, source: SourceBlock, reached: set<RcptBlock>): set<seq<Check>> {
    {config.checks, source.checks} + set b | b in reached :: b.checks
  }

  ghost predicate JudgedFrom(domains: Domains, lookup: Lookup, auth: seq<AuthResult>, draw: nat, applied: Applied) {
    applied == ApplyPolicy(domains, lookup, auth, draw)
  }

  /** What DMARC makes of the results that the batches merged. */
  ghost predicate JudgedOn(domains: Domains, lookup: Lookup, history: seq<BatchRecord>, draw: nat, applied: Applied) {
    forall auth :: auth == AuthsOf(history) ==> JudgedFrom(domains, lookup, auth, draw, applied)
  }

  /** DMARC, asked about all that the batches merged, does not reject, and the message is marked if a batch that
      did not reject quarantined it, or DMARC does. */
  ghost predicate Heeded(doDMARC: bool, domains: Domains, lookup: Lookup, draw: nat, history: seq<BatchRecord>, quarantine: bool,
                         auth: seq<AuthResult>, judged: Option<Applied>, mark: bool) {
    && HistoryInv(history, quarantine) && (quarantine ==> mark)
    && auth == AuthsOf(history) + (if doDMARC then [OtherResult("dmarc")] else [])
    && (doDMARC ==>
          && judged.Some? && JudgedOn(domains, lookup, history, draw, judged.value)
          && judged.value.policy != PolicyReject && (judged.value.policy == PolicyQuarantine ==> mark))
  }

  /** If DMARC judged the message, it judged what the batches merged, and if the message is marked, it was
      before, or a batch quarantined it, or DMARC does. */
  ghost predicate Weighed(doDMARC: bool, domains: Domains, lookup: Lookup, draw: nat, history: seq<BatchRecord>, quarantine: bool,
                          judged: Option<Applied>, marked: bool, mark: bool) {
    && (judged.Some? ==> doDMARC && JudgedOn(domains, lookup, history, draw, judged.value))
    && (mark ==> marked || quarantine || (judged.Some? && judged.value.policy == PolicyQuarantine))
  }

  ghost predicate AsPlanned(env: Env, source: SourceBlock, before: seq<Handover>, handed: seq<Handover>, reached: set<RcptBlock>, t: Trail,
                            list: seq<string>, original: string) {
    && PlanEach(env, source, list, original).Some? && handed == before + PlanEach(env, source, list, original).value
    && AllArrived(env, source, reached, t, list)
  }

  lemma {:induction false} DoneNext(env: Env, source: SourceBlock, before: seq<Handover>, h: seq<Handover>, h': seq<Handover>,
                                    r: set<RcptBlock>, r': set<RcptBlock>, a: Trail, b: Trail, list: seq<string>, i: nat, original: string)
    requires i < |list| && AsPlanned(env, source, before, h, r, a, list[..i], original) && r <= r' && Grown(a, b)
    requires PlanOne(env, source, list[i], original).Some? && h' == h + PlanOne(env, source, list[i], original).value
    requires Arrived(env, source, r', b, list[i])
    ensures AsPlanned(env, source, before, h', r', b, list[..i + 1], original)
  {
    PlanNext(env, source, list, i, original);
    ConcatAssoc(before, PlanEach(env, source, list[..i], original).value, PlanOne(env, source, list[i], original).value);
    StillArrived(env, source, r, r', a, b, list[..i]);
    OneMoreArrived(env, source, r', b, list, i);
  }

  /** The first `k` targets have been given the address. */
  ghost predicate HandedTo(before: seq<Handover>, handed: seq<Handover>, targets: seq<nat>, k: nat, to: string, original: string) {
    k <= |targets| && handed == before + ToTargets(targets, to, original)[..k]
  }

  lemma {:induction false} HandedNext(before: seq<Handover>, handed: seq<Handover>, targets: seq<nat>, k: nat, to: string, original: string)
    requires HandedTo(before, handed, targets, k, to, original) && k < |targets|
    ensures HandedTo(before, handed + [Handover(targets[k], to, original)], targets, k + 1, to, original)
  {
    var all := ToTargets(targets, to, original);
    assert all[..k + 1] == all[..k] + [Handover(targets[k], to, original)];
    ConcatAssoc(before, all[..k], [Handover(targets[k], to, original)]);
  }

  lemma {:induction false} PermittedOne(env: Env, config: Config, source: SourceBlock, reached: set<RcptBlock>, t: Trail, targets: seq<nat>,
                                        finals: seq<string>, i: nat, original: string)
    requires i < |finals| && Permitted(env, config, source, reached, t, targets, finals, original)
    ensures Permitted(env, config, source, reached, t, targets, [finals[i]], original)
  {
    var one := [finals[i]];
    forall k, j | 0 <= k < |targets| && 0 <= j < |one| ensures Vetted(env, config, source, reached, t, Handover(targets[k], one[j], original)) {
      assert Vetted(env, config, source, reached, t, Handover(targets[k], finals[i], original));
    }
  }

  lemma {:induction false} RoutedAmong(source: SourceBlock, normalize: string -> Option<string>, to: string)
    ensures RcptRoute(source, normalize, to).Ok? && RcptRoute(source, normalize, to).value.Some? ==>
              Among(source.rcpts, RcptRoute(source, normalize, to).value.value)
  {
  }

  /** What every run leaves behind: a state in use was caught up first, on the connection, the sender and the
      recipients on record when it was created, no state was shown a recipient twice, and what the batches
      did, and no more, is in the logs. */
  ghost predicate Traced(states: map<Check, nat>, t: Tape) {
    && Registered(states, t.logs) && Sound(t)
    && forall id :: 0 <= id < |t.logs| ==> NoDuplicates(RcptsOf(t.logs[id].entries))
  }

  lemma {:induction false} SoundIsTraced(states: map<Check, nat>, t: Tape)
    requires Registered(states, t.logs) && Sound(t)
    ensures Traced(states, t)
  {
    assert Holds(t, OfSeen);
    forall id | 0 <= id < |t.logs| ensures NoDuplicates(RcptsOf(t.logs[id].entries)) {
      assert SeenRight(t.logs[id], CheckBatch.Seen(t.seen, id));
    }
  }

  lemma {:induction false} ClosedTrail(states: map<Check, nat>, a: seq<Log>, b: seq<Log>, history: seq<BatchRecord>)
    requires SameButClosed(a, b)
    ensures Extends(a, b) && Grown(Trail(states, a, history), Trail(states, b, history))
  {
    forall id | 0 <= id < |a| ensures ExtendsAt(a, b, id) {
    }
    forall x ensures KeptAt(states, states, x) {
    }
  }

  lemma {:induction false} OneMorePassed(a: seq<BatchRecord>, b: seq<BatchRecord>, from: nat, s: map<Check, nat>, t: map<Check, nat>,
                                         lists: set<seq<Check>>, checks: seq<Check>)
    requires a <= b && Kept(s, t) && AllPassed(a, from, s, lists) && from <= |a|
    requires NoneRejected(b, |a|) && Passed(b, |a|, t, checks, Body)
    ensures AllPassed(b, from, t, lists + {checks})
  {
    AllStillPassed(a, b, from, s, t, lists);
    PassedSince(b, |a|, from, t, checks, Body);
  }

  // ---------------------------------------------------------------- whole runs

  /** Starts a delivery. If that fails, nothing is left open; the object is returned for its logs. */
  method Start(config: Config, env: Env, domains: Domains, quarantined: bool, mailFrom: string)
    returns (d: Delivery, err: Option<Reason>)
    ensures fresh(d) && fresh(d.runner) && fresh(d.runner.verifier) && d.config == config && d.env == env && d.marked == quarantined
    ensures d.bodies == [] && !d.bodyCalled && d.handed == [] && d.runner.verifier.domains == domains
    ensures err.None? ==> d.Valid() && d.Chose(mailFrom) && d.Greeted(mailFrom)
    ensures err.None? ==> AllIn(config.checks, d.runner.states) && AllIn(d.source.value.checks, d.runner.states)
    ensures err.Some? ==> d.AllClosed() && Traced(d.runner.states, d.OnTape())
    ensures err.Some? ==> d.runner.judged.None? && d.runner.msgQuarantine == quarantined
  {
    d := new Delivery(config, env, domains, quarantined);
    err := d.Begin(mailFrom);
    if err.Some? {
      d.Close();
    }
  }

  /** The answers speak for the message: at most one is about SPF, the lookup of the policy record did not fail
      for the time being, and if there is a record, the answers hold an aligned pass. */
  ghost predicate AnswersPass(domains: Domains, lookup: Lookup, logs: seq<Log>) {
    && AtMostOneSpf(Answered(logs)) && lookup != LookupFailed(true)
    && (lookup.Found? ==> AlignedPass(domains, lookup.fromDomain, lookup.rec, Answered(logs)))
  }

  /** A message from start to end: every recipient is presented, whatever became of the ones before, then the
      body, and the delivery is committed if that went well and aborted if not. In every such run the body
      reaches a target only when it is safe, and only a target that was offered an address that was let
      through to it; DMARC judges what the checks answered, and does nothing to a message for which the
      answers speak; every check state is closed in the end, and every state in use was shown the message in
      the proper order. */
  method RunMessage(config: Config, env: Env, domains: Domains, quarantined: bool, mailFrom: string, rcpts: seq<string>,
                    lookup: Lookup, draw: nat) returns (d: Delivery, delivered: bool)
    ensures d.config == config && d.env == env && d.runner.verifier.domains == domains && d.marked == quarantined
    ensures d.bodies != [] ==> d.SafeSent(lookup, draw)
    ensures d.bodies != [] && Reasoned(d.runner.logs) ==> d.source.Some? && d.Unrejected()
    ensures d.bodies != [] ==> d.Vetting() && AllOffered(d.bodies, d.offered)
    ensures delivered ==> multiset(d.bodies) == multiset(d.recipients.Keys)
    ensures d.Decided(lookup, draw)
    ensures AnswersPass(domains, lookup, d.runner.logs) ==>
              && (d.runner.judged.Some? ==> d.runner.judged.value.policy == PolicyNone)
              && (d.runner.msgQuarantine ==> quarantined || d.runner.quarantine)
    ensures d.AllClosed() && Traced(d.runner.states, d.OnTape())
  {
    var err;
    delivered := false;
    d, err := Start(config, env, domains, quarantined, mailFrom);
    if err.None? {
      PresentAll(d, rcpts);
      delivered := Finish(d, lookup, draw);
      if d.bodies != [] && Reasoned(d.runner.logs) {
        SafeMeansUnrejected(d, lookup, draw);
      }
    }
    DmarcHonoursAnswers(domains, lookup, d.OnTape(), draw);
    assert d.runner.judged.Some? ==> JudgedFrom(domains, lookup, AuthsOf(d.runner.history), draw, d.runner.judged.value);
  }

  /** An aligned pass among what the states answered: DMARC neither rejects nor marks the message. */
  lemma {:induction false} DmarcHonoursAnswers(domains: Domains, lookup: Lookup, t: Tape, draw: nat)
    requires Sound(t)
    ensures AnswersPass(domains, lookup, t.logs) ==> ApplyPolicy(domains, lookup, AuthsOf(t.history), draw).policy == PolicyNone
  {
    assert Holds(t, OfAnswers);
    if AnswersPass(domains, lookup, t.logs) {
      PolicyByAnswers(domains, lookup, AuthsOf(t.history), t.logs, draw);
      AlignedPassIsSafe(domains, lookup, Answered(t.logs), draw);
    }
  }

  lemma {:induction false} SafeMeansUnrejected(d: Delivery, lookup: Lookup, draw: nat)
    requires d.SafeSent(lookup, draw) && Sound(d.OnTape()) && Reasoned(d.runner.logs)
    ensures d.Unrejected()
  {
    var from: nat :| d.Safe(from, lookup, draw);
    assert Holds(d.OnTape(), OfLogs) && Holds(d.OnTape(), OfBodies);
    forall list, c | list in d.Lists() && c in list
      ensures c in d.runner.states && d.runner.states[c] < |d.runner.logs| && LetBodyPass(d.runner.logs[d.runner.states[c]])
    {
      PassedMeansUnrejected(d.runner.history, d.runner.quarantine, d.runner.logs, from, d.runner.states, list, c);
    }
  }

  method PresentAll(d: Delivery, rcpts: seq<string>)
    requires d.Valid() && !d.bodyCalled
    modifies d`reached, d`recipients, d`handed, d`offered, d.runner
    ensures d.Valid()
  {
    var i := 0;
    while i < |rcpts|
      invariant 0 <= i <= |rcpts| && d.Valid()
    {
      var _ := d.AddRcpt(rcpts[i]);
      i := i + 1;
    }
  }

  method Finish(d: Delivery, lookup: Lookup, draw: nat) returns (delivered: bool)
    requires d.Valid() && !d.bodyCalled && d.bodies == []
    modifies d`bodyCalled, d`bodies, d.runner, d.runner.verifier
    ensures d.bodies != [] ==> d.SafeSent(lookup, draw)
    ensures d.Vetting() && d.Decided(lookup, draw) && AllOffered(d.bodies, d.offered)
    ensures delivered ==> multiset(d.bodies) == multiset(d.recipients.Keys)
    ensures d.AllClosed() && Traced(d.runner.states, d.OnTape())
  {
    var good := SendBody(d, lookup, draw);
    delivered := End(d, good);
  }

  method SendBody(d: Delivery, lookup: Lookup, draw: nat) returns (good: bool)
    requires d.Valid() && !d.bodyCalled && d.bodies == []
    modifies d`bodyCalled, d`bodies, d.runner, d.runner.verifier
    ensures d.Ending() && d.Vetting() && d.Decided(lookup, draw) && AllOffered(d.bodies, d.offered)
    ensures d.bodies != [] ==> d.SafeSent(lookup, draw)
    ensures good ==> multiset(d.bodies) == multiset(d.recipients.Keys)
  {
    ghost var from := |d.runner.history|;
    var err := d.Body(lookup, draw);
    good := err.None?;
    assert d.bodies != [] ==> d.Safe(from, lookup, draw);
    SentWereOffered(d.bodies, d.recipients, d.handed, d.offered);
  }

  ghost predicate AllOffered(bodies: seq<nat>, offered: seq<Handover>) {
    forall t :: t in bodies ==> WasOffered(offered, t)
  }

  /** Commits the delivery, or aborts it. */
  method End(d: Delivery, good: bool) returns (delivered: bool)
    requires d.Ending() && d.Vetting()
    modifies d.runner`logs
    ensures d.Vetting() && d.AllClosed() && Traced(d.runner.states, d.OnTape()) && (delivered ==> good)
  {
    ghost var ended, before := multiset{}, d.Now();
    var err;
    if good {
      err, ended := d.Commit();
      delivered := err.None?;
    } else {
      err, ended := d.Abort();
      delivered := false;
    }
    StillVetted(d.env, d.config, d.source.value, d.reached, d.reached, before, d.Now(), d.offered);
  }

  lemma {:induction false} SentWereOffered(bodies: seq<nat>, recipients: map<nat, seq<string>>, handed: seq<Handover>, offered: seq<Handover>)
    requires multiset(bodies) <= multiset(recipients.Keys) && Offers(recipients, handed, offered)
    ensures AllOffered(bodies, offered)
  {
    forall t | t in bodies ensures WasOffered(offered, t) {
      assert t in multiset(bodies) && t in multiset(recipients.Keys);
      assert OfferedFirst(recipients, offered, t);
    }
  }
}
