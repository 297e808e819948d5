/** One batch of check goroutines: their interleaved steps, and what every interleaving amounts to. */
module CheckBatch {
  import opened Common
  import opened Dmarc
  import opened Checks

  datatype Call = Connection | Sender(from: string) | Rcpt(to: string) | Body

  datatype Outcome = Panicked | Returned(result: CheckResult)

  datatype Entry = Entry(call: Call, outcome: Outcome)

  /** The sender and the recipients that were on record when a state was created. */
  datatype Missed = Missed(from: string, rcpts: seq<string>)

  /** Everything that happened to one check state: whose it is, what it had missed when it was created, the
      calls it got, how often it was closed. */
  datatype Log = Log(check: Check, missed: Missed, entries: seq<Entry>, closes: nat)

  /** Where a goroutine of a batch stands. */
  datatype Stage =
    | Ready
    | Claimed
    | Ran(result: CheckResult)
    | AuthMerged(result: CheckResult)
    | HeaderMerged(result: CheckResult)
    | Finished

  /** The parts of the runner that a batch may change. */
  datatype Snapshot = Snapshot(logs: seq<Log>, seen: map<nat, set<string>>, auth: seq<AuthResult>,
                               header: seq<string>, quarantine: bool)

  function Seen(seen: map<nat, set<string>>, id: nat): set<string> {
    if id in seen then seen[id] else {}
  }

  // ---------------------------------------------------------------- what a batch does

  /** `b` is `a` after `n` more calls, all of them `call`. */
  ghost predicate Grew(a: Log, b: Log, call: Call, n: int) {
    && b.check == a.check && b.missed == a.missed && b.closes == a.closes
    && |b.entries| == |a.entries| + n && a.entries <= b.entries
    && forall k :: |a.entries| <= k < |b.entries| ==> b.entries[k].call == call
  }

  function Occurs(ids: seq<nat>, id: nat): nat {
    if ids == [] then 0 else Occurs(Front(ids), id) + if Last(ids) == id then 1 else 0
  }

  /** How many calls a state gets in a batch: a recipient is presented to it at most once, ever. */
  function CallsDue(seen: map<nat, set<string>>, ids: seq<nat>, call: Call, id: nat): nat {
    if call.Rcpt? then if id in ids && call.to !in Seen(seen, id) then 1 else 0
    else Occurs(ids, id)
  }

  ghost predicate CallsMade(a: Snapshot, b: Snapshot, ids: seq<nat>, call: Call) {
    && |b.logs| == |a.logs|
    && (forall id :: 0 <= id < |a.logs| ==> Grew(a.logs[id], b.logs[id], call, CallsDue(a.seen, ids, call, id)))
    && (forall id: nat :: Seen(b.seen, id) == Seen(a.seen, id) + if call.Rcpt? && id in ids then {call.to} else {})
  }

  ghost predicate NewEntry(a: seq<Log>, b: seq<Log>, id: int, k: int) {
    0 <= id < |a| <= |b| && |a[id].entries| <= k < |b[id].entries|
  }

  /** How often the state answered with this result, from the entry numbered `from` on. */
  function Answers(entries: seq<Entry>, from: nat, r: CheckResult): nat {
    if |entries| <= from then 0
    else Answers(Front(entries), from, r) + if Last(entries).outcome == Returned(r) then 1 else 0
  }

  /** How often the states answered with this result between the logs `a` and the logs `b`. */
  function NewAnswers(a: seq<Log>, b: seq<Log>, r: CheckResult): nat
    requires |a| == |b|
  {
    if a == [] then 0 else NewAnswers(Front(a), Front(b), r) + Answers(Last(b).entries, |Last(a).entries|, r)
  }

  /** How many calls were made between the logs `a` and the logs `b`. */
  function NewCalls(a: seq<Log>, b: seq<Log>): int
    requires |a| == |b|
  {
    if a == [] then 0 else NewCalls(Front(a), Front(b)) + |Last(b).entries| - |Last(a).entries|
  }

  /** The results of `n` goroutines: every answer of a state once, and an empty result for every call that
      was not due. */
  ghost predicate ResultsOf(a: seq<Log>, b: seq<Log>, n: nat, results: seq<CheckResult>) {
    |a| == |b| && NewCalls(a, b) <= n && forall r :: Counted(a, b, n, results, r)
  }

  ghost predicate Counted(a: seq<Log>, b: seq<Log>, n: nat, results: seq<CheckResult>, r: CheckResult)
    requires |a| == |b|
  {
    Tally(results, r) == NewAnswers(a, b, r) + if r == NO_RESULT then n - NewCalls(a, b) else 0
  }

  /** Each goroutine merges on its own, so there is one order for each thing merged. */
  datatype Orders = Orders(auth: seq<CheckResult>, header: seq<CheckResult>, verdict: seq<CheckResult>)

  ghost predicate OrdersOf(results: seq<CheckResult>, orders: Orders) {
    multiset(orders.auth) == multiset(orders.header) == multiset(orders.verdict) == multiset(results)
  }

  ghost predicate Merged(a: Snapshot, b: Snapshot, orders: Orders, err: Option<Reason>) {
    && b.auth == a.auth + Auths(orders.auth)
    && b.header == a.header + Headers(orders.header)
    && err == FirstReason(orders.verdict, Rejects)
    && b.quarantine == (a.quarantine || (err.None? && FirstReason(orders.verdict, Quarantines).Some?))
  }

  // ---------------------------------------------------------------- counting goroutines

  function Count(ids: seq<nat>, flags: seq<bool>, id: nat): nat
    requires |ids| == |flags|
  {
    if ids == [] then 0
    else Count(Front(ids), Front(flags), id) + if Last(flags) && Last(ids) == id then 1 else 0
  }

  lemma {:induction false} CountSet(ids: seq<nat>, flags: seq<bool>, i: nat, id: nat)
    requires |ids| == |flags| && i < |ids| && !flags[i]
    ensures Count(ids, flags[i := true], id) == Count(ids, flags, id) + if ids[i] == id then 1 else 0
    decreases |ids|
  {
    if i == |ids| - 1 {
      assert Front(flags[i := true]) == Front(flags);
    } else {
      assert Front(flags[i := true]) == Front(flags)[i := true];
      CountSet(Front(ids), Front(flags), i, id);
    }
  }

  lemma {:induction false} CountUnset(ids: seq<nat>, flags: seq<bool>, i: nat, id: nat)
    requires |ids| == |flags| && i < |ids| && flags[i]
    ensures Count(ids, flags, id) == Count(ids, flags[i := false], id) + if ids[i] == id then 1 else 0
  {
    CountSet(ids, flags[i := false], i, id);
    assert flags[i := false][i := true] == flags;
  }

  lemma {:induction false} CountAll(ids: seq<nat>, flags: seq<bool>, id: nat)
    requires |ids| == |flags|
    ensures (forall i :: 0 <= i < |flags| ==> flags[i]) ==> Count(ids, flags, id) == Occurs(ids, id)
    ensures (forall i :: 0 <= i < |flags| ==> !flags[i]) ==> Count(ids, flags, id) == 0
    decreases |ids|
  {
    if ids != [] {
      CountAll(Front(ids), Front(flags), id);
    }
  }

  /** The result a goroutine holds at a given stage: 0 ran, 1 authentication merged, 2 header merged. */
  function HeldBy(s: Stage, phase: nat): Option<CheckResult> {
    match s
    case Ran(r) => if phase == 0 then Some(r) else None
    case AuthMerged(r) => if phase == 1 then Some(r) else None
    case HeaderMerged(r) => if phase == 2 then Some(r) else None
    case _ => None
  }

  function One(o: Option<CheckResult>, r: CheckResult): nat {
    if o == Some(r) then 1 else 0
  }

  /** How many goroutines hold the result. */
  function Held(stage: seq<Stage>, phase: nat, r: CheckResult): nat {
    if stage == [] then 0 else Held(Front(stage), phase, r) + One(HeldBy(Last(stage), phase), r)
  }

  function Tally(results: seq<CheckResult>, r: CheckResult): nat {
    if results == [] then 0 else Tally(Front(results), r) + if Last(results) == r then 1 else 0
  }

  lemma {:induction false} TallyIsMultiset(results: seq<CheckResult>, r: CheckResult)
    ensures Tally(results, r) == multiset(results)[r]
  {
    if results != [] {
      TallyIsMultiset(Front(results), r);
      assert results == Front(results) + [Last(results)];
    }
  }

  ghost predicate SameTally(x: seq<CheckResult>, y: seq<CheckResult>, r: CheckResult) {
    Tally(x, r) == Tally(y, r)
  }

  lemma {:induction false} SameTallies(x: seq<CheckResult>, y: seq<CheckResult>)
    requires forall r :: SameTally(x, y, r)
    ensures multiset(x) == multiset(y)
  {
    forall r ensures multiset(x)[r] == multiset(y)[r] {
      assert SameTally(x, y, r);
      TallyIsMultiset(x, r);
      TallyIsMultiset(y, r);
    }
  }

  lemma {:induction false} HeldUpdate(stage: seq<Stage>, i: nat, s: Stage, phase: nat, r: CheckResult)
    requires i < |stage|
    ensures Held(stage[i := s], phase, r) + One(HeldBy(stage[i], phase), r) == Held(stage, phase, r) + One(HeldBy(s, phase), r)
    decreases |stage|
  {
    if i == |stage| - 1 {
      assert Front(stage[i := s]) == Front(stage);
    } else {
      assert Front(stage[i := s]) == Front(stage)[i := s] && Last(stage[i := s]) == Last(stage);
      HeldUpdate(Front(stage), i, s, phase, r);
    }
  }

  lemma {:induction false} HeldNone(stage: seq<Stage>, phase: nat, r: CheckResult)
    requires forall i :: 0 <= i < |stage| ==> HeldBy(stage[i], phase).None?
    ensures Held(stage, phase, r) == 0
    decreases |stage|
  {
    if stage != [] {
      HeldNone(Front(stage), phase, r);
    }
  }

  /** How many goroutines have made their call, or found that it was not due. */
  function Past(stage: seq<Stage>): nat {
    if stage == [] then 0 else Past(Front(stage)) + PastOne(Last(stage))
  }

  function PastOne(s: Stage): nat {
    if s.Ready? || s.Claimed? then 0 else 1
  }

  lemma {:induction false} PastUpdate(stage: seq<Stage>, i: nat, s: Stage)
    requires i < |stage|
    ensures Past(stage[i := s]) + PastOne(stage[i]) == Past(stage) + PastOne(s)
    decreases |stage|
  {
    if i == |stage| - 1 {
      assert Front(stage[i := s]) == Front(stage);
    } else {
      assert Front(stage[i := s]) == Front(stage)[i := s];
      PastUpdate(Front(stage), i, s);
    }
  }

  lemma {:induction false} PastAll(stage: seq<Stage>)
    ensures (forall i :: 0 <= i < |stage| ==> stage[i].Finished?) ==> Past(stage) == |stage|
    ensures (forall i :: 0 <= i < |stage| ==> stage[i].Ready?) ==> Past(stage) == 0
    decreases |stage|
  {
    if stage != [] {
      PastAll(Front(stage));
    }
  }

  lemma {:induction false} NothingNew(logs: seq<Log>, r: CheckResult)
    ensures NewAnswers(logs, logs, r) == 0 && NewCalls(logs, logs) == 0
  {
    if logs != [] {
      NothingNew(Front(logs), r);
    }
  }

  /** One more entry in one log. */
  lemma {:induction false} AnswerAdded(a: seq<Log>, b: seq<Log>, id: nat, entry: Entry, r: CheckResult)
    requires |a| == |b| && id < |b| && |a[id].entries| <= |b[id].entries|
    ensures NewAnswers(a, AddEntry(b, id, entry), r) == NewAnswers(a, b, r) + if entry.outcome == Returned(r) then 1 else 0
    ensures NewCalls(a, AddEntry(b, id, entry)) == NewCalls(a, b) + 1
    decreases |a|
  {
    var c := AddEntry(b, id, entry);
    if id == |b| - 1 {
      assert Front(c) == Front(b) && Front(Last(c).entries) == Last(b).entries;
    } else {
      assert Front(c) == AddEntry(Front(b), id, entry) && Last(c) == Last(b);
      AnswerAdded(Front(a), Front(b), id, entry, r);
    }
  }

  function Work(stage: seq<Stage>): nat {
    if stage == [] then 0 else Work(Front(stage)) + StepsLeft(Last(stage))
  }

  function StepsLeft(s: Stage): nat {
    match s
    case Ready => 5
    case Claimed => 4
    case Ran(_) => 3
    case AuthMerged(_) => 2
    case HeaderMerged(_) => 1
    case Finished => 0
  }

  lemma {:induction false} WorkUpdate(stage: seq<Stage>, i: nat, s: Stage)
    requires i < |stage|
    ensures Work(stage[i := s]) + StepsLeft(stage[i]) == Work(stage) + StepsLeft(s)
    decreases |stage|
  {
    if i == |stage| - 1 {
      assert Front(stage[i := s]) == Front(stage);
    } else {
      assert Front(stage[i := s]) == Front(stage)[i := s];
      WorkUpdate(Front(stage), i, s);
    }
  }

  /** A once-only slot: empty, or filled by the first result that matched. */
  function Slot(results: seq<CheckResult>, p: CheckResult -> bool): (slot: Option<Option<Reason>>)
    ensures FirstReason(results, p) == if slot.Some? then slot.value else None
  {
    if results == [] then None
    else if p(results[0]) then Some(results[0].reason)
    else Slot(results[1..], p)
  }

  lemma {:induction false} SlotAppend(results: seq<CheckResult>, x: CheckResult, p: CheckResult -> bool)
    ensures Slot(results + [x], p)
         == if Slot(results, p).Some? then Slot(results, p) else if p(x) then Some(x.reason) else None
  {
    if results != [] {
      assert (results + [x])[1..] == results[1..] + [x];
      SlotAppend(results[1..], x, p);
    }
  }

  // ---------------------------------------------------------------- one batch, step by step

  /** The goroutines started for one call, each at its own stage, and everything they share. `called`
      marks those that make the call, `claimed` those that are about to. */
  datatype BatchState = BatchState(now: Snapshot, stage: seq<Stage>, called: seq<bool>, claimed: seq<bool>,
                                   results: seq<CheckResult>, orders: Orders,
                                   quarantineSlot: Option<Option<Reason>>, rejectSlot: Option<Option<Reason>>)

  function StartBatch(now: Snapshot, ids: seq<nat>): BatchState {
    var no := seq(|ids|, _ => false);
    BatchState(now, seq(|ids|, _ => Ready), no, no, [], Orders([], [], []), None, None)
  }

  /** Goroutine `i` takes on its call, unless it is for a recipient its state has seen: then it goes on
      with an empty result. */
  function ClaimStep(b: BatchState, ids: seq<nat>, call: Call, i: nat): BatchState
    requires i < |ids| == |b.stage| == |b.called| == |b.claimed|
  {
    if call.Rcpt? && call.to in Seen(b.now.seen, ids[i]) then
      b.(stage := b.stage[i := Ran(NO_RESULT)], results := b.results + [NO_RESULT])
    else
      var seen := if call.Rcpt? then b.now.seen[ids[i] := Seen(b.now.seen, ids[i]) + {call.to}] else b.now.seen;
      b.(now := b.now.(seen := seen), stage := b.stage[i := Claimed],
         called := b.called[i := true], claimed := b.claimed[i := true])
  }

  function AddEntry(logs: seq<Log>, id: nat, entry: Entry): seq<Log>
    requires id < |logs|
  {
    logs[id := logs[id].(entries := logs[id].entries + [entry])]
  }

  /** Goroutine `i` makes its call and gets an answer, or panics. */
  function CallStep(b: BatchState, ids: seq<nat>, call: Call, i: nat, outcome: Outcome): BatchState
    requires i < |ids| == |b.stage| == |b.claimed| && ids[i] < |b.now.logs|
  {
    b.(now := b.now.(logs := AddEntry(b.now.logs, ids[i], Entry(call, outcome))),
       stage := b.stage[i := if outcome.Panicked? then Finished else Ran(outcome.result)],
       claimed := b.claimed[i := false],
       results := if outcome.Panicked? then b.results else b.results + [outcome.result])
  }

  function AuthStep(b: BatchState, i: nat, r: CheckResult): BatchState
    requires i < |b.stage|
  {
    b.(now := b.now.(auth := b.now.auth + r.auth), stage := b.stage[i := AuthMerged(r)],
       orders := b.orders.(auth := b.orders.auth + [r]))
  }

  function HeaderStep(b: BatchState, i: nat, r: CheckResult): BatchState
    requires i < |b.stage|
  {
    b.(now := b.now.(header := b.now.header + r.header), stage := b.stage[i := HeaderMerged(r)],
       orders := b.orders.(header := b.orders.header + [r]))
  }

  function VerdictStep(b: BatchState, i: nat, r: CheckResult): BatchState
    requires i < |b.stage|
  {
    b.(stage := b.stage[i := Finished], orders := b.orders.(verdict := b.orders.verdict + [r]),
       quarantineSlot := if Quarantines(r) && b.quarantineSlot.None? then Some(r.reason) else b.quarantineSlot,
       rejectSlot := if Rejects(r) && b.rejectSlot.None? then Some(r.reason) else b.rejectSlot)
  }

  /** Somebody has taken on the call for this state. */
  ghost predicate Taken(ids: seq<nat>, stage: seq<Stage>, id: nat)
    requires |ids| == |stage|
  {
    exists i :: 0 <= i < |ids| && ids[i] == id && !stage[i].Ready?
  }

  ghost predicate FlagsInv(ids: seq<nat>, call: Call, b: BatchState) {
    && |b.stage| == |b.called| == |b.claimed| == |ids|
    && (forall i :: 0 <= i < |ids| ==> ids[i] < |b.now.logs|)
    && (forall i :: 0 <= i < |ids| ==> b.claimed[i] == b.stage[i].Claimed?)
    && (forall i :: 0 <= i < |ids| ==> b.claimed[i] ==> b.called[i])
    && (forall i :: 0 <= i < |ids| ==> b.called[i] ==> !b.stage[i].Ready?)
    && (!call.Rcpt? ==> forall i :: 0 <= i < |ids| ==> !b.called[i] ==> b.stage[i].Ready?)
  }

  /** The state got the calls that were taken on and are not still to be made. */
  ghost predicate CalledSo(before: seq<Log>, now: seq<Log>, call: Call, ids: seq<nat>, called: seq<bool>, claimed: seq<bool>, id: nat)
    requires id < |before| == |now| && |ids| == |called| == |claimed|
  {
    Grew(before[id], now[id], call, Count(ids, called, id) - Count(ids, claimed, id))
  }

  ghost predicate LogsInv(before: Snapshot, ids: seq<nat>, call: Call, b: BatchState)
    requires FlagsInv(ids, call, b)
  {
    && |b.now.logs| == |before.logs|
    && (forall id :: 0 <= id < |before.logs| ==> CalledSo(before.logs, b.now.logs, call, ids, b.called, b.claimed, id))
    && ResultsOf(before.logs, b.now.logs, Past(b.stage), b.results)
  }

  ghost predicate SeenInv(before: Snapshot, ids: seq<nat>, call: Call, b: BatchState)
    requires FlagsInv(ids, call, b)
  {
    && (forall id: nat :: Seen(b.now.seen, id)
                       == Seen(before.seen, id) + if call.Rcpt? && Taken(ids, b.stage, id) then {call.to} else {})
    && (call.Rcpt? ==>
        forall id: nat :: Count(ids, b.called, id)
                       == if Taken(ids, b.stage, id) && call.to !in Seen(before.seen, id) then 1 else 0)
  }

  /** Results flow from the states to the authentication results, on to the header, on to the verdict;
      what has left one place and not reached the next is in the hands of a goroutine. */
  ghost predicate FlowInv(stage: seq<Stage>, results: seq<CheckResult>,
                          auth: seq<CheckResult>, header: seq<CheckResult>, verdict: seq<CheckResult>) {
    && Between(results, auth, stage, 0)
    && Between(auth, header, stage, 1)
    && Between(header, verdict, stage, 2)
  }

  ghost predicate Between(from: seq<CheckResult>, to: seq<CheckResult>, stage: seq<Stage>, phase: nat) {
    forall r :: Balanced(from, to, stage, phase, r)
  }

  ghost predicate Balanced(from: seq<CheckResult>, to: seq<CheckResult>, stage: seq<Stage>, phase: nat, r: CheckResult) {
    Tally(from, r) == Tally(to, r) + Held(stage, phase, r)
  }

  ghost predicate DataInv(before: Snapshot, b: BatchState) {
    && b.now.auth == before.auth + Auths(b.orders.auth)
    && b.now.header == before.header + Headers(b.orders.header)
    && b.now.quarantine == before.quarantine
    && b.rejectSlot == Slot(b.orders.verdict, Rejects)
    && b.quarantineSlot == Slot(b.orders.verdict, Quarantines)
  }

  ghost predicate CallInv(before: Snapshot, ids: seq<nat>, call: Call, b: BatchState) {
    FlagsInv(ids, call, b) && LogsInv(before, ids, call, b) && SeenInv(before, ids, call, b)
  }

  ghost predicate BatchInv(before: Snapshot, ids: seq<nat>, call: Call, b: BatchState) {
    CallInv(before, ids, call, b) && FlowInv(b.stage, b.results, b.orders.auth, b.orders.header, b.orders.verdict) && DataInv(before, b)
  }

  lemma {:induction false} StartFlow(stage: seq<Stage>)
    requires forall i :: 0 <= i < |stage| ==> stage[i].Ready?
    ensures FlowInv(stage, [], [], [], [])
  {
    forall phase: nat, r ensures Balanced([], [], stage, phase, r) {
      HeldNone(stage, phase, r);
    }
  }

  lemma {:induction false} StartCalls(before: Snapshot, ids: seq<nat>, call: Call)
    requires forall i :: 0 <= i < |ids| ==> ids[i] < |before.logs|
    ensures CallInv(before, ids, call, StartBatch(before, ids))
  {
    var b := StartBatch(before, ids);
    forall id: nat ensures Count(ids, b.called, id) == 0 && Count(ids, b.claimed, id) == 0 {
      CountAll(ids, b.called, id);
    }
    forall id | 0 <= id < |before.logs| ensures CalledSo(before.logs, before.logs, call, ids, b.called, b.claimed, id) {
    }
    PastAll(b.stage);
    StartResults(before.logs);
  }

  lemma {:induction false} StartResults(logs: seq<Log>)
    ensures ResultsOf(logs, logs, 0, [])
  {
    NothingNew(logs, NO_RESULT);
    forall r ensures Counted(logs, logs, 0, [], r) {
      NothingNew(logs, r);
    }
  }

  // ---------------------------------------------------------------- the flow of results

  function Plus(results: seq<CheckResult>, o: Option<CheckResult>): seq<CheckResult> {
    if o.Some? then results + [o.value] else results
  }

  lemma {:induction false} TallyPlus(results: seq<CheckResult>, o: Option<CheckResult>, r: CheckResult)
    ensures Tally(Plus(results, o), r) == Tally(results, r) + One(o, r)
  {
    if o.Some? {
      assert Front(results + [o.value]) == results;
    }
  }

  /** A goroutine moves on: what it then holds in this phase has entered, what it held has left. */
  lemma {:induction false} Moves(from: seq<CheckResult>, to: seq<CheckResult>, stage: seq<Stage>, phase: nat, i: nat, s: Stage)
    requires Between(from, to, stage, phase) && i < |stage|
    ensures Between(Plus(from, HeldBy(s, phase)), Plus(to, HeldBy(stage[i], phase)), stage[i := s], phase)
  {
    var entered, left, moved := Plus(from, HeldBy(s, phase)), Plus(to, HeldBy(stage[i], phase)), stage[i := s];
    forall r ensures Balanced(entered, left, moved, phase, r) {
      assert Balanced(from, to, stage, phase, r);
      HeldUpdate(stage, i, s, phase, r);
      TallyPlus(from, HeldBy(s, phase), r);
      TallyPlus(to, HeldBy(stage[i], phase), r);
    }
  }

  lemma {:induction false} FlowSame(stage: seq<Stage>, results: seq<CheckResult>,
                 auth: seq<CheckResult>, header: seq<CheckResult>, verdict: seq<CheckResult>, i: nat, s: Stage)
    requires i < |stage| && FlowInv(stage, results, auth, header, verdict)
    requires (stage[i].Ready? || stage[i].Claimed?) && (s.Claimed? || s.Finished?)
    ensures FlowInv(stage[i := s], results, auth, header, verdict)
  {
    Moves(results, auth, stage, 0, i, s);
    Moves(auth, header, stage, 1, i, s);
    Moves(header, verdict, stage, 2, i, s);
  }

  lemma {:induction false} FlowRan(stage: seq<Stage>, results: seq<CheckResult>,
                 auth: seq<CheckResult>, header: seq<CheckResult>, verdict: seq<CheckResult>, i: nat, r: CheckResult)
    requires i < |stage| && FlowInv(stage, results, auth, header, verdict) && (stage[i].Ready? || stage[i].Claimed?)
    ensures FlowInv(stage[i := Ran(r)], results + [r], auth, header, verdict)
  {
    Moves(results, auth, stage, 0, i, Ran(r));
    Moves(auth, header, stage, 1, i, Ran(r));
    Moves(header, verdict, stage, 2, i, Ran(r));
  }

  lemma {:induction false} FlowAuth(stage: seq<Stage>, results: seq<CheckResult>,
                 auth: seq<CheckResult>, header: seq<CheckResult>, verdict: seq<CheckResult>, i: nat, r: CheckResult)
    requires i < |stage| && FlowInv(stage, results, auth, header, verdict) && stage[i] == Ran(r)
    ensures FlowInv(stage[i := AuthMerged(r)], results, auth + [r], header, verdict)
  {
    Moves(results, auth, stage, 0, i, AuthMerged(r));
    Moves(auth, header, stage, 1, i, AuthMerged(r));
    Moves(header, verdict, stage, 2, i, AuthMerged(r));
  }

  lemma {:induction false} FlowHeader(stage: seq<Stage>, results: seq<CheckResult>,
                 auth: seq<CheckResult>, header: seq<CheckResult>, verdict: seq<CheckResult>, i: nat, r: CheckResult)
    requires i < |stage| && FlowInv(stage, results, auth, header, verdict) && stage[i] == AuthMerged(r)
    ensures FlowInv(stage[i := HeaderMerged(r)], results, auth, header + [r], verdict)
  {
    Moves(results, auth, stage, 0, i, HeaderMerged(r));
    Moves(auth, header, stage, 1, i, HeaderMerged(r));
    Moves(header, verdict, stage, 2, i, HeaderMerged(r));
  }

  lemma {:induction false} FlowVerdict(stage: seq<Stage>, results: seq<CheckResult>,
                 auth: seq<CheckResult>, header: seq<CheckResult>, verdict: seq<CheckResult>, i: nat, r: CheckResult)
    requires i < |stage| && FlowInv(stage, results, auth, header, verdict) && stage[i] == HeaderMerged(r)
    ensures FlowInv(stage[i := Finished], results, auth, header, verdict + [r])
  {
    Moves(results, auth, stage, 0, i, Finished);
    Moves(auth, header, stage, 1, i, Finished);
    Moves(header, verdict, stage, 2, i, Finished);
  }

  lemma {:induction false} FlowDone(stage: seq<Stage>, results: seq<CheckResult>, orders: Orders)
    requires FlowInv(stage, results, orders.auth, orders.header, orders.verdict) && forall i :: 0 <= i < |stage| ==> stage[i].Finished?
    ensures OrdersOf(results, orders)
  {
    SettledBetween(stage, results, orders.auth, 0);
    SettledBetween(stage, orders.auth, orders.header, 1);
    SettledBetween(stage, orders.header, orders.verdict, 2);
  }

  lemma {:induction false} SettledBetween(stage: seq<Stage>, from: seq<CheckResult>, to: seq<CheckResult>, phase: nat)
    requires Between(from, to, stage, phase) && forall i :: 0 <= i < |stage| ==> stage[i].Finished?
    ensures multiset(from) == multiset(to)
  {
    forall r ensures SameTally(from, to, r) {
      assert Balanced(from, to, stage, phase, r);
      HeldNone(stage, phase, r);
    }
    SameTallies(from, to);
  }

  // ---------------------------------------------------------------- every step keeps the invariant

  lemma {:induction false} ClaimKeepsLogs(before: Snapshot, ids: seq<nat>, call: Call, b: BatchState, i: nat)
    requires CallInv(before, ids, call, b) && i < |ids| && b.stage[i].Ready?
    requires FlagsInv(ids, call, ClaimStep(b, ids, call, i))
    ensures LogsInv(before, ids, call, ClaimStep(b, ids, call, i))
  {
    var c := ClaimStep(b, ids, call, i);
    forall id | 0 <= id < |before.logs| ensures CalledSo(before.logs, c.now.logs, call, ids, c.called, c.claimed, id) {
      assert CalledSo(before.logs, b.now.logs, call, ids, b.called, b.claimed, id);
      if c.called != b.called {
        CountSet(ids, b.called, i, id);
        CountSet(ids, b.claimed, i, id);
      }
    }
    ClaimKeepsResults(before.logs, b.now.logs, Past(b.stage), b.results);
    PastUpdate(b.stage, i, c.stage[i]);
  }

  /** One more call that was not due. */
  lemma {:induction false} ClaimKeepsResults(before: seq<Log>, logs: seq<Log>, n: nat, results: seq<CheckResult>)
    requires ResultsOf(before, logs, n, results)
    ensures ResultsOf(before, logs, n + 1, results + [NO_RESULT])
  {
    var next, more := n + 1, results + [NO_RESULT];
    forall r ensures Counted(before, logs, next, more, r) {
      assert Counted(before, logs, n, results, r);
      TallyPlus(results, Some(NO_RESULT), r);
    }
  }

  lemma {:induction false} ClaimKeepsSeen(before: Snapshot, ids: seq<nat>, call: Call, b: BatchState, i: nat)
    requires CallInv(before, ids, call, b) && i < |ids| && b.stage[i].Ready?
    requires FlagsInv(ids, call, ClaimStep(b, ids, call, i))
    ensures SeenInv(before, ids, call, ClaimStep(b, ids, call, i))
  {
    var c := ClaimStep(b, ids, call, i);
    forall id: nat
      ensures Taken(ids, c.stage, id) <==> Taken(ids, b.stage, id) || id == ids[i]
    {
      if Taken(ids, b.stage, id) {
        var j :| 0 <= j < |ids| && ids[j] == id && !b.stage[j].Ready?;
        assert !c.stage[j].Ready?;
      }
      if id == ids[i] {
        assert !c.stage[i].Ready?;
      }
    }
    if c.called != b.called {
      forall id: nat ensures Count(ids, c.called, id) == Count(ids, b.called, id) + if ids[i] == id then 1 else 0 {
        CountSet(ids, b.called, i, id);
      }
    }
  }

  lemma {:induction false} ClaimKeepsInv(before: Snapshot, ids: seq<nat>, call: Call, b: BatchState, i: nat)
    requires BatchInv(before, ids, call, b) && i < |ids| && b.stage[i].Ready?
    ensures BatchInv(before, ids, call, ClaimStep(b, ids, call, i))
  {
    ClaimKeepsLogs(before, ids, call, b, i);
    ClaimKeepsSeen(before, ids, call, b, i);
    FlowSame(b.stage, b.results, b.orders.auth, b.orders.header, b.orders.verdict, i, Claimed);
    FlowRan(b.stage, b.results, b.orders.auth, b.orders.header, b.orders.verdict, i, NO_RESULT);
  }

  lemma {:induction false} CallKeepsFlags(ids: seq<nat>, call: Call, b: BatchState, i: nat, outcome: Outcome)
    requires FlagsInv(ids, call, b) && i < |ids| && b.stage[i].Claimed?
    ensures FlagsInv(ids, call, CallStep(b, ids, call, i, outcome))
    ensures forall id: nat :: Taken(ids, CallStep(b, ids, call, i, outcome).stage, id) == Taken(ids, b.stage, id)
  {
    TakenSame(ids, b.stage, CallStep(b, ids, call, i, outcome).stage);
  }

  lemma {:induction false} CallKeepsLogs(before: Snapshot, ids: seq<nat>, call: Call, b: BatchState, i: nat, outcome: Outcome)
    requires CallInv(before, ids, call, b) && i < |ids| && b.stage[i].Claimed?
    requires FlagsInv(ids, call, CallStep(b, ids, call, i, outcome))
    ensures LogsInv(before, ids, call, CallStep(b, ids, call, i, outcome))
  {
    var c := CallStep(b, ids, call, i, outcome);
    forall id | 0 <= id < |before.logs| ensures CalledSo(before.logs, c.now.logs, call, ids, c.called, c.claimed, id) {
      assert CalledSo(before.logs, b.now.logs, call, ids, b.called, b.claimed, id);
      CalledNext(before.logs, b.now.logs, call, ids, b.called, b.claimed, id, i, outcome);
    }
    assert CalledSo(before.logs, b.now.logs, call, ids, b.called, b.claimed, ids[i]);
    PastUpdate(b.stage, i, c.stage[i]);
    CallKeepsResults(before.logs, b.now.logs, Past(b.stage), b.results, ids[i], Entry(call, outcome));
  }

  lemma {:induction false} CalledNext(before: seq<Log>, now: seq<Log>, call: Call, ids: seq<nat>, called: seq<bool>, claimed: seq<bool>, id: nat,
                   i: nat, outcome: Outcome)
    requires id < |before| == |now| && i < |ids| == |called| == |claimed| && claimed[i] && ids[i] < |now|
    requires CalledSo(before, now, call, ids, called, claimed, id)
    ensures CalledSo(before, AddEntry(now, ids[i], Entry(call, outcome)), call, ids, called, claimed[i := false], id)
  {
    CountUnset(ids, claimed, i, id);
  }

  lemma {:induction false} CallKeepsResults(before: seq<Log>, logs: seq<Log>, n: nat, results: seq<CheckResult>, id: nat, entry: Entry)
    requires id < |logs| && ResultsOf(before, logs, n, results)
    requires |before[id].entries| <= |logs[id].entries|
    ensures ResultsOf(before, AddEntry(logs, id, entry), n + 1,
                      if entry.outcome.Panicked? then results else results + [entry.outcome.result])
  {
    var more := if entry.outcome.Panicked? then results else results + [entry.outcome.result];
    var next, after := n + 1, AddEntry(logs, id, entry);
    AnswerAdded(before, logs, id, entry, NO_RESULT);
    forall r ensures Counted(before, after, next, more, r) {
      assert Counted(before, logs, n, results, r);
      AnswerAdded(before, logs, id, entry, r);
      TallyPlus(results, if entry.outcome.Panicked? then None else Some(entry.outcome.result), r);
    }
  }

  lemma {:induction false} CallKeepsInv(before: Snapshot, ids: seq<nat>, call: Call, b: BatchState, i: nat, outcome: Outcome)
    requires BatchInv(before, ids, call, b) && i < |ids| && b.stage[i].Claimed?
    ensures BatchInv(before, ids, call, CallStep(b, ids, call, i, outcome))
  {
    CallKeepsFlags(ids, call, b, i, outcome);
    CallKeepsLogs(before, ids, call, b, i, outcome);
    if outcome.Panicked? {
      FlowSame(b.stage, b.results, b.orders.auth, b.orders.header, b.orders.verdict, i, Finished);
    } else {
      FlowRan(b.stage, b.results, b.orders.auth, b.orders.header, b.orders.verdict, i, outcome.result);
    }
  }

  lemma {:induction false} TakenSame(ids: seq<nat>, a: seq<Stage>, b: seq<Stage>)
    requires |a| == |b| == |ids| && forall i :: 0 <= i < |a| ==> a[i].Ready? == b[i].Ready?
    ensures forall id: nat :: Taken(ids, a, id) == Taken(ids, b, id)
  {
  }

  /** Merging touches neither the calls nor what the states have seen. */
  lemma {:induction false} MergeKeepsCalls(before: Snapshot, ids: seq<nat>, call: Call, b: BatchState, c: BatchState, i: nat, s: Stage)
    requires CallInv(before, ids, call, b) && i < |ids| && !b.stage[i].Ready? && !b.stage[i].Claimed?
    requires c.stage == b.stage[i := s] && !s.Ready? && !s.Claimed?
    requires c.called == b.called && c.claimed == b.claimed && c.results == b.results
    requires c.now.logs == b.now.logs && c.now.seen == b.now.seen
    ensures CallInv(before, ids, call, c)
  {
    TakenSame(ids, b.stage, c.stage);
    PastUpdate(b.stage, i, s);
  }

  lemma {:induction false} AuthKeepsInv(before: Snapshot, ids: seq<nat>, call: Call, b: BatchState, i: nat, r: CheckResult)
    requires BatchInv(before, ids, call, b) && i < |ids| && b.stage[i] == Ran(r)
    ensures BatchInv(before, ids, call, AuthStep(b, i, r))
  {
    MergeKeepsCalls(before, ids, call, b, AuthStep(b, i, r), i, AuthMerged(r));
    FlowAuth(b.stage, b.results, b.orders.auth, b.orders.header, b.orders.verdict, i, r);
    AuthsConcat(b.orders.auth, [r]);
    assert Auths([r]) == r.auth + Auths([]) == r.auth;
    ConcatAssoc(before.auth, Auths(b.orders.auth), r.auth);
  }

  lemma {:induction false} HeaderKeepsInv(before: Snapshot, ids: seq<nat>, call: Call, b: BatchState, i: nat, r: CheckResult)
    requires BatchInv(before, ids, call, b) && i < |ids| && b.stage[i] == AuthMerged(r)
    ensures BatchInv(before, ids, call, HeaderStep(b, i, r))
  {
    MergeKeepsCalls(before, ids, call, b, HeaderStep(b, i, r), i, HeaderMerged(r));
    FlowHeader(b.stage, b.results, b.orders.auth, b.orders.header, b.orders.verdict, i, r);
    AuthsConcat(b.orders.header, [r]);
    assert Headers([r]) == r.header + Headers([]) == r.header;
    ConcatAssoc(before.header, Headers(b.orders.header), r.header);
  }

  lemma {:induction false} VerdictKeepsInv(before: Snapshot, ids: seq<nat>, call: Call, b: BatchState, i: nat, r: CheckResult)
    requires BatchInv(before, ids, call, b) && i < |ids| && b.stage[i] == HeaderMerged(r)
    ensures BatchInv(before, ids, call, VerdictStep(b, i, r))
  {
    MergeKeepsCalls(before, ids, call, b, VerdictStep(b, i, r), i, Finished);
    FlowVerdict(b.stage, b.results, b.orders.auth, b.orders.header, b.orders.verdict, i, r);
    SlotAppend(b.orders.verdict, r, Rejects);
    SlotAppend(b.orders.verdict, r, Quarantines);
  }

  /** What is left when every goroutine has finished. */
  lemma {:induction false} BatchDone(before: Snapshot, ids: seq<nat>, call: Call, b: BatchState)
    requires BatchInv(before, ids, call, b) && forall i :: 0 <= i < |b.stage| ==> b.stage[i].Finished?
    ensures CallsMade(before, b.now, ids, call)
    ensures ResultsOf(before.logs, b.now.logs, |ids|, b.results) && OrdersOf(b.results, b.orders)
  {
    PastAll(b.stage);
    FlowDone(b.stage, b.results, b.orders);
    CallsDone(before, ids, call, b);
  }

  lemma {:induction false} CallsDone(before: Snapshot, ids: seq<nat>, call: Call, b: BatchState)
    requires CallInv(before, ids, call, b) && forall i :: 0 <= i < |b.stage| ==> b.stage[i].Finished?
    ensures CallsMade(before, b.now, ids, call)
  {
    forall id: nat ensures Count(ids, b.claimed, id) == 0 && (!call.Rcpt? ==> Count(ids, b.called, id) == Occurs(ids, id)) {
      CountAll(ids, b.claimed, id);
      CountAll(ids, b.called, id);
    }
    forall id: nat ensures Taken(ids, b.stage, id) == (id in ids) {
      if id in ids {
        var i :| 0 <= i < |ids| && ids[i] == id;
        assert b.stage[i].Finished?;
      }
    }
    forall id | 0 <= id < |before.logs| ensures Grew(before.logs[id], b.now.logs[id], call, CallsDue(before.seen, ids, call, id)) {
      assert CalledSo(before.logs, b.now.logs, call, ids, b.called, b.claimed, id);
    }
  }

  // ---------------------------------------------------------------- runs

  ghost predicate Sized(ids: seq<nat>, b: BatchState) {
    |b.stage| == |b.called| == |b.claimed| == |ids| && forall k :: 0 <= k < |ids| ==> ids[k] < |b.now.logs|
  }

  /** Goroutine `i` takes one step from `b` to `c`. */
  ghost predicate StepOf(ids: seq<nat>, call: Call, b: BatchState, i: nat, c: BatchState)
    requires Sized(ids, b) && i < |ids|
  {
    match b.stage[i]
    case Ready => c == ClaimStep(b, ids, call, i)
    case Claimed => exists outcome :: c == CallStep(b, ids, call, i, outcome)
    case Ran(r) => c == AuthStep(b, i, r)
    case AuthMerged(r) => c == HeaderStep(b, i, r)
    case HeaderMerged(r) => c == VerdictStep(b, i, r)
    case Finished => false
  }

  ghost predicate SomeStep(ids: seq<nat>, call: Call, b: BatchState, c: BatchState) {
    Sized(ids, b) && exists i :: 0 <= i < |ids| && StepOf(ids, call, b, i, c)
  }

  /** A run of the batch: any sequence of steps, the goroutines taking turns in any way. */
  ghost predicate IsRun(before: Snapshot, ids: seq<nat>, call: Call, run: seq<BatchState>) {
    && run != [] && run[0] == StartBatch(before, ids)
    && forall k :: 0 <= k < |run| - 1 ==> SomeStep(ids, call, run[k], run[k + 1])
  }

  lemma {:induction false} RunExtends(before: Snapshot, ids: seq<nat>, call: Call, run: seq<BatchState>, c: BatchState)
    requires IsRun(before, ids, call, run) && SomeStep(ids, call, Last(run), c)
    ensures IsRun(before, ids, call, run + [c]) && Last(run + [c]) == c
  {
    var longer := run + [c];
    forall k | 0 <= k < |longer| - 1 ensures SomeStep(ids, call, longer[k], longer[k + 1]) {
      if k < |run| - 1 {
        assert SomeStep(ids, call, run[k], run[k + 1]);
      }
    }
  }

  lemma {:induction false} StepKeepsInv(before: Snapshot, ids: seq<nat>, call: Call, b: BatchState, i: nat, c: BatchState)
    requires BatchInv(before, ids, call, b) && Sized(ids, b) && i < |ids| && StepOf(ids, call, b, i, c)
    ensures BatchInv(before, ids, call, c)
  {
    match b.stage[i]
    case Ready => ClaimKeepsInv(before, ids, call, b, i);
    case Claimed =>
      var outcome :| c == CallStep(b, ids, call, i, outcome);
      CallKeepsInv(before, ids, call, b, i, outcome);
    case Ran(r) => AuthKeepsInv(before, ids, call, b, i, r);
    case AuthMerged(r) => HeaderKeepsInv(before, ids, call, b, i, r);
    case HeaderMerged(r) => VerdictKeepsInv(before, ids, call, b, i, r);
  }

  lemma {:induction false} RunKeepsInv(before: Snapshot, ids: seq<nat>, call: Call, run: seq<BatchState>)
    requires IsRun(before, ids, call, run) && forall i :: 0 <= i < |ids| ==> ids[i] < |before.logs|
    ensures BatchInv(before, ids, call, Last(run))
    decreases |run|
  {
    if |run| == 1 {
      StartCalls(before, ids, call);
      StartFlow(StartBatch(before, ids).stage);
    } else {
      var shorter := Front(run);
      forall k | 0 <= k < |shorter| - 1 ensures SomeStep(ids, call, shorter[k], shorter[k + 1]) {
        assert SomeStep(ids, call, run[k], run[k + 1]);
      }
      RunKeepsInv(before, ids, call, shorter);
      var b, c := run[|run| - 2], run[|run| - 2 + 1];
      assert SomeStep(ids, call, b, c);
      var i :| 0 <= i < |ids| && StepOf(ids, call, b, i, c);
      StepKeepsInv(before, ids, call, b, i, c);
    }
  }

  ghost predicate Complete(b: BatchState) {
    forall i :: 0 <= i < |b.stage| ==> b.stage[i].Finished?
  }

  /** The reason to reject the batch, and whether it is to be quarantined, once all have finished. */
  function BatchError(b: BatchState): Option<Reason> {
    if b.rejectSlot.Some? then b.rejectSlot.value else None
  }

  function AfterBatch(b: BatchState): Snapshot {
    if BatchError(b).None? && b.quarantineSlot.Some? && b.quarantineSlot.value.Some? then b.now.(quarantine := true) else b.now
  }

  /** Every interleaving: each state got exactly the calls due to it, and the results were merged in
      some order of their own for each of the things merged. */
  lemma {:induction false} EveryInterleaving(before: Snapshot, ids: seq<nat>, call: Call, run: seq<BatchState>)
    requires IsRun(before, ids, call, run) && Complete(Last(run))
    requires forall i :: 0 <= i < |ids| ==> ids[i] < |before.logs|
    ensures var b := Last(run);
            && CallsMade(before, AfterBatch(b), ids, call)
            && ResultsOf(before.logs, AfterBatch(b).logs, |ids|, b.results) && OrdersOf(b.results, b.orders)
            && Merged(before, AfterBatch(b), b.orders, BatchError(b))
  {
    RunKeepsInv(before, ids, call, run);
    BatchDone(before, ids, call, Last(run));
  }

  // ---------------------------------------------------------------- two runs of the same batch

  /** The states answer alike: the call that becomes entry `k` in the log of state `id` gets `answer(id, k)`. */
  ghost predicate AnsweredBy(a: seq<Log>, b: seq<Log>, answer: (int, int) -> Outcome) {
    forall id, k :: NewEntry(a, b, id, k) ==> b[id].entries[k].outcome == answer(id, k)
  }

  lemma {:induction false} SameAnswersSameLogs(before: Snapshot, a: Snapshot, b: Snapshot, ids: seq<nat>, call: Call, answer: (int, int) -> Outcome)
    requires CallsMade(before, a, ids, call) && AnsweredBy(before.logs, a.logs, answer)
    requires CallsMade(before, b, ids, call) && AnsweredBy(before.logs, b.logs, answer)
    ensures a.logs == b.logs
  {
    forall id | 0 <= id < |before.logs| ensures a.logs[id] == b.logs[id] {
      var due := CallsDue(before.seen, ids, call, id);
      SameLog(before.logs[id], a.logs[id], b.logs[id], call, due, id, answer) by {
        assert Grew(before.logs[id], a.logs[id], call, due) && Grew(before.logs[id], b.logs[id], call, due);
        assert forall k :: |before.logs[id].entries| <= k < |a.logs[id].entries| ==> NewEntry(before.logs, a.logs, id, k);
        assert forall k :: |before.logs[id].entries| <= k < |b.logs[id].entries| ==> NewEntry(before.logs, b.logs, id, k);
      }
    }
  }

  lemma {:induction false} SameLog(log: Log, a: Log, b: Log, call: Call, n: int, id: int, answer: (int, int) -> Outcome)
    requires Grew(log, a, call, n) && Grew(log, b, call, n)
    requires forall k :: |log.entries| <= k < |a.entries| ==> a.entries[k].outcome == answer(id, k)
    requires forall k :: |log.entries| <= k < |b.entries| ==> b.entries[k].outcome == answer(id, k)
    ensures a == b
  {
    forall k | 0 <= k < |a.entries| ensures a.entries[k] == b.entries[k] {
      if k < |log.entries| {
        assert a.entries[k] == log.entries[k] == b.entries[k];
      }
    }
    assert a.entries == b.entries;
  }

  lemma {:induction false} SameResults(before: seq<Log>, after: seq<Log>, n: nat, results: seq<CheckResult>, other: seq<CheckResult>)
    requires ResultsOf(before, after, n, results) && ResultsOf(before, after, n, other)
    ensures multiset(results) == multiset(other)
  {
    forall r ensures SameTally(results, other, r) {
      assert Counted(before, after, n, results, r) && Counted(before, after, n, other, r);
    }
    SameTallies(results, other);
  }

  /** Verdicts over the same results, none of them without its reason. */
  lemma {:induction false} SameVerdict(results: seq<CheckResult>, other: seq<CheckResult>, p: CheckResult -> bool)
    requires multiset(results) == multiset(other) && !MixedReasons(results, p)
    ensures FirstReason(results, p).Some? == FirstReason(other, p).Some?
  {
    Checks.VerdictOrderFreeIff(results, p);
  }

  /** Whatever the turns the goroutines take, states that answer alike make for the same batch: the same
      calls with the same answers, the same results, the same rejection and quarantine unless the results
      that decide on it mix some with a reason and some without, and the same DMARC verdict unless there is
      more than one SPF result. */
  lemma {:induction false} InterleavingsAgree(before: Snapshot, ids: seq<nat>, call: Call, run: seq<BatchState>, other: seq<BatchState>,
                           answer: (int, int) -> Outcome, d: Domains, fromDomain: string, rec: Record)
    requires forall i :: 0 <= i < |ids| ==> ids[i] < |before.logs|
    requires IsRun(before, ids, call, run) && Complete(Last(run)) && AnsweredBy(before.logs, Last(run).now.logs, answer)
    requires IsRun(before, ids, call, other) && Complete(Last(other)) && AnsweredBy(before.logs, Last(other).now.logs, answer)
    ensures AfterBatch(Last(run)).logs == AfterBatch(Last(other)).logs
    ensures multiset(Last(run).results) == multiset(Last(other).results)
    ensures !MixedReasons(Last(run).results, Rejects) ==> BatchError(Last(run)).Some? == BatchError(Last(other)).Some?
    ensures !MixedReasons(Last(run).results, Rejects) && !MixedReasons(Last(run).results, Quarantines) ==>
              AfterBatch(Last(run)).quarantine == AfterBatch(Last(other)).quarantine
    ensures (forall r :: r in Last(run).results ==> Principled(r)) ==>
              BatchError(Last(run)).Some? == BatchError(Last(other)).Some? && AfterBatch(Last(run)).quarantine == AfterBatch(Last(other)).quarantine
    ensures AtMostOneSpf(AfterBatch(Last(run)).auth) ==>
              Evaluate(d, fromDomain, rec, AfterBatch(Last(run)).auth) == Evaluate(d, fromDomain, rec, AfterBatch(Last(other)).auth)
  {
    var a, b := Last(run), Last(other);
    EveryInterleaving(before, ids, call, run);
    EveryInterleaving(before, ids, call, other);
    SameAnswersSameLogs(before, AfterBatch(a), AfterBatch(b), ids, call, answer);
    SameResults(before.logs, AfterBatch(a).logs, |ids|, a.results, b.results);
    MergedAlike(before, AfterBatch(a), AfterBatch(b), a.results, a.orders, b.orders, BatchError(a), BatchError(b), d, fromDomain, rec);
  }

  lemma {:induction false} MergedAlike(before: Snapshot, a: Snapshot, b: Snapshot, results: seq<CheckResult>, x: Orders, y: Orders,
                    e: Option<Reason>, f: Option<Reason>, d: Domains, fromDomain: string, rec: Record)
    requires OrdersOf(results, x) && OrdersOf(results, y) && Merged(before, a, x, e) && Merged(before, b, y, f)
    ensures !MixedReasons(results, Rejects) ==> e.Some? == f.Some?
    ensures !MixedReasons(results, Rejects) && !MixedReasons(results, Quarantines) ==> a.quarantine == b.quarantine
    ensures AtMostOneSpf(a.auth) ==> Evaluate(d, fromDomain, rec, a.auth) == Evaluate(d, fromDomain, rec, b.auth)
  {
    if !MixedReasons(results, Rejects) {
      SameVerdict(results, x.verdict, Rejects);
      SameVerdict(results, y.verdict, Rejects);
    }
    if !MixedReasons(results, Quarantines) {
      SameVerdict(results, x.verdict, Quarantines);
      SameVerdict(results, y.verdict, Quarantines);
    }
    if AtMostOneSpf(a.auth) {
      BatchOrderDoesNotChangeDmarc(d, fromDomain, rec, before.auth, x.auth, y.auth);
    }
  }
}
