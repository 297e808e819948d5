/** The check runner: one state object per check and message, created when first needed, caught up on
    what it missed, and run in batches of goroutines whose results are merged. */
module CheckRunner {
  import opened Common
  import opened Dmarc
  import opened Checks
  import opened CheckBatch
  import opened CheckLogs
  import opened CheckAnswers
  import opened CheckHistory
  import opened CheckMaking

  /** When getting states fails, states that were there before are closed: none if none is asked for, and some
      if the first check asked for has one. */
  ghost predicate Reclosing(before: bool, ok: bool, checks: seq<Check>, states: map<Check, nat>, after: bool) {
    && (ok || !AnyIn(checks, states) ==> after == before)
    && (before || (!ok && checks != [] && checks[0] in states) ==> after)
  }

  ghost predicate EachClosed(logs: seq<Log>) {
    forall id :: 0 <= id < |logs| ==> logs[id].closes >= 1
  }

  /** Registrations are never changed or removed. */
  ghost predicate Kept(a: map<Check, nat>, b: map<Check, nat>) {
    forall c :: KeptAt(a, b, c)
  }

  ghost predicate KeptAt(a: map<Check, nat>, b: map<Check, nat>, c: Check) {
    c in a ==> c in b && b[c] == a[c]
  }

  ghost predicate AllListed(checks: seq<Check>, states: map<Check, nat>, ids: seq<nat>) {
    forall c :: c in checks ==> c in states && states[c] in ids
  }

  /** The states created late have been caught up. */
  ghost predicate LateCaughtUp(checks: seq<Check>, before: map<Check, nat>, states: map<Check, nat>, logs: seq<Log>, missed: Missed) {
    forall c :: c in checks && c !in before ==> CaughtUpAt(states, logs, missed, c)
  }

  ghost predicate CaughtUpAt(states: map<Check, nat>, logs: seq<Log>, missed: Missed, c: Check) {
    && c in states && states[c] < |logs| && logs[states[c]].missed == missed
    && CaughtUp(logs[states[c]].entries, missed.from, missed.rcpts)
  }

  /** The states created late were caught up before anything else. */
  ghost predicate LateOpened(checks: seq<Check>, before: map<Check, nat>, states: map<Check, nat>, logs: seq<Log>, missed: Missed) {
    forall c :: c in checks && c !in before ==> OpenedAt(states, logs, missed, c)
  }

  ghost predicate OpenedAt(states: map<Check, nat>, logs: seq<Log>, missed: Missed, c: Check) {
    c in states && states[c] < |logs| && logs[states[c]].missed == missed && Opened(logs[states[c]])
  }

  /** Each of these states has been shown the recipient. */
  ghost predicate AllSaw(ids: seq<nat>, logs: seq<Log>, to: string) {
    forall id :: id in ids ==> id < |logs| && to in RcptsOf(logs[id].entries)
  }

  /** Each of the checks has a registered state. */
  ghost predicate AllIn(checks: seq<Check>, states: map<Check, nat>) {
    forall c :: c in checks ==> c in states
  }

  /** Each of these checks has a state that has been shown the recipient. */
  ghost predicate AllShown(checks: seq<Check>, states: map<Check, nat>, logs: seq<Log>, to: string) {
    forall c :: c in checks ==> ShownAt(states, logs, to, c)
  }

  ghost predicate ShownAt(states: map<Check, nat>, logs: seq<Log>, to: string, c: Check) {
    c in states && states[c] < |logs| && to in RcptsOf(logs[states[c]].entries)
  }

  lemma {:induction false} AllShownStill(checks: seq<Check>, s: map<Check, nat>, t: map<Check, nat>, a: seq<Log>, b: seq<Log>, to: string)
    requires AllShown(checks, s, a, to) && Kept(s, t) && Extends(a, b)
    ensures AllShown(checks, t, b, to)
  {
    forall c | c in checks ensures ShownAt(t, b, to, c) {
      assert ShownAt(s, a, to, c) && KeptAt(s, t, c) && ExtendsAt(a, b, s[c]);
      RcptsKept(a[s[c]].entries, b[t[c]].entries, to);
    }
  }

  /** The recipient was presented to the states of all these checks, in a batch that rejected nothing. */
  ghost predicate Cleared(checks: seq<Check>, states: map<Check, nat>, logs: seq<Log>, history: seq<BatchRecord>, to: string) {
    AllShown(checks, states, logs, to) && Passed(history, 0, states, checks, Rcpt(to))
  }

  lemma {:induction false} ClearedStill(checks: seq<Check>, s: map<Check, nat>, t: map<Check, nat>, a: seq<Log>, b: seq<Log>,
                                        x: seq<BatchRecord>, y: seq<BatchRecord>, to: string)
    requires Cleared(checks, s, a, x, to) && Kept(s, t) && Extends(a, b) && x <= y
    ensures Cleared(checks, t, b, y, to)
  {
    AllShownStill(checks, s, t, a, b, to);
    StillPassed(x, y, 0, s, t, checks, Rcpt(to));
  }

  lemma {:induction false} StillPassed(a: seq<BatchRecord>, b: seq<BatchRecord>, from: nat, s: map<Check, nat>, t: map<Check, nat>,
                                       checks: seq<Check>, call: Call)
    requires a <= b && Kept(s, t) && Passed(a, from, s, checks, call)
    ensures Passed(b, from, t, checks, call)
  {
    var k: nat :| PassedAt(a, k, from, s, checks, call);
    assert b[k] == a[k];
    forall c | c in checks ensures c in t && t[c] in b[k].ids {
      assert KeptAt(s, t, c);
    }
    assert PassedAt(b, k, from, t, checks, call);
  }

  lemma {:induction false} PassedSince(history: seq<BatchRecord>, later: nat, from: nat, states: map<Check, nat>, checks: seq<Check>, call: Call)
    requires from <= later && Passed(history, later, states, checks, call)
    ensures Passed(history, from, states, checks, call)
  {
    var k: nat :| PassedAt(history, k, later, states, checks, call);
    assert PassedAt(history, k, from, states, checks, call);
  }

  lemma {:induction false} ShownToAll(checks: seq<Check>, states: map<Check, nat>, ids: seq<nat>, logs: seq<Log>, to: string)
    requires AllListed(checks, states, ids) && AllSaw(ids, logs, to)
    ensures AllShown(checks, states, logs, to)
  {
    forall c | c in checks ensures ShownAt(states, logs, to, c) {
    }
  }

  lemma {:induction false} GoesOn(a: seq<Log>, b: seq<Log>, c: seq<Log>, x: seq<BatchRecord>, y: seq<BatchRecord>, z: seq<BatchRecord>)
    requires Onward(a, b) && Onward(b, c) && NoBodies(x, y) && NoBodies(y, z)
    ensures Onward(a, c) && NoBodies(x, z)
    ensures NoneRejected(y, |x|) && NoneRejected(z, |y|) ==> NoneRejected(z, |x|)
  {
    ExtendsOn(a, b, c);
    forall id | 0 <= id < |a| ensures SameClosesAt(a, c, id) {
      assert SameClosesAt(a, b, id) && SameClosesAt(b, c, id);
    }
    assert forall k :: 0 <= k < |y| ==> z[k] == y[k];
  }

  lemma {:induction false} LateStaysOpened(checks: seq<Check>, before: map<Check, nat>, states: map<Check, nat>, a: seq<Log>, b: seq<Log>, missed: Missed)
    requires LateCaughtUp(checks, before, states, a, missed) && Extends(a, b) && Registered(states, b)
    ensures LateOpened(checks, before, states, b, missed)
  {
    forall c | c in checks && c !in before ensures OpenedAt(states, b, missed, c) {
      assert CaughtUpAt(states, a, missed, c) && ExtendsAt(a, b, states[c]) && RegisteredAt(states, b, c);
    }
  }

  /** Nothing but the number of times they were closed differs. */
  ghost predicate SameButClosed(a: seq<Log>, b: seq<Log>) {
    |b| == |a| && forall id :: 0 <= id < |a| ==>
      b[id].check == a[id].check && b[id].missed == a[id].missed && b[id].entries == a[id].entries
  }

  lemma {:induction false} ClosingKeeps(a: seq<Log>, b: seq<Log>, states: map<Check, nat>)
    requires SameButClosed(a, b) && Registered(states, a)
    ensures Registered(states, b)
  {
    forall c ensures RegisteredAt(states, b, c) {
      assert RegisteredAt(states, a, c);
    }
  }

  lemma {:induction false} GrewOnward(a: Snapshot, b: Snapshot, ids: seq<nat>, call: Call)
    requires CallsMade(a, b, ids, call)
    ensures Onward(a.logs, b.logs)
  {
    forall id | 0 <= id < |a.logs| ensures ExtendsAt(a.logs, b.logs, id) && SameClosesAt(a.logs, b.logs, id) {
      assert Grew(a.logs[id], b.logs[id], call, CallsDue(a.seen, ids, call, id));
    }
  }

  lemma {:induction false} AllSeenNow(a: Snapshot, b: Snapshot, ids: seq<nat>, to: string)
    requires CallsMade(a, b, ids, Rcpt(to)) && AllSeenRight(b.logs, b.seen) && Within(ids, |a.logs|)
    ensures AllSaw(ids, b.logs, to)
  {
    forall id | id in ids ensures id < |b.logs| && to in RcptsOf(b.logs[id].entries) {
      assert SeenRight(b.logs[id], Seen(b.seen, id));
    }
  }

  lemma {:induction false} LivesOn(states: map<Check, nat>, a: seq<Log>, b: seq<Log>, clean: bool, reclosed: bool)
    requires Lives(states, a, clean, reclosed) && Onward(a, b)
    ensures Lives(states, b, clean, reclosed)
  {
    forall id | 0 <= id < |a|
      ensures Cared(states, b, id) == Cared(states, a, id) && Proper(states, b, id) == Proper(states, a, id)
    {
      assert ExtendsAt(a, b, id) && SameClosesAt(a, b, id);
    }
  }

  lemma {:induction false} ReclosingRight(before: bool, ok: bool, checks: seq<Check>, got: nat, states: map<Check, nat>, after: bool)
    requires got <= |checks| && (got < |checks| ==> checks[got] !in states) && after == (before || (!ok && AnyIn(checks[..got], states)))
    ensures Reclosing(before, ok, checks, states, after)
  {
    if AnyIn(checks[..got], states) {
      var c :| c in checks[..got] && c in states;
      assert c in checks;
    }
    if got > 0 {
      assert checks[..got][0] == checks[0];
    }
  }

  class Runner {
    var mailFrom: string
    var mailFromReceived: bool
    var checkedRcpts: seq<string>
    var seen: map<nat, set<string>>
    var states: map<Check, nat>
    var auth: seq<AuthResult>
    var header: seq<string>
    var quarantine: bool
    var created: nat
    ghost var logs: seq<Log>
    ghost var history: seq<BatchRecord>
    ghost var clean: bool
    ghost var reclosed: bool
    const doDMARC: bool
    const verifier: Verifier
    var didFetch: bool
    var msgQuarantine: bool
    /** What DMARC made of the message, once it has been asked. */
    ghost var judged: Option<Applied>

    constructor (doDMARC: bool, domains: Domains, msgQuarantine: bool)
      ensures fresh(verifier) && verifier.fetched.None? && verifier.domains == domains
      ensures this.doDMARC == doDMARC && !didFetch && this.msgQuarantine == msgQuarantine
      ensures Valid() && created == 0 && !mailFromReceived && checkedRcpts == [] && states == map[] && history == []
      ensures clean && !reclosed && auth == [] && !quarantine && judged.None?
    {
      mailFrom, mailFromReceived, checkedRcpts := "", false, [];
      seen, states, created := map[], map[], 0;
      auth, header, quarantine := [], [], false;
      logs, history, clean, reclosed, judged := [], [], true, false, None;
      this.doDMARC, this.msgQuarantine, didFetch := doDMARC, msgQuarantine, false;
      verifier := new Verifier(domains);
      SoundStart();
    }

    ghost predicate Base()
      reads `created, `logs, `seen, `history, `quarantine, `checkedRcpts
    {
      created == |logs| && Sound(Tape(logs, seen, checkedRcpts, history, quarantine))
    }

    /** While checks run: the authentication results and header fields are those of the batches. */
    ghost predicate Core()
      reads `created, `logs, `seen, `history, `quarantine, `checkedRcpts, `auth, `header, `judged
    {
      Base() && Gathered(history, auth, header) && judged.None?
    }

    ghost predicate Books()
      reads `created, `logs, `seen, `history, `quarantine, `checkedRcpts, `states, `clean, `reclosed
    {
      Base() && Registered(states, logs) && Lives(states, logs, clean, reclosed)
    }

    ghost predicate Valid()
      reads `created, `logs, `seen, `history, `quarantine, `checkedRcpts, `auth, `header, `judged, `states, `clean, `reclosed
    {
      Core() && Registered(states, logs) && Lives(states, logs, clean, reclosed)
    }

    ghost function Now(): Snapshot
      reads `logs, `seen, `auth, `header, `quarantine
    {
      Snapshot(logs, seen, auth, header, quarantine)
    }

    /** Goroutine `i` takes on its call, under the lock that guards what the states have seen. */
    method Claim(ids: seq<nat>, call: Call, i: nat, ghost b: BatchState) returns (next: Stage)
      requires i < |ids| == |b.stage| == |b.called| == |b.claimed| && b.now == Now()
      modifies `seen
      ensures Now() == ClaimStep(b, ids, call, i).now && StepsLeft(next) < 5
      ensures ClaimStep(b, ids, call, i).stage == b.stage[i := next]
    {
      if call.Rcpt? && call.to in Seen(seen, ids[i]) {
        return Ran(NO_RESULT);
      }
      if call.Rcpt? {
        seen := seen[ids[i] := Seen(seen, ids[i]) + {call.to}];
      }
      return Claimed;
    }

    /** Goroutine `i` calls its check state, which answers anything, or panics. */
    method MakeCall(ids: seq<nat>, call: Call, i: nat, ghost b: BatchState) returns (next: Stage, ghost outcome: Outcome)
      requires i < |ids| == |b.stage| == |b.claimed| && ids[i] < |logs| && b.now == Now()
      modifies `logs
      ensures Now() == CallStep(b, ids, call, i, outcome).now && StepsLeft(next) < 4
      ensures CallStep(b, ids, call, i, outcome).stage == b.stage[i := next]
    {
      var panics: bool := *;
      if panics {
        outcome, next := Panicked, Finished;
      } else {
        var result: CheckResult := *;
        outcome, next := Returned(result), Ran(result);
      }
      logs := AddEntry(logs, ids[i], Entry(call, outcome));
    }

    /** Lets the goroutines interleave in any way, and waits for all. */
    method Interleave(ids: seq<nat>, call: Call) returns (slots: (Option<Option<Reason>>, Option<Option<Reason>>), ghost run: seq<BatchState>)
      requires created == |logs| && Within(ids, created)
      modifies `seen, `logs, `auth, `header
      ensures IsRun(old(Now()), ids, call, run) && Complete(Last(run))
      ensures Matches(Last(run), Last(run).stage, slots)
    {
      ghost var before := Now();
      var stage := seq(|ids|, _ => Ready);
      slots := (None, None);
      run := [StartBatch(before, ids)];
      while exists i :: 0 <= i < |stage| && !stage[i].Finished?
        invariant IsRun(before, ids, call, run) && Sized(ids, Last(run)) && Matches(Last(run), stage, slots)
        decreases Work(stage)
      {
        var i :| 0 <= i < |stage| && !stage[i].Finished?;
        ghost var b;
        stage, slots, b := Advance(ids, call, stage, slots, i, Last(run));
        RunExtends(before, ids, call, run, b);
        run := run + [b];
      }
    }

    /** Starts one goroutine for every state and merges what they come to. */
    method RunAndMergeResults(ids: seq<nat>, call: Call) returns (err: Option<Reason>, ghost record: BatchRecord)
      requires created == |logs| && Within(ids, created)
      modifies `seen, `logs, `auth, `header, `quarantine, `history
      ensures CallsMade(old(Now()), Now(), ids, call)
      ensures history == old(history) + [record]
      ensures record.ids == ids && record.call == call && record.err == err && record.before == old(logs) && record.after == logs
      ensures ResultsOf(old(logs), logs, |ids|, record.results) && OrdersOf(record.results, record.orders)
      ensures Merged(old(Now()), Now(), record.orders, err)
    {
      ghost var before := Now();
      var slots, run := Interleave(ids, call);
      err := if slots.1.Some? then slots.1.value else None;
      if err.None? && slots.0.Some? && slots.0.value.Some? {
        quarantine := true;
      }
      record := BatchRecord(ids, call, before.logs, logs, Last(run).results, Last(run).orders, err);
      history := history + [record];
      assert Now() == AfterBatch(Last(run)) && err == BatchError(Last(run));
      EveryInterleaving(before, ids, call, run);
    }

    /** The batch state agrees with the runner and with the data local to the batch. */
    ghost predicate Matches(b: BatchState, stage: seq<Stage>, slots: (Option<Option<Reason>>, Option<Option<Reason>>))
      reads this
    {
      b.now == Now() && b.stage == stage && b.quarantineSlot == slots.0 && b.rejectSlot == slots.1
    }

    /** One step of goroutine `i`. */
    method Advance(ids: seq<nat>, call: Call, stage: seq<Stage>,
                   slots: (Option<Option<Reason>>, Option<Option<Reason>>), i: nat, ghost b: BatchState)
      returns (stage': seq<Stage>, slots': (Option<Option<Reason>>, Option<Option<Reason>>), ghost b': BatchState)
      requires Sized(ids, b) && Matches(b, stage, slots) && i < |stage| && !stage[i].Finished?
      modifies `seen, `logs, `auth, `header
      ensures Sized(ids, b') && Matches(b', stage', slots') && SomeStep(ids, call, b, b')
      ensures Work(stage') < Work(stage)
    {
      slots' := slots;
      var next: Stage;
      match stage[i] {
        case Ready =>
          b' := ClaimStep(b, ids, call, i);
          next := Claim(ids, call, i, b);
        case Claimed =>
          ghost var outcome;
          next, outcome := MakeCall(ids, call, i, b);
          b' := CallStep(b, ids, call, i, outcome);
        case Ran(r) =>
          b' := AuthStep(b, i, r);
          next := AuthMerged(r);
          MergeAuth(r);
        case AuthMerged(r) =>
          b' := HeaderStep(b, i, r);
          next := HeaderMerged(r);
          MergeHeader(r);
        case HeaderMerged(r) =>
          b' := VerdictStep(b, i, r);
          next := Finished;
          slots' := FillSlots(r, slots);
      }
      assert StepOf(ids, call, b, i, b');
      WorkUpdate(stage, i, next);
      stage' := stage[i := next];
    }

    method MergeAuth(r: CheckResult)
      modifies `auth
      ensures auth == old(auth) + r.auth
    {
      if r.auth != [] {
        auth := auth + r.auth;
      }
    }

    method MergeHeader(r: CheckResult)
      modifies `header
      ensures header == old(header) + r.header
    {
      if r.header != [] {
        header := header + r.header;
      }
    }

    /** The first result to quarantine, and the first to reject, is kept. */
    method FillSlots(r: CheckResult, slots: (Option<Option<Reason>>, Option<Option<Reason>>))
      returns (filled: (Option<Option<Reason>>, Option<Option<Reason>>))
      ensures filled.0 == if Quarantines(r) && slots.0.None? then Some(r.reason) else slots.0
      ensures filled.1 == if Rejects(r) && slots.1.None? then Some(r.reason) else slots.1
    {
      filled := slots;
      if r.quarantine {
        if slots.0.None? {
          filled := (Some(r.reason), slots.1);
        }
      } else if r.reject {
        if slots.1.None? {
          filled := (slots.0, Some(r.reason));
        }
      }
    }
  
    /** A batch, with what it does to the runner's records. */
    method RunBatch(ids: seq<nat>, call: Call) returns (err: Option<Reason>)
      requires Core() && Within(ids, created)
      modifies `seen, `logs, `auth, `header, `quarantine, `history
      ensures Core() && CallsMade(old(Now()), Now(), ids, call)
      ensures |history| == |old(history)| + 1 && old(history) <= history
      ensures Last(history).ids == ids && Last(history).call == call && Last(history).err == err
    {
      ghost var record;
      err, record := RunAndMergeResults(ids, call);
      GrewOnward(old(Now()), Now(), ids, call);
      SoundBatch(old(Now()), Now(), checkedRcpts, old(history), record);
      GatheredMore(old(history), old(auth), old(header), record);
    }

    /** A batch over registered states, or over states that are all new. */
    method RunOver(ids: seq<nat>, call: Call) returns (err: Option<Reason>)
      requires Core() && Registered(states, logs) && Within(ids, created)
      requires call.Rcpt? || call.Body? || Unlisted(states, ids)
      modifies `seen, `logs, `auth, `header, `quarantine, `history
      ensures Core() && Registered(states, logs) && CallsMade(old(Now()), Now(), ids, call)
      ensures Onward(old(logs), logs)
      ensures |history| == |old(history)| + 1 && old(history) <= history
      ensures Last(history).ids == ids && Last(history).call == call && Last(history).err == err
      ensures !call.Body? ==> NoBodies(old(history), history)
      ensures err.None? ==> NoneRejected(history, |old(history)|)
    {
      ghost var before := Now();
      err := RunBatch(ids, call);
      BatchKeepsRegistered(before, Now(), ids, call, states);
    }

    /** Creates the states that are not there yet. `newIds` lists the new ones, `added` says whose they are. */
    method CreateStates(checks: seq<Check>) returns (ids: seq<nat>, newIds: seq<nat>, added: map<Check, nat>, failed: Option<Reason>, ghost got: nat)
      requires created == |logs| && Below(states, created)
      modifies `created, `logs
      ensures created == |logs| && old(logs) <= logs && NewBlank(logs, |old(logs)|)
      ensures NewListed(logs, |old(logs)|, ids) && NewUnclosed(logs, |old(logs)|) && Within(ids, created)
      ensures NewMissed(logs, |old(logs)|, Missed(mailFrom, checkedRcpts))
      ensures newIds == IdsFrom(old(created), created)
      ensures failed.None? ==> AddedFor(added, checks, states) && Lists(ids, checks, states)
      ensures NewAdded(added, logs, |old(logs)|) && OwnOrNew(ids, states, |old(logs)|)
      ensures failed.None? ==> (NewOnce(checks, states) <==> NewInUse(added, logs, |old(logs)|))
      ensures Obtained(ids, |old(logs)|, checks, got, states) && (failed.None? ==> got == |checks|)
    {
      ids, newIds, added, failed := [], [], map[], None;
      ghost var lo, missed := |logs|, Missed(mailFrom, checkedRcpts);
      var i := 0;
      MakeNone(checks, states, logs, missed);
      while i < |checks| && failed.None?
        invariant created == |logs| && old(logs) <= logs
        invariant Making(checks, i, states, lo, logs, ids, newIds, added, missed)
        invariant failed.Some? ==> i < |checks| && checks[i] !in states
        decreases |checks| - i, failed.None?
      {
        var check := checks[i];
        if check in states {
          MakeOld(checks, i, states, lo, logs, ids, newIds, added, missed);
          ids := ids + [states[check]];
          i := i + 1;
        } else {
          var refused: bool := *;
          if refused {
            failed := Some(Reason("no state"));
          } else {
            MakeNew(checks, i, states, lo, logs, ids, newIds, added, missed);
            var id := created;
            logs := logs + [Log(check, Missed(mailFrom, checkedRcpts), [], 0)];
            created := created + 1;
            ids, newIds, added := ids + [id], newIds + [id], added[check := id];
            i := i + 1;
          }
        }
      }
      got := i;
      MakeDone(checks, i, states, lo, logs, ids, newIds, added, missed);
    }

    /** Shows the new states the connection, the sender and every recipient recorded so far. */
    method Replay(ids: seq<nat>, newIds: seq<nat>, ghost lo: nat) returns (err: Option<Reason>)
      requires Core() && Registered(states, logs) && mailFromReceived
      requires lo <= created && newIds == IdsFrom(lo, created) && Below(states, lo)
      requires Within(ids, created) && NewBlank(logs, lo) && NewListed(logs, lo, ids)
      modifies `seen, `logs, `auth, `header, `quarantine, `history
      ensures Core() && Registered(states, logs)
      ensures Onward(old(logs), logs)
      ensures NoBodies(old(history), history) && (err.None? ==> NoneRejected(history, |old(history)|))
      ensures err.None? ==> NewCaughtUp(logs, lo, mailFrom, checkedRcpts)
    {
      err := Greet(newIds, lo);
      var k := 0;
      assert checkedRcpts[..0] == [];
      while k < |checkedRcpts| && err.None?
        invariant 0 <= k <= |checkedRcpts| && Core() && Registered(states, logs)
        invariant Onward(old(logs), logs) && NoBodies(old(history), history)
        invariant err.None? ==> NoneRejected(history, |old(history)|) && NewCaughtUp(logs, lo, mailFrom, checkedRcpts[..k])
      {
        ghost var logs1, history1 := logs, history;
        err := ReplayRcpt(ids, checkedRcpts[k], lo, checkedRcpts[..k]);
        GoesOn(old(logs), logs1, logs, old(history), history1, history);
        assert checkedRcpts[..k + 1] == checkedRcpts[..k] + [checkedRcpts[k]];
        k := k + 1;
      }
      assert err.None? ==> checkedRcpts[..k] == checkedRcpts;
    }

    /** One recorded recipient, shown to every state in the list that has not seen it. */
    method ReplayRcpt(ids: seq<nat>, to: string, ghost lo: nat, ghost earlier: seq<string>) returns (err: Option<Reason>)
      requires Core() && Registered(states, logs)
      requires Within(ids, created) && NewListed(logs, lo, ids) && NewCaughtUp(logs, lo, mailFrom, earlier)
      modifies `seen, `logs, `auth, `header, `quarantine, `history
      ensures Core() && Registered(states, logs) && Onward(old(logs), logs)
      ensures NoBodies(old(history), history) && (err.None? ==> NoneRejected(history, |old(history)|))
      ensures NewCaughtUp(logs, lo, mailFrom, earlier + [to])
    {
      ghost var before := Now();
      err := RunOver(ids, Rcpt(to));
      assert Holds(Tape(before.logs, before.seen, checkedRcpts, old(history), before.quarantine), OfSeen);
      NewNext(before, Now(), ids, lo, mailFrom, earlier, to);
    }

    /** The connection and sender part of the replay. */
    method Greet(newIds: seq<nat>, ghost lo: nat) returns (err: Option<Reason>)
      requires Core() && Registered(states, logs)
      requires lo <= created && newIds == IdsFrom(lo, created) && Below(states, lo) && NewBlank(logs, lo)
      modifies `seen, `logs, `auth, `header, `quarantine, `history
      ensures Core() && Registered(states, logs)
      ensures Onward(old(logs), logs)
      ensures NoBodies(old(history), history) && (err.None? ==> NoneRejected(history, |old(history)|))
      ensures err.None? ==> NewCaughtUp(logs, lo, mailFrom, [])
    {
      ghost var start := Now();
      NewApart(newIds, lo, created, states);
      err := RunOver(newIds, Connection);
      ghost var middle, history1 := Now(), history;
      if err.None? {
        err := RunOver(newIds, Sender(mailFrom));
        GoesOn(start.logs, middle.logs, logs, old(history), history1, history);
        Greeted(start, middle, Now(), newIds, lo, mailFrom);
      }
    }

    method CloseStates(ids: seq<nat>)
      requires created == |logs| && Within(ids, created)
      modifies `logs
      ensures ClosedMore(old(logs), logs, ids)
    {
      var i := 0;
      while i < |ids|
        invariant 0 <= i <= |ids| && |logs| == |old(logs)|
        invariant forall id :: 0 <= id < |logs| ==>
                    logs[id] == old(logs)[id].(closes := old(logs)[id].closes + Occurs(ids[..i], id))
      {
        var id := ids[i];
        assert Front(ids[..i + 1]) == ids[..i] && Last(ids[..i + 1]) == id;
        logs := logs[id := logs[id].(closes := logs[id].closes + 1)];
        i := i + 1;
      }
      assert ids[..i] == ids;
    }

    /** The states of these checks, created and caught up where needed. If anything fails, every state
        of the list that was obtained is closed, and nothing is registered. */
    method CheckStates(checks: seq<Check>) returns (r: Result<seq<nat>, Reason>, ghost got: nat)
      requires Valid() && mailFromReceived
      modifies `created, `logs, `seen, `auth, `header, `quarantine, `history, `states, `clean, `reclosed
      ensures Valid() && Extends(old(logs), logs) && NoBodies(old(history), history)
      ensures clean == (old(clean) && (r.Ok? ==> NewOnce(checks, old(states))))
      ensures got <= |checks| && (got < |checks| ==> checks[got] !in old(states))
      ensures reclosed == (old(reclosed) || (r.Err? && AnyIn(checks[..got], old(states))))
      ensures Reclosing(old(reclosed), r.Ok?, checks, old(states), reclosed)
      ensures Tidily(old(clean), checks, clean)
      ensures r.Err? ==> states == old(states)
      ensures r.Ok? ==> SameCloses(old(logs), logs) && NoneRejected(history, |old(history)|) && Within(r.value, created)
      ensures r.Ok? ==> states.Keys == old(states).Keys + (set c | c in checks)
      ensures Kept(old(states), states) && (r.Ok? ==> AllListed(checks, states, r.value))
      ensures r.Ok? ==> LateCaughtUp(checks, old(states), states, logs, Missed(mailFrom, checkedRcpts))
    {
      ghost var logs0, states0 := logs, states;
      var ids, added, failed;
      ids, added, failed, got := ObtainStates(checks);
      if failed.Some? {
        GiveUp(ids, logs0);
        r := Err(failed.value);
      } else {
        Register(checks, added, logs0);
        EveryCheckListed(ids, checks, states0, added, logs, |logs0|, mailFrom, checkedRcpts);
        r := Ok(ids);
      }
      ReclosingRight(old(reclosed), r.Ok?, checks, got, states0, reclosed);
    }

    method Register(ghost checks: seq<Check>, added: map<Check, nat>, ghost logs0: seq<Log>)
      requires Registered(states, logs0) && Registered(states, logs) && Lives(states, logs0, clean, reclosed)
      requires Extends(logs0, logs) && SameCloses(logs0, logs)
      requires AddedFor(added, checks, states) && NewAdded(added, logs, |logs0|)
      requires NewCaughtUp(logs, |logs0|, mailFrom, checkedRcpts) && NewMissed(logs, |logs0|, Missed(mailFrom, checkedRcpts))
      requires NewUnclosed(logs, |logs0|)
      requires NewOnce(checks, states) <==> NewInUse(added, logs, |logs0|)
      modifies `states, `clean
      ensures Registered(states, logs) && Lives(states, logs, clean, reclosed)
      ensures clean == (old(clean) && NewOnce(checks, old(states))) && states == old(states) + added
    {
      RegisteringKeepsBooks(logs0, logs, states, added, mailFrom, checkedRcpts, clean, reclosed, NewOnce(checks, states));
      clean := clean && NewOnce(checks, states);
      states := states + added;
    }

    /** The new states change nothing about the others. */
    method NewStates(checks: seq<Check>) returns (ids: seq<nat>, newIds: seq<nat>, added: map<Check, nat>, failed: Option<Reason>, ghost got: nat)
      requires Core() && Registered(states, logs)
      modifies `created, `logs
      ensures Core() && Registered(states, logs) && Extends(old(logs), logs) && SameCloses(old(logs), logs)
      ensures NewBlank(logs, |old(logs)|)
      ensures NewListed(logs, |old(logs)|, ids) && NewUnclosed(logs, |old(logs)|) && Within(ids, created)
      ensures NewMissed(logs, |old(logs)|, Missed(mailFrom, checkedRcpts))
      ensures old(created) <= created && newIds == IdsFrom(old(created), created)
      ensures failed.None? ==> AddedFor(added, checks, states) && Lists(ids, checks, states)
      ensures NewAdded(added, logs, |old(logs)|) && OwnOrNew(ids, states, |old(logs)|)
      ensures failed.None? ==> (NewOnce(checks, states) <==> NewInUse(added, logs, |old(logs)|))
      ensures Obtained(ids, |old(logs)|, checks, got, states) && (failed.None? ==> got == |checks|)
    {
      RegisteredBelow(states, logs);
      ids, newIds, added, failed, got := CreateStates(checks);
      RegisteredMore(states, old(logs), logs);
      SoundStill(old(Tape(logs, seen, checkedRcpts, history, quarantine)), logs);
    }

    /** Creates the missing states and catches them up, without registering them yet. */
    method ObtainStates(checks: seq<Check>) returns (ids: seq<nat>, added: map<Check, nat>, failed: Option<Reason>, ghost got: nat)
      requires Core() && Registered(states, logs) && mailFromReceived
      modifies `created, `logs, `seen, `auth, `header, `quarantine, `history
      ensures Core() && Registered(states, logs) && NoBodies(old(history), history)
      ensures Extends(old(logs), logs) && SameCloses(old(logs), logs)
      ensures NewListed(logs, |old(logs)|, ids) && NewUnclosed(logs, |old(logs)|) && Within(ids, created)
      ensures failed.None? ==> NoneRejected(history, |old(history)|) && Lists(ids, checks, states)
      ensures failed.None? ==> AddedFor(added, checks, states) && NewAdded(added, logs, |old(logs)|)
      ensures failed.None? ==> NewCaughtUp(logs, |old(logs)|, mailFrom, checkedRcpts)
      ensures NewMissed(logs, |old(logs)|, Missed(mailFrom, checkedRcpts))
      ensures OwnOrNew(ids, states, |old(logs)|)
      ensures failed.None? ==> (NewOnce(checks, states) <==> NewInUse(added, logs, |old(logs)|))
      ensures Obtained(ids, |old(logs)|, checks, got, states)
    {
      ghost var lo, logs0 := created, logs;
      RegisteredBelow(states, logs);
      var newIds;
      ids, newIds, added, failed, got := NewStates(checks);
      if failed.None? && newIds != [] {
        ghost var logs1 := logs;
        failed := Replay(ids, newIds, lo);
        ReplayKeepsNew(logs0, logs1, logs, added, Missed(mailFrom, checkedRcpts));
      }
    }

    /** Closes every state of the list after a failure. */
    method GiveUp(ids: seq<nat>, ghost logs0: seq<Log>)
      requires Core() && Registered(states, logs0) && Registered(states, logs) && Lives(states, logs0, clean, reclosed)
      requires Extends(logs0, logs) && SameCloses(logs0, logs) && Within(ids, created)
      requires NewListed(logs, |logs0|, ids) && NewUnclosed(logs, |logs0|) && OwnOrNew(ids, states, |logs0|)
      modifies `logs, `reclosed
      ensures Valid() && Extends(logs0, logs) && reclosed == (old(reclosed) || Reclaims(ids, |logs0|))
    {
      ghost var logs2 := logs;
      CloseStates(ids);
      FailureLeavesNothing(logs0, logs2, logs, ids, states, clean, reclosed);
      ClosedExtends(logs0, logs2, logs, ids);
      SoundStill(Tape(logs2, seen, checkedRcpts, history, quarantine), logs);
      ClosingKeeps(logs2, logs, states);
      reclosed := reclosed || Reclaims(ids, |logs0|);
    }

    /** Runs the connection and sender checks. */
    method CheckConnSender(checks: seq<Check>, from: string) returns (err: Option<Reason>)
      requires Valid()
      modifies `created, `logs, `seen, `auth, `header, `quarantine, `history, `states, `clean, `reclosed, `mailFrom, `mailFromReceived
      ensures Valid() && mailFromReceived && mailFrom == from
      ensures Extends(old(logs), logs) && NoBodies(old(history), history)
      ensures clean == (old(clean) && (err.None? ==> NewOnce(checks, old(states))))
      ensures Reclosing(old(reclosed), err.None?, checks, old(states), reclosed)
      ensures Tidily(old(clean), checks, clean)
      ensures err.Some? ==> states == old(states)
      ensures Kept(old(states), states)
      ensures err.None? ==> NoneRejected(history, |old(history)|) && states.Keys == old(states).Keys + (set c | c in checks)
      ensures err.None? ==> LateCaughtUp(checks, old(states), states, logs, Missed(from, checkedRcpts))
    {
      mailFrom, mailFromReceived := from, true;
      var r;
      ghost var got;
      r, got := CheckStates(checks);
      err := if r.Err? then Some(r.error) else None;
    }

    /** Presents a recipient to the checks; a state that has seen it is not asked again. */
    method CheckRcpt(checks: seq<Check>, to: string) returns (err: Option<Reason>, ghost shown: bool)
      requires Valid() && mailFromReceived
      modifies `created, `logs, `seen, `auth, `header, `quarantine, `history, `states, `clean, `reclosed, `checkedRcpts
      ensures Valid() && Extends(old(logs), logs) && NoBodies(old(history), history)
      ensures Tidily(old(clean), checks, clean)
      ensures checkedRcpts == old(checkedRcpts) + (if shown then [to] else []) && (err.None? ==> shown)
      ensures if shown then AllIn(checks, states) else states == old(states)
      ensures err.None? ==> NoneRejected(history, |old(history)|)
      ensures err.None? ==> Cleared(checks, states, logs, history, to)
      ensures shown ==> history != [] && Last(history).call == Rcpt(to) && Last(history).err == err
      ensures Kept(old(states), states)
      ensures shown ==> LateOpened(checks, old(states), states, logs, Missed(mailFrom, old(checkedRcpts)))
      ensures Reclosing(old(reclosed), shown, checks, old(states), reclosed)
    {
      var asked;
      err, asked := ShowRcpt(checks, to);
      shown := asked;
      if asked {
        SoundNext(Tape(logs, seen, checkedRcpts, history, quarantine), to);
        checkedRcpts := checkedRcpts + [to];
      }
    }

    method ShowRcpt(checks: seq<Check>, to: string) returns (err: Option<Reason>, shown: bool)
      requires Valid() && mailFromReceived
      modifies `created, `logs, `seen, `auth, `header, `quarantine, `history, `states, `clean, `reclosed
      ensures Valid() && Extends(old(logs), logs) && NoBodies(old(history), history) && (err.None? ==> shown)
      ensures Tidily(old(clean), checks, clean)
      ensures if shown then AllIn(checks, states) else states == old(states)
      ensures err.None? ==> NoneRejected(history, |old(history)|) && Cleared(checks, states, logs, history, to)
      ensures shown ==> history != [] && Last(history).call == Rcpt(to) && Last(history).err == err
      ensures Kept(old(states), states)
      ensures shown ==> LateOpened(checks, old(states), states, logs, Missed(mailFrom, checkedRcpts))
      ensures Reclosing(old(reclosed), shown, checks, old(states), reclosed)
    {
      ghost var logs0, states0, from := logs, states, |history|;
      var r;
      ghost var got;
      r, got := CheckStates(checks);
      shown := r.Ok?;
      if r.Err? {
        err := Some(r.error);
      } else {
        ghost var logs1 := logs;
        err := Present(checks, r.value, Rcpt(to), logs0, from);
        LateStaysOpened(checks, states0, states, logs1, logs, Missed(mailFrom, checkedRcpts));
        if err.None? {
          PassedSince(history, from, 0, states, checks, Rcpt(to));
        }
      }
    }

    /** Runs a batch over the states of a list, on top of what `CheckStates` has done since `logs0`. */
    method Present(ghost checks: seq<Check>, ids: seq<nat>, call: Call, ghost logs0: seq<Log>, ghost from: nat)
      returns (err: Option<Reason>)
      requires Valid() && Within(ids, created) && (call.Rcpt? || call.Body?) && AllListed(checks, states, ids)
      requires Extends(logs0, logs) && from <= |history| && NoneRejected(history, from)
      modifies `seen, `logs, `auth, `header, `quarantine, `history
      ensures Valid() && Extends(logs0, logs) && Extends(old(logs), logs)
      ensures old(history) <= history && (call.Rcpt? ==> NoBodies(old(history), history))
      ensures history != [] && Last(history).call == call && Last(history).err == err
      ensures err.None? ==> NoneRejected(history, from)
      ensures err.None? && call.Rcpt? ==> AllShown(checks, states, logs, call.to)
      ensures err.None? ==> Passed(history, from, states, checks, call)
    {
      ghost var length := |history|;
      err := RunOnRegistered(ids, call);
      ExtendsOn(logs0, old(logs), logs);
      assert err.None? ==> PassedAt(history, length, from, states, checks, call);
      if err.None? && call.Rcpt? {
        ShownToAll(checks, states, ids, logs, call.to);
      }
    }

    /** A recipient or body batch over states that may be registered. */
    method RunOnRegistered(ids: seq<nat>, call: Call) returns (err: Option<Reason>)
      requires Valid() && Within(ids, created) && (call.Rcpt? || call.Body?)
      modifies `seen, `logs, `auth, `header, `quarantine, `history
      ensures Valid() && Extends(old(logs), logs)
      ensures |history| == |old(history)| + 1 && old(history) <= history
      ensures Last(history).ids == ids && Last(history).call == call && Last(history).err == err
      ensures call.Rcpt? ==> AllSaw(ids, logs, call.to)
    {
      err := RunOver(ids, call);
      LivesOn(states, old(logs), logs, clean, reclosed);
      if call.Rcpt? {
        assert Holds(Tape(logs, seen, checkedRcpts, history, quarantine), OfSeen);
        AllSeenNow(old(Now()), Now(), ids, call.to);
      }
    }

    /** Shows the checks the body; the first call also starts the DMARC record lookup. `shown` says
        that the states were there to be asked. */
    method CheckBody(checks: seq<Check>, lookup: Lookup) returns (err: Option<Reason>, ghost shown: bool)
      requires Valid() && mailFromReceived && (doDMARC && !didFetch ==> verifier.fetched.None?)
      modifies `created, `logs, `seen, `auth, `header, `quarantine, `history, `states, `clean, `reclosed, `didFetch, verifier
      ensures Valid() && Extends(old(logs), logs) && old(history) <= history
      ensures Tidily(old(clean), checks, clean)
      ensures Kept(old(states), states)
      ensures shown ==> LateOpened(checks, old(states), states, logs, Missed(mailFrom, checkedRcpts))
      ensures err.None? ==> NoneRejected(history, |old(history)|) && Passed(history, |old(history)|, states, checks, Body)
      ensures shown ==> history != [] && Last(history).call == Body && Last(history).err == err
      ensures didFetch == (old(didFetch) || (doDMARC && shown)) && (err.None? ==> shown)
      ensures verifier.fetched == (if didFetch && !old(didFetch) then Some(lookup) else old(verifier.fetched))
      ensures Reclosing(old(reclosed), shown, checks, old(states), reclosed)
    {
      ghost var logs0, states0, from := logs, states, |history|;
      var r := BodyStates(checks, lookup);
      shown := r.Ok?;
      if r.Err? {
        err := Some(r.error);
      } else {
        ghost var logs1 := logs;
        err := Present(checks, r.value, Body, logs0, from);
        LateStaysOpened(checks, states0, states, logs1, logs, Missed(mailFrom, checkedRcpts));
      }
    }

    method BodyStates(checks: seq<Check>, lookup: Lookup) returns (r: Result<seq<nat>, Reason>)
      requires Valid() && mailFromReceived && (doDMARC && !didFetch ==> verifier.fetched.None?)
      modifies `created, `logs, `seen, `auth, `header, `quarantine, `history, `states, `clean, `reclosed, `didFetch, verifier
      ensures Valid() && Extends(old(logs), logs) && NoBodies(old(history), history)
      ensures Tidily(old(clean), checks, clean) && Reclosing(old(reclosed), r.Ok?, checks, old(states), reclosed)
      ensures r.Ok? ==> NoneRejected(history, |old(history)|) && Within(r.value, created) && AllListed(checks, states, r.value)
      ensures Kept(old(states), states)
      ensures r.Ok? ==> LateCaughtUp(checks, old(states), states, logs, Missed(mailFrom, checkedRcpts))
      ensures didFetch == (old(didFetch) || (doDMARC && r.Ok?))
      ensures verifier.fetched == (if didFetch && !old(didFetch) then Some(lookup) else old(verifier.fetched))
    {
      ghost var got;
      r, got := CheckStates(checks);
      ghost var states1, logs1, history1 := states, logs, history;
      if r.Ok? && doDMARC && !didFetch {
        verifier.FetchRecord(lookup);
        didFetch := true;
      }
      assert states == states1 && logs == logs1 && history == history1;
    }

    /** Carries the merged results over to the message: its quarantine mark and header, and DMARC. */
    method ApplyResults(draw: nat) returns (err: Option<Reason>, results: seq<AuthResult>, fields: seq<string>)
      requires doDMARC ==> verifier.fetched.Some?
      modifies `auth, `msgQuarantine, `judged, verifier
      ensures fields == header && (!doDMARC ==> judged == old(judged))
      ensures Gathered(history, old(auth), header) ==> fields == HeadersOf(history)
      ensures !doDMARC ==> err.None? && results == auth == old(auth) && msgQuarantine == (old(msgQuarantine) || quarantine)
      ensures doDMARC ==>
                var applied := ApplyPolicy(verifier.domains, old(verifier.fetched).value, old(auth), draw);
                && judged == Some(applied) && (err.Some? <==> applied.policy == PolicyReject)
                && msgQuarantine == (old(msgQuarantine) || quarantine || applied.policy == PolicyQuarantine)
                && results == auth == old(auth) + [OtherResult("dmarc")]
    {
      err, fields := None, header;
      assert Gathered(history, auth, header) ==> GatheredBy(history, auth, header, |history|);
      if quarantine {
        msgQuarantine := true;
      }
      if doDMARC {
        var applied := verifier.Apply(auth, draw);
        judged := Some(applied);
        auth := auth + [OtherResult("dmarc")];
        match applied.policy {
          case PolicyReject => err := Some(Reason("DMARC check failed"));
          case PolicyQuarantine => msgQuarantine := true;
          case PolicyNone =>
        }
      }
      results := auth;
    }

    /** Closes every registered state. */
    method Close()
      requires Books()
      modifies `logs
      ensures SameButClosed(old(logs), logs)
      ensures clean <==> EachClosed(logs)
      ensures clean && !reclosed <==> EachOnce(logs)
    {
      RegisteredBelow(states, logs);
      CloseRegistered();
      ClosingEnds(states, old(logs), logs, clean, reclosed);
    }

    method CloseRegistered()
      requires forall c :: c in states ==> states[c] < |logs| && logs[states[c]].check == c
      modifies `logs
      ensures |logs| == |old(logs)|
      ensures forall id :: 0 <= id < |logs| ==> ClosedOnce(old(logs)[id], logs[id], InUse(states, old(logs), id))
    {
      var todo := states.Keys;
      while todo != {}
        invariant todo <= states.Keys && |logs| == |old(logs)|
        invariant forall id :: 0 <= id < |logs| ==> ClosedOnce(old(logs)[id], logs[id], InUse(states, old(logs), id) && old(logs)[id].check !in todo)
        decreases todo
      {
        var c :| c in todo;
        var id := states[c];
        assert ClosedOnce(old(logs)[id], logs[id], false);
        logs := logs[id := logs[id].(closes := logs[id].closes + 1)];
        todo := todo - {c};
      }
    }
  }

  ghost predicate EachOnce(logs: seq<Log>) {
    forall id :: 0 <= id < |logs| ==> logs[id].closes == 1
  }

  lemma {:induction false} ClosingEnds(states: map<Check, nat>, a: seq<Log>, b: seq<Log>, clean: bool, reclosed: bool)
    requires |a| == |b| && Lives(states, a, clean, reclosed)
    requires forall id :: 0 <= id < |a| ==> ClosedOnce(a[id], b[id], InUse(states, a, id))
    ensures SameButClosed(a, b) && (clean <==> EachClosed(b)) && (clean && !reclosed <==> EachOnce(b))
  {
    forall id | 0 <= id < |a|
      ensures b[id].closes >= 1 <==> Cared(states, a, id)
      ensures b[id].closes == 1 <==> Proper(states, a, id) && Cared(states, a, id)
    {
      assert ClosedOnce(a[id], b[id], InUse(states, a, id));
    }
  }

  lemma {:induction false} ClosedExtends(a: seq<Log>, b: seq<Log>, c: seq<Log>, ids: seq<nat>)
    requires Extends(a, b) && ClosedMore(b, c, ids)
    ensures Extends(a, c) && Extends(b, c) && SameButClosed(b, c)
  {
    forall id | 0 <= id < |b| ensures ExtendsAt(b, c, id) {
    }
    ExtendsOn(a, b, c);
  }

  /** A list that names a new check twice loses a state: nobody ever closes it. */
  method ListedTwice(check: Check, from: string, domains: Domains) returns (runner: Runner, err: Option<Reason>)
    ensures err.None? ==> !EachClosed(runner.logs)
  {
    runner := new Runner(false, domains, false);
    TwiceIsNotOnce(check, runner.states);
    err := runner.CheckConnSender([check, check], from);
    runner.Close();
  }

  /** A list that cannot be obtained closes the states of earlier lists that it names: here the state of
      `check` is closed twice. */
  method ClosedTwice(check: Check, other: Check, from: string, to: string, domains: Domains)
    returns (runner: Runner, started: bool, ghost shown: bool)
    ensures started && !shown ==> !EachOnce(runner.logs) && (check != other ==> EachClosed(runner.logs))
  {
    runner := new Runner(false, domains, false);
    var err := runner.CheckConnSender([check], from);
    started, shown := err.None?, true;
    if started {
      assert check in runner.states;
      err, shown := runner.CheckRcpt([check, other], to);
    }
    runner.Close();
  }

  lemma {:induction false} TwiceIsNotOnce(check: Check, states: map<Check, nat>)
    ensures NewOnce([check, check], states) <==> check in states
  {
    assert [check, check][0] == [check, check][1];
  }

  ghost predicate ClosedOnce(before: Log, after: Log, closed: bool) {
    after == before.(closes := before.closes + if closed then 1 else 0)
  }
}
