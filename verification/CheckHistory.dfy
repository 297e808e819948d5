/** The batches of a message, one after the other: what they leave in the logs, and what is known of it. */
module CheckHistory {
  import opened Common
  import opened Dmarc
  import opened Checks
  import opened CheckBatch
  import opened CheckLogs
  import opened CheckAnswers

  /** A batch that has run: the logs before and after, what the states answered and the rejection it led
      to, if any. */
  datatype BatchRecord = BatchRecord(ids: seq<nat>, call: Call, before: seq<Log>, after: seq<Log>,
                                     results: seq<CheckResult>, orders: Orders, err: Option<Reason>)

  /** The batch ended without a rejection and some result asked for quarantine, with a reason. */
  ghost predicate Quarantined(record: BatchRecord) {
    record.err.None? && FirstReason(record.orders.verdict, Quarantines).Some?
  }

  ghost predicate Fair(record: BatchRecord) {
    && ResultsOf(record.before, record.after, |record.ids|, record.results) && OrdersOf(record.results, record.orders)
    && AllDue(record.before, record.after, record.ids, record.call)
    && record.err == FirstReason(record.orders.verdict, Rejects)
    && (record.call.Body? ==> forall id :: id in record.ids ==> Asked(record.before, record.after, id))
  }

  /** The calls that are due to a state, by its log. */
  function DueTo(before: seq<Log>, ids: seq<nat>, call: Call, id: nat): nat
    requires id < |before|
  {
    if call.Rcpt? then if id in ids && call.to !in RcptsOf(before[id].entries) then 1 else 0 else Occurs(ids, id)
  }

  /** Every state got the calls due to it, and no others. */
  ghost predicate AllDue(before: seq<Log>, after: seq<Log>, ids: seq<nat>, call: Call) {
    |before| == |after| && forall id :: 0 <= id < |before| ==> GotDue(before, after, ids, call, id)
  }

  ghost predicate GotDue(before: seq<Log>, after: seq<Log>, ids: seq<nat>, call: Call, id: nat)
    requires id < |before| == |after|
  {
    Grew(before[id], after[id], call, DueTo(before, ids, call, id))
  }

  lemma {:induction false} CallsWereDue(a: Snapshot, b: Snapshot, ids: seq<nat>, call: Call)
    requires AllSeenRight(a.logs, a.seen) && CallsMade(a, b, ids, call)
    ensures AllDue(a.logs, b.logs, ids, call)
  {
    forall id | 0 <= id < |a.logs| ensures GotDue(a.logs, b.logs, ids, call, id) {
      assert SeenRight(a.logs[id], Seen(a.seen, id)) && Grew(a.logs[id], b.logs[id], call, CallsDue(a.seen, ids, call, id));
    }
  }

  /** The state has been shown the body. */
  ghost predicate Asked(before: seq<Log>, after: seq<Log>, id: nat) {
    && id < |before| <= |after| && |before[id].entries| < |after[id].entries|
    && after[id].entries[|before[id].entries|].call == Body
  }

  lemma {:induction false} AllAsked(a: Snapshot, b: Snapshot, ids: seq<nat>)
    requires Within(ids, |a.logs|)
    ensures CallsMade(a, b, ids, Body) ==> forall id :: id in ids ==> Asked(a.logs, b.logs, id)
  {
    if CallsMade(a, b, ids, Body) {
      forall id | id in ids ensures Asked(a.logs, b.logs, id) {
        NotOccurring(ids, id);
        assert Grew(a.logs[id], b.logs[id], Body, Occurs(ids, id));
      }
    }
  }

  /** What the batches saw and did is still in the logs. */
  ghost predicate Backed(history: seq<BatchRecord>, logs: seq<Log>) {
    forall k :: 0 <= k < |history| ==> Extends(history[k].after, logs)
  }

  /** Entry `k` of state `id` was made by batch `n`, which showed the body. */
  ghost predicate BodyAt(history: seq<BatchRecord>, n: int, id: int, k: int) {
    0 <= n < |history| && history[n].call == Body && NewEntry(history[n].before, history[n].after, id, k)
  }

  ghost predicate IsBody(logs: seq<Log>, id: int, k: int) {
    0 <= id < |logs| && 0 <= k < |logs[id].entries| && logs[id].entries[k].call == Body
  }

  /** Every showing of the body is the doing of a batch on record. */
  ghost predicate Accounted(history: seq<BatchRecord>, logs: seq<Log>) {
    forall id, k :: IsBody(logs, id, k) ==> exists n :: BodyAt(history, n, id, k)
  }

  /** Nothing but states without entries was added. */
  lemma {:induction false} StillAccounted(history: seq<BatchRecord>, a: seq<Log>, b: seq<Log>)
    requires Accounted(history, a) && |a| <= |b|
    requires forall id :: 0 <= id < |b| ==> b[id].entries == if id < |a| then a[id].entries else []
    ensures Accounted(history, b)
  {
    forall id, k | IsBody(b, id, k) ensures exists n :: BodyAt(history, n, id, k) {
      assert IsBody(a, id, k);
    }
  }

  lemma {:induction false} BatchAccounted(history: seq<BatchRecord>, record: BatchRecord, a: Snapshot, b: Snapshot)
    requires Accounted(history, a.logs) && CallsMade(a, b, record.ids, record.call)
    requires record.before == a.logs && record.after == b.logs
    ensures Accounted(history + [record], b.logs)
  {
    var longer := history + [record];
    forall id, k | IsBody(b.logs, id, k) ensures exists n :: BodyAt(longer, n, id, k) {
      assert Grew(a.logs[id], b.logs[id], record.call, CallsDue(a.seen, record.ids, record.call, id));
      if k < |a.logs[id].entries| {
        assert b.logs[id].entries[k] == a.logs[id].entries[k];
        assert IsBody(a.logs, id, k);
        var n :| BodyAt(history, n, id, k);
        assert BodyAt(longer, n, id, k);
      } else {
        assert BodyAt(longer, |history|, id, k);
      }
    }
  }

  lemma {:induction false} BatchOnRecord(a: Snapshot, b: Snapshot, ids: seq<nat>, call: Call, rcpts: seq<string>)
    requires OnRecord(a.logs, rcpts) && CallsMade(a, b, ids, call)
    ensures OnRecord(b.logs, rcpts)
  {
    forall id | 0 <= id < |b.logs| ensures b.logs[id].missed == a.logs[id].missed {
      assert Grew(a.logs[id], b.logs[id], call, CallsDue(a.seen, ids, call, id));
    }
    StillOnRecord(a.logs, b.logs, rcpts, rcpts);
  }

  lemma {:induction false} NextOnRecord(logs: seq<Log>, rcpts: seq<string>, to: string)
    requires OnRecord(logs, rcpts)
    ensures OnRecord(logs, rcpts + [to])
  {
    forall id ensures MissedOf(logs, id, rcpts + [to]) {
      assert MissedOf(logs, id, rcpts);
    }
  }

  /** The authentication results of the batches, each in the order in which it was merged. */
  function AuthsOf(history: seq<BatchRecord>): seq<AuthResult> {
    if history == [] then [] else AuthsOf(Front(history)) + Auths(Last(history).orders.auth)
  }

  /** The header fields that the batches merged. */
  function HeadersOf(history: seq<BatchRecord>): seq<string> {
    if history == [] then [] else HeadersOf(Front(history)) + Headers(Last(history).orders.header)
  }

  /** What was merged is what the states answered, each answer once. */
  ghost predicate Heard(history: seq<BatchRecord>, logs: seq<Log>) {
    multiset(AuthsOf(history)) == multiset(Answered(logs))
  }

  lemma {:induction false} BatchHeard(history: seq<BatchRecord>, record: BatchRecord, a: seq<Log>, b: seq<Log>)
    requires Heard(history, a) && record.before == a && record.after == b && Onward(a, b)
    requires ResultsOf(a, b, |record.ids|, record.results) && OrdersOf(record.results, record.orders)
    ensures Heard(history + [record], b)
    ensures AuthsOf(history + [record]) == AuthsOf(history) + Auths(record.orders.auth)
  {
    var longer := history + [record];
    assert Front(longer) == history && Last(longer) == record;
    BatchAuths(a, b, |record.ids|, record.results);
    AuthsPermuted(record.orders.auth, record.results);
    forall id | 0 <= id < |a| ensures a[id].entries <= b[id].entries {
      assert ExtendsAt(a, b, id);
    }
    AnswersGrow(a, b);
  }

  /** The history goes on, and the body is not shown. */
  ghost predicate NoBodies(a: seq<BatchRecord>, b: seq<BatchRecord>) {
    a <= b && forall k :: |a| <= k < |b| ==> !b[k].call.Body?
  }

  /** No batch that showed the body ended in a rejection. */
  ghost predicate BodiesClear(history: seq<BatchRecord>) {
    forall k :: 0 <= k < |history| && history[k].call.Body? ==> history[k].err.None?
  }

  /** The message is marked for quarantine exactly when some batch quarantined it. */
  ghost predicate HistoryInv(history: seq<BatchRecord>, quarantine: bool) {
    && (forall k :: 0 <= k < |history| ==> Fair(history[k]))
    && (quarantine <==> exists k :: 0 <= k < |history| && Quarantined(history[k]))
  }

  lemma {:induction false} HistoryGrows(history: seq<BatchRecord>, quarantine: bool, record: BatchRecord, quarantine': bool)
    requires HistoryInv(history, quarantine) && Fair(record) && quarantine' == (quarantine || Quarantined(record))
    ensures HistoryInv(history + [record], quarantine')
  {
    var longer := history + [record];
    assert forall k :: 0 <= k < |history| ==> longer[k] == history[k];
    assert longer[|history|] == record;
  }

  lemma {:induction false} BackedStill(history: seq<BatchRecord>, a: seq<Log>, b: seq<Log>)
    requires Backed(history, a) && Extends(a, b)
    ensures Backed(history, b)
  {
    forall k | 0 <= k < |history| ensures Extends(history[k].after, b) {
      ExtendsOn(history[k].after, a, b);
    }
  }

  lemma {:induction false} BackedMore(history: seq<BatchRecord>, a: seq<Log>, record: BatchRecord, b: seq<Log>)
    requires Backed(history, a) && Extends(a, b) && record.after == b
    ensures Backed(history + [record], b)
  {
    var longer := history + [record];
    BackedStill(history, a, b);
    forall k | 0 <= k < |longer| ensures Extends(longer[k].after, b) {
      assert k < |history| ==> longer[k] == history[k];
    }
  }

  ghost predicate NoneRejected(history: seq<BatchRecord>, from: nat) {
    forall k :: from <= k < |history| ==> history[k].err.None?
  }

  /** States were created and closed, but none was called. */
  ghost predicate SameEntries(a: seq<Log>, b: seq<Log>) {
    |a| <= |b| && forall id :: 0 <= id < |b| ==> SameEntriesAt(a, b, id)
  }

  ghost predicate SameEntriesAt(a: seq<Log>, b: seq<Log>, id: nat)
    requires id < |b|
  {
    b[id].entries == if id < |a| then a[id].entries else []
  }

  /** States are called by the batches on record only: each starts where the one before it ended. */
  ghost predicate Chained(history: seq<BatchRecord>, logs: seq<Log>) {
    if history == [] then SameEntries([], logs)
    else SameEntries(Last(history).after, logs) && Chained(Front(history), Last(history).before)
  }

  lemma {:induction false} SameEntriesOn(a: seq<Log>, b: seq<Log>, c: seq<Log>)
    requires SameEntries(a, b) && SameEntries(b, c)
    ensures SameEntries(a, c)
  {
    forall id | 0 <= id < |c| ensures SameEntriesAt(a, c, id) {
      assert SameEntriesAt(b, c, id);
      assert id < |b| ==> SameEntriesAt(a, b, id);
    }
  }

  lemma {:induction false} ChainedStill(history: seq<BatchRecord>, a: seq<Log>, b: seq<Log>)
    requires Chained(history, a) && |a| <= |b|
    requires forall id :: 0 <= id < |b| ==> b[id].entries == if id < |a| then a[id].entries else []
    ensures Chained(history, b)
  {
    forall id | 0 <= id < |b| ensures SameEntriesAt(a, b, id) {
    }
    SameEntriesOn(if history == [] then [] else Last(history).after, a, b);
  }

  lemma {:induction false} ChainedMore(history: seq<BatchRecord>, record: BatchRecord)
    requires Chained(history, record.before)
    ensures Chained(history + [record], record.after)
  {
    var longer := history + [record];
    assert Front(longer) == history && Last(longer) == record;
    forall id | 0 <= id < |record.after| ensures SameEntriesAt(record.after, record.after, id) {
    }
  }

  // ---------------------------------------------------------------- all that is known

  /** What the runner keeps about a message. */
  datatype Tape = Tape(logs: seq<Log>, seen: map<nat, set<string>>, rcpts: seq<string>, history: seq<BatchRecord>, quarantine: bool)

  datatype Aspect = OfSeen | OfMissed | OfBatches | OfLogs | OfBodies | OfAnswers | OfOrder

  ghost predicate Holds(t: Tape, a: Aspect) {
    match a
    case OfSeen => AllSeenRight(t.logs, t.seen)
    case OfMissed => OnRecord(t.logs, t.rcpts)
    case OfBatches => HistoryInv(t.history, t.quarantine)
    case OfLogs => Backed(t.history, t.logs)
    case OfBodies => Accounted(t.history, t.logs)
    case OfAnswers => Heard(t.history, t.logs)
    case OfOrder => Chained(t.history, t.logs)
  }

  /** Every aspect of it is right. */
  ghost predicate Sound(t: Tape) {
    forall a: Aspect :: Holds(t, a)
  }

  lemma {:induction false} SoundStart()
    ensures Sound(Tape([], map[], [], [], false))
  {
    var t := Tape([], map[], [], [], false);
    forall a: Aspect ensures Holds(t, a) {
    }
  }

  lemma {:induction false} SoundBatch(a: Snapshot, b: Snapshot, rcpts: seq<string>, history: seq<BatchRecord>, record: BatchRecord)
    requires Sound(Tape(a.logs, a.seen, rcpts, history, a.quarantine)) && Within(record.ids, |a.logs|)
    requires CallsMade(a, b, record.ids, record.call) && Onward(a.logs, b.logs) && record.before == a.logs && record.after == b.logs
    requires ResultsOf(a.logs, b.logs, |record.ids|, record.results) && OrdersOf(record.results, record.orders)
    requires Merged(a, b, record.orders, record.err)
    ensures Sound(Tape(b.logs, b.seen, rcpts, history + [record], b.quarantine))
  {
    var t, u := Tape(a.logs, a.seen, rcpts, history, a.quarantine), Tape(b.logs, b.seen, rcpts, history + [record], b.quarantine);
    assert Holds(t, OfSeen);
    RecordIsFair(a, b, record);
    forall x: Aspect ensures Holds(u, x) {
      assert Holds(t, x);
      match x
      case OfSeen => BatchKeepsSeen(a, b, record.ids, record.call);
      case OfMissed => BatchOnRecord(a, b, record.ids, record.call, rcpts);
      case OfBatches => HistoryGrows(history, a.quarantine, record, b.quarantine);
      case OfLogs => BackedMore(history, a.logs, record, b.logs);
      case OfBodies => BatchAccounted(history, record, a, b);
      case OfAnswers => BatchHeard(history, record, a.logs, b.logs);
      case OfOrder => ChainedMore(history, record);
    }
  }

  lemma {:induction false} RecordIsFair(a: Snapshot, b: Snapshot, record: BatchRecord)
    requires AllSeenRight(a.logs, a.seen) && Within(record.ids, |a.logs|)
    requires CallsMade(a, b, record.ids, record.call) && record.before == a.logs && record.after == b.logs
    requires ResultsOf(a.logs, b.logs, |record.ids|, record.results) && OrdersOf(record.results, record.orders)
    requires Merged(a, b, record.orders, record.err)
    ensures Fair(record)
  {
    CallsWereDue(a, b, record.ids, record.call);
    AllAsked(a, b, record.ids);
  }

  /** States without entries change nothing, and neither does closing. */
  lemma {:induction false} SoundStill(t: Tape, logs: seq<Log>)
    requires Sound(t) && |t.logs| <= |logs| && Extends(t.logs, logs)
    requires forall id :: 0 <= id < |logs| ==> logs[id].entries == if id < |t.logs| then t.logs[id].entries else []
    requires forall id :: |t.logs| <= id < |logs| ==> logs[id].missed.rcpts == t.rcpts
    ensures Sound(t.(logs := logs))
  {
    var u := t.(logs := logs);
    forall id | 0 <= id < |t.logs| ensures logs[id].missed == t.logs[id].missed {
      assert ExtendsAt(t.logs, logs, id);
    }
    forall x: Aspect ensures Holds(u, x) {
      assert Holds(t, x);
      match x
      case OfSeen => SeenStill(t.logs, logs, t.seen);
      case OfMissed => StillOnRecord(t.logs, logs, t.rcpts, t.rcpts);
      case OfBatches =>
      case OfLogs => BackedStill(t.history, t.logs, logs);
      case OfBodies => StillAccounted(t.history, t.logs, logs);
      case OfAnswers => NothingAnswered(t.logs, logs);
      case OfOrder => ChainedStill(t.history, t.logs, logs);
    }
  }

  lemma {:induction false} SeenStill(a: seq<Log>, b: seq<Log>, seen: map<nat, set<string>>)
    requires AllSeenRight(a, seen) && |a| <= |b|
    requires forall id :: 0 <= id < |b| ==> b[id].entries == if id < |a| then a[id].entries else []
    ensures AllSeenRight(b, seen)
  {
    forall id | 0 <= id < |b| ensures SeenRight(b[id], Seen(seen, id)) {
      assert id < |a| ==> SeenRight(a[id], Seen(seen, id));
    }
  }

  lemma {:induction false} SoundNext(t: Tape, to: string)
    requires Sound(t)
    ensures Sound(t.(rcpts := t.rcpts + [to]))
  {
    var u := t.(rcpts := t.rcpts + [to]);
    forall x: Aspect ensures Holds(u, x) {
      assert Holds(t, x);
      if x == OfMissed {
        NextOnRecord(t.logs, t.rcpts, to);
      }
    }
  }

  /** What the runner has gathered when `n` batches have run. */
  ghost predicate GatheredBy(history: seq<BatchRecord>, auth: seq<AuthResult>, header: seq<string>, n: nat) {
    n == |history| ==> auth == AuthsOf(history) && header == HeadersOf(history)
  }

  /** The authentication results and the header fields are those that the batches merged. */
  ghost predicate Gathered(history: seq<BatchRecord>, auth: seq<AuthResult>, header: seq<string>) {
    forall n: nat :: GatheredBy(history, auth, header, n)
  }

  lemma {:induction false} GatheredMore(history: seq<BatchRecord>, auth: seq<AuthResult>, header: seq<string>, record: BatchRecord)
    requires Gathered(history, auth, header)
    ensures Gathered(history + [record], auth + Auths(record.orders.auth), header + Headers(record.orders.header))
  {
    var longer, more, fields := history + [record], auth + Auths(record.orders.auth), header + Headers(record.orders.header);
    assert GatheredBy(history, auth, header, |history|);
    assert Front(longer) == history && Last(longer) == record;
    forall n: nat ensures GatheredBy(longer, more, fields, n) {
    }
  }

  // ---------------------------------------------------------------- batches without a rejection

  /** Batch `k` made this call on the states of all these checks, and rejected nothing. */
  ghost predicate PassedAt(history: seq<BatchRecord>, k: nat, from: nat, states: map<Check, nat>, checks: seq<Check>, call: Call) {
    from <= k < |history| && history[k].call == call && history[k].err.None? && Asks(history[k].ids, states, checks)
  }

  ghost predicate Asks(ids: seq<nat>, states: map<Check, nat>, checks: seq<Check>) {
    forall c :: c in checks ==> c in states && states[c] in ids
  }

  ghost predicate Passed(history: seq<BatchRecord>, from: nat, states: map<Check, nat>, checks: seq<Check>, call: Call) {
    exists k :: PassedAt(history, k, from, states, checks, call)
  }

  /** A batch that ended without a rejection holds no rejecting result, if checks give their reasons. */
  lemma {:induction false} PassedMeansNoRejection(record: BatchRecord)
    requires Fair(record) && record.err.None? && forall r :: r in record.results ==> Principled(r)
    ensures forall r :: r in record.results ==> !Rejects(r)
  {
    SameMembers(record.orders.verdict, record.results);
    FirstReasonUniform(record.orders.verdict, Rejects);
  }

  /** Every answer that rejects or quarantines gives its reason. */
  ghost predicate Reasoned(logs: seq<Log>) {
    forall id, k :: 0 <= id < |logs| && 0 <= k < |logs[id].entries| && logs[id].entries[k].outcome.Returned? ==>
      Principled(logs[id].entries[k].outcome.result)
  }

  /** The state was shown the body, and never rejected it. */
  ghost predicate LetBodyPass(log: Log) {
    && (exists k :: 0 <= k < |log.entries| && log.entries[k].call == Body)
    && forall k :: 0 <= k < |log.entries| && log.entries[k].call == Body ==> NoRejection(log.entries[k])
  }

  ghost predicate NoRejection(entry: Entry) {
    entry.outcome.Returned? ==> !Rejects(entry.outcome.result)
  }

  lemma {:induction false} AnswerCounts(a: seq<Log>, b: seq<Log>, id: nat, k: nat, r: CheckResult)
    requires |a| == |b| && NewEntry(a, b, id, k) && b[id].entries[k].outcome == Returned(r)
    ensures NewAnswers(a, b, r) >= 1
    decreases |a|
  {
    if id == |a| - 1 {
      AnswerCountsIn(Last(b).entries, |Last(a).entries|, k, r);
    } else {
      AnswerCounts(Front(a), Front(b), id, k, r);
    }
  }

  lemma {:induction false} AnswerCountsIn(entries: seq<Entry>, from: nat, k: nat, r: CheckResult)
    requires from <= k < |entries| && entries[k].outcome == Returned(r)
    ensures Answers(entries, from, r) >= 1
    decreases |entries|
  {
    if k < |entries| - 1 {
      AnswerCountsIn(Front(entries), from, k, r);
    }
  }

  lemma {:induction false} FindAnswer(a: seq<Log>, b: seq<Log>, r: CheckResult) returns (id: nat, k: nat)
    requires |a| == |b| && NewAnswers(a, b, r) >= 1
    ensures NewEntry(a, b, id, k) && b[id].entries[k].outcome == Returned(r)
    decreases |a|
  {
    if NewAnswers(Front(a), Front(b), r) >= 1 {
      id, k := FindAnswer(Front(a), Front(b), r);
    } else {
      id := |a| - 1;
      k := FindAnswerIn(Last(b).entries, |Last(a).entries|, r);
    }
  }

  lemma {:induction false} FindAnswerIn(entries: seq<Entry>, from: nat, r: CheckResult) returns (k: nat)
    requires Answers(entries, from, r) >= 1
    ensures from <= k < |entries| && entries[k].outcome == Returned(r)
    decreases |entries|
  {
    k := |entries| - 1;
    if entries[k].outcome != Returned(r) {
      k := FindAnswerIn(Front(entries), from, r);
    }
  }

  lemma {:induction false} ResultsReasoned(record: BatchRecord, logs: seq<Log>)
    requires Fair(record) && Extends(record.after, logs) && Reasoned(logs)
    ensures forall r :: r in record.results ==> Principled(r)
  {
    forall r | r in record.results ensures Principled(r) {
      assert Counted(record.before, record.after, |record.ids|, record.results, r);
      TallyIsMultiset(record.results, r);
      if r != NO_RESULT {
        var id, k := FindAnswer(record.before, record.after, r);
        assert ExtendsAt(record.after, logs, id);
        assert logs[id].entries[k] == record.after[id].entries[k];
      }
    }
  }

  /** A batch that ended without a rejection holds no entry that rejects, if checks give their reasons. */
  lemma {:induction false} PassedEntry(record: BatchRecord, logs: seq<Log>, id: nat, k: nat)
    requires Fair(record) && record.err.None? && Extends(record.after, logs) && Reasoned(logs) && NewEntry(record.before, record.after, id, k)
    ensures NoRejection(record.after[id].entries[k])
  {
    var outcome := record.after[id].entries[k].outcome;
    if outcome.Returned? && Rejects(outcome.result) {
      AnswerCounts(record.before, record.after, id, k, outcome.result);
      assert Counted(record.before, record.after, |record.ids|, record.results, outcome.result);
      TallyIsMultiset(record.results, outcome.result);
      ResultsReasoned(record, logs);
      PassedMeansNoRejection(record);
    }
  }

  /** A check of a list that passed was shown the body and let it pass, every time. */
  lemma {:induction false} PassedMeansUnrejected(history: seq<BatchRecord>, quarantine: bool, logs: seq<Log>, from: nat, states: map<Check, nat>,
                              checks: seq<Check>, c: Check)
    requires HistoryInv(history, quarantine) && Backed(history, logs) && Accounted(history, logs) && Reasoned(logs)
    requires BodiesClear(history) && Passed(history, from, states, checks, Body) && c in checks
    ensures c in states && states[c] < |logs| && LetBodyPass(logs[states[c]])
  {
    var n: nat :| PassedAt(history, n, from, states, checks, Body);
    var record, id := history[n], states[c];
    assert Fair(record) && Extends(record.after, logs) && Asked(record.before, record.after, id);
    assert ExtendsAt(record.after, logs, id);
    assert logs[id].entries[|record.before[id].entries|].call == Body;
    forall k | 0 <= k < |logs[id].entries| && logs[id].entries[k].call == Body ensures NoRejection(logs[id].entries[k]) {
      assert IsBody(logs, id, k);
      var m :| BodyAt(history, m, id, k);
      PassedEntry(history[m], logs, id, k);
      assert ExtendsAt(history[m].after, logs, id);
    }
  }
}
