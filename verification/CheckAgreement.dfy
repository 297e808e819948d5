/** Two runs of one message: whatever the turns the goroutines take, the same answers lead to the same verdicts. */
module CheckAgreement {
  import opened Common
  import opened Dmarc
  import opened Checks
  import opened CheckBatch
  import opened CheckLogs
  import opened CheckAnswers
  import opened CheckHistory

  /** The states got the same calls, with the same answers. */
  ghost predicate SameCalls(a: seq<Log>, b: seq<Log>) {
    |a| == |b| && forall id :: 0 <= id < |a| ==> SameCallsAt(a, b, id)
  }

  ghost predicate SameCallsAt(a: seq<Log>, b: seq<Log>, id: nat)
    requires id < |a| == |b|
  {
    a[id].entries == b[id].entries
  }

  /** The same call is made on the same states, and they answer alike: the call that becomes entry `k` in the
      log of state `id` gets `answer(id, k)`. */
  ghost predicate Alike(x: BatchRecord, y: BatchRecord, answer: (int, int) -> Outcome) {
    && x.ids == y.ids && x.call == y.call && |x.before| == |y.before|
    && AnsweredBy(x.before, x.after, answer) && AnsweredBy(y.before, y.after, answer)
  }

  ghost predicate SameCourse(a: seq<BatchRecord>, b: seq<BatchRecord>, answer: (int, int) -> Outcome) {
    |a| == |b| && forall k :: 0 <= k < |a| ==> Alike(a[k], b[k], answer)
  }

  // ---------------------------------------------------------------- one batch

  lemma {:induction false} SameState(x: BatchRecord, y: BatchRecord, answer: (int, int) -> Outcome, id: nat)
    requires Alike(x, y, answer) && SameCalls(x.before, y.before) && id < |x.before|
    requires |x.after| == |x.before| == |y.after|
    requires GotDue(x.before, x.after, x.ids, x.call, id) && GotDue(y.before, y.after, y.ids, y.call, id)
    ensures x.after[id].entries == y.after[id].entries
  {
    assert SameCallsAt(x.before, y.before, id);
    var a, b, from := x.after[id].entries, y.after[id].entries, |x.before[id].entries|;
    forall k | 0 <= k < |a| ensures a[k] == b[k] {
      if k < from {
        assert a[k] == x.before[id].entries[k] && b[k] == y.before[id].entries[k];
      } else {
        assert NewEntry(x.before, x.after, id, k) && NewEntry(y.before, y.after, id, k);
      }
    }
  }

  lemma {:induction false} SameBatch(x: BatchRecord, y: BatchRecord, answer: (int, int) -> Outcome)
    requires Fair(x) && Fair(y) && Alike(x, y, answer) && SameCalls(x.before, y.before)
    ensures SameCalls(x.after, y.after) && multiset(x.results) == multiset(y.results)
  {
    forall id | 0 <= id < |x.before| ensures SameCallsAt(x.after, y.after, id) {
      assert GotDue(x.before, x.after, x.ids, x.call, id) && GotDue(y.before, y.after, y.ids, y.call, id);
      SameState(x, y, answer, id);
    }
    forall r ensures SameTally(x.results, y.results, r) {
      assert Counted(x.before, x.after, |x.ids|, x.results, r) && Counted(y.before, y.after, |y.ids|, y.results, r);
      SameNews(x.before, x.after, y.before, y.after, r);
    }
    SameTallies(x.results, y.results);
  }

  lemma {:induction false} SameNews(a: seq<Log>, b: seq<Log>, c: seq<Log>, d: seq<Log>, r: CheckResult)
    requires |a| == |b| == |c| == |d| && SameCalls(a, c) && SameCalls(b, d)
    ensures NewAnswers(a, b, r) == NewAnswers(c, d, r) && NewCalls(a, b) == NewCalls(c, d)
    decreases |a|
  {
    if a != [] {
      assert SameCallsAt(a, c, |a| - 1) && SameCallsAt(b, d, |a| - 1);
      forall id | 0 <= id < |a| - 1 ensures SameCallsAt(Front(a), Front(c), id) && SameCallsAt(Front(b), Front(d), id) {
        assert SameCallsAt(a, c, id) && SameCallsAt(b, d, id);
      }
      SameNews(Front(a), Front(b), Front(c), Front(d), r);
    }
  }

  // ---------------------------------------------------------------- all batches

  ghost predicate AllFair(history: seq<BatchRecord>) {
    forall k :: 0 <= k < |history| ==> Fair(history[k])
  }

  lemma {:induction false} SameSince(a: seq<Log>, la: seq<Log>, b: seq<Log>, lb: seq<Log>)
    requires SameCalls(a, b) && SameEntries(a, la) && SameEntries(b, lb) && |la| == |lb|
    ensures SameCalls(la, lb)
  {
    forall id | 0 <= id < |la| ensures SameCallsAt(la, lb, id) {
      assert SameEntriesAt(a, la, id) && SameEntriesAt(b, lb, id);
      assert id < |a| ==> SameCallsAt(a, b, id);
    }
  }

  lemma {:induction false} SameCourseFront(a: seq<BatchRecord>, b: seq<BatchRecord>, answer: (int, int) -> Outcome)
    requires SameCourse(a, b, answer) && AllFair(a) && AllFair(b) && a != []
    ensures SameCourse(Front(a), Front(b), answer) && AllFair(Front(a)) && AllFair(Front(b))
    ensures Alike(Last(a), Last(b), answer) && Fair(Last(a)) && Fair(Last(b))
  {
    forall k | 0 <= k < |a| - 1 ensures Alike(Front(a)[k], Front(b)[k], answer) && Fair(Front(a)[k]) && Fair(Front(b)[k]) {
      assert Alike(a[k], b[k], answer) && Fair(a[k]) && Fair(b[k]);
    }
  }

  ghost predicate SameResults(x: BatchRecord, y: BatchRecord) {
    multiset(x.results) == multiset(y.results)
  }

  ghost predicate AllSameResults(a: seq<BatchRecord>, b: seq<BatchRecord>) {
    |a| == |b| && forall k :: 0 <= k < |a| ==> SameResults(a[k], b[k])
  }

  lemma {:induction false} NoCalls(la: seq<Log>, lb: seq<Log>)
    requires SameEntries([], la) && SameEntries([], lb) && |la| == |lb|
    ensures SameCalls(la, lb)
  {
    forall id | 0 <= id < |la| ensures SameCallsAt(la, lb, id) {
      assert SameEntriesAt([], la, id) && SameEntriesAt([], lb, id);
    }
  }

  lemma {:induction false} MoreSameResults(a: seq<BatchRecord>, b: seq<BatchRecord>)
    requires |a| == |b| && a != [] && AllSameResults(Front(a), Front(b)) && SameResults(Last(a), Last(b))
    ensures AllSameResults(a, b)
  {
    forall k | 0 <= k < |a| ensures SameResults(a[k], b[k]) {
      assert k < |a| - 1 ==> SameResults(Front(a)[k], Front(b)[k]);
    }
  }

  /** Batch after batch the states get the same calls and the batches have the same results. */
  lemma {:induction false} BatchesAgree(a: seq<BatchRecord>, la: seq<Log>, b: seq<BatchRecord>, lb: seq<Log>, answer: (int, int) -> Outcome)
    requires SameCourse(a, b, answer) && AllFair(a) && AllFair(b) && Chained(a, la) && Chained(b, lb) && |la| == |lb|
    ensures SameCalls(la, lb) && AllSameResults(a, b)
    decreases |a|
  {
    if a == [] {
      NoCalls(la, lb);
    } else {
      SameCourseFront(a, b, answer);
      var x, y := Last(a), Last(b);
      BatchesAgree(Front(a), x.before, Front(b), y.before, answer);
      SameBatch(x, y, answer);
      SameSince(x.after, la, y.after, lb);
      MoreSameResults(a, b);
    }
  }

  lemma {:induction false} SameBatchAuths(x: BatchRecord, y: BatchRecord)
    requires Fair(x) && Fair(y) && SameResults(x, y)
    ensures multiset(Auths(x.orders.auth)) == multiset(Auths(y.orders.auth))
  {
    AuthsPermuted(x.orders.auth, y.orders.auth);
  }

  /** So they add the same authentication results. */
  lemma {:induction false} AuthsAgree(a: seq<BatchRecord>, b: seq<BatchRecord>)
    requires AllFair(a) && AllFair(b) && AllSameResults(a, b)
    ensures multiset(AuthsOf(a)) == multiset(AuthsOf(b))
    decreases |a|
  {
    if a != [] {
      forall k | 0 <= k < |a| - 1 ensures SameResults(Front(a)[k], Front(b)[k]) && Fair(Front(a)[k]) && Fair(Front(b)[k]) {
        assert SameResults(a[k], b[k]) && Fair(a[k]) && Fair(b[k]);
      }
      AuthsAgree(Front(a), Front(b));
      assert Fair(a[|a| - 1]) && Fair(b[|a| - 1]) && SameResults(a[|a| - 1], b[|a| - 1]);
      SameBatchAuths(Last(a), Last(b));
    }
  }

  /** The same verdict, if checks give their reasons. */
  lemma {:induction false} SameEnd(x: BatchRecord, y: BatchRecord, logs: seq<Log>)
    requires Fair(x) && Fair(y) && SameResults(x, y) && Extends(x.after, logs) && Reasoned(logs)
    ensures x.err.Some? == y.err.Some? && Quarantined(x) == Quarantined(y)
  {
    ResultsReasoned(x, logs);
    SameMembers(x.orders.verdict, x.results);
    assert !MixedReasons(x.orders.verdict, Rejects) && !MixedReasons(x.orders.verdict, Quarantines);
    SameVerdict(x.orders.verdict, y.orders.verdict, Rejects);
    SameVerdict(x.orders.verdict, y.orders.verdict, Quarantines);
  }

  /** Two runs of a message in which the same batches are asked for and states answer alike: each batch rejects
      in both or in neither, both messages are quarantined or neither, and DMARC applies the same policy; the
      first two if checks give their reasons, the last if there is at most one SPF result. */
  lemma {:induction false} MessagesAgree(t: Tape, u: Tape, answer: (int, int) -> Outcome, domains: Domains, lookup: Lookup, draw: nat)
    requires Sound(t) && Sound(u) && SameCourse(t.history, u.history, answer) && |t.logs| == |u.logs|
    ensures SameCalls(t.logs, u.logs)
    ensures Reasoned(t.logs) ==>
              && t.quarantine == u.quarantine
              && forall k :: 0 <= k < |t.history| ==> t.history[k].err.Some? == u.history[k].err.Some?
    ensures AtMostOneSpf(Answered(t.logs)) ==>
              ApplyPolicy(domains, lookup, AuthsOf(t.history), draw) == ApplyPolicy(domains, lookup, AuthsOf(u.history), draw)
  {
    TapeIsFair(t);
    TapeIsFair(u);
    BatchesAgree(t.history, t.logs, u.history, u.logs, answer);
    if Reasoned(t.logs) {
      MarksAgree(t, u);
    }
    if AtMostOneSpf(Answered(t.logs)) {
      PoliciesAgree(t, u, domains, lookup, draw);
    }
  }

  lemma {:induction false} TapeIsFair(t: Tape)
    requires Sound(t)
    ensures AllFair(t.history) && Chained(t.history, t.logs)
  {
    assert Holds(t, OfBatches) && Holds(t, OfOrder);
  }

  lemma {:induction false} PoliciesAgree(t: Tape, u: Tape, domains: Domains, lookup: Lookup, draw: nat)
    requires Sound(t) && AllFair(t.history) && AllFair(u.history) && AllSameResults(t.history, u.history) && AtMostOneSpf(Answered(t.logs))
    ensures ApplyPolicy(domains, lookup, AuthsOf(t.history), draw) == ApplyPolicy(domains, lookup, AuthsOf(u.history), draw)
  {
    assert Holds(t, OfAnswers);
    AuthsAgree(t.history, u.history);
    PolicyByAnswers(domains, lookup, AuthsOf(t.history), t.logs, draw);
    PolicyByAnswers(domains, lookup, AuthsOf(u.history), t.logs, draw);
  }

  lemma {:induction false} MarksAgree(t: Tape, u: Tape)
    requires Sound(t) && Sound(u) && AllSameResults(t.history, u.history) && Reasoned(t.logs)
    ensures t.quarantine == u.quarantine
    ensures forall k :: 0 <= k < |t.history| ==> t.history[k].err.Some? == u.history[k].err.Some?
  {
    assert Holds(t, OfBatches) && Holds(u, OfBatches) && Holds(t, OfLogs);
    VerdictsAgree(t.history, u.history, t.logs);
  }

  lemma {:induction false} VerdictsAgree(a: seq<BatchRecord>, b: seq<BatchRecord>, logs: seq<Log>)
    requires AllFair(a) && AllFair(b) && Backed(a, logs) && Reasoned(logs) && AllSameResults(a, b)
    ensures forall k :: 0 <= k < |a| ==> a[k].err.Some? == b[k].err.Some? && Quarantined(a[k]) == Quarantined(b[k])
  {
    forall k | 0 <= k < |a| ensures a[k].err.Some? == b[k].err.Some? && Quarantined(a[k]) == Quarantined(b[k]) {
      assert Fair(a[k]) && Fair(b[k]) && SameResults(a[k], b[k]);
      SameEnd(a[k], b[k], logs);
    }
  }
}
