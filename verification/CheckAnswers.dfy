/** What the check states answered, taken from their logs, and how it relates to what was merged. */
module CheckAnswers {
  import opened Common
  import opened Dmarc
  import opened Checks
  import opened CheckBatch
  import opened CheckLogs

  /** The answers in the entries numbered `from` and up. */
  function AnswersFrom(entries: seq<Entry>, from: nat): seq<CheckResult> {
    if |entries| <= from then []
    else AnswersFrom(Front(entries), from) + if Last(entries).outcome.Returned? then [Last(entries).outcome.result] else []
  }

  /** The answers given between the logs `a` and the logs `b`, state by state. */
  function NewResults(a: seq<Log>, b: seq<Log>): seq<CheckResult>
    requires |a| == |b|
  {
    if a == [] then [] else NewResults(Front(a), Front(b)) + AnswersFrom(Last(b).entries, |Last(a).entries|)
  }

  /** All answers, state by state. */
  function AllResults(logs: seq<Log>): seq<CheckResult> {
    if logs == [] then [] else AllResults(Front(logs)) + AnswersFrom(Last(logs).entries, 0)
  }

  /** The authentication results that the states answered with, state by state. */
  function Answered(logs: seq<Log>): seq<AuthResult> {
    Auths(AllResults(logs))
  }

  function Empties(n: nat): seq<CheckResult> {
    if n == 0 then [] else Empties(n - 1) + [NO_RESULT]
  }

  // ---------------------------------------------------------------- one batch

  lemma {:induction false} TallyConcat(a: seq<CheckResult>, b: seq<CheckResult>, r: CheckResult)
    ensures Tally(a + b, r) == Tally(a, r) + Tally(b, r)
    decreases |b|
  {
    if b == [] {
      assert a + b == a;
    } else {
      assert Front(a + b) == a + Front(b) && Last(a + b) == Last(b);
      TallyConcat(a, Front(b), r);
    }
  }

  lemma {:induction false} AnswersTally(entries: seq<Entry>, from: nat, r: CheckResult)
    ensures Tally(AnswersFrom(entries, from), r) == Answers(entries, from, r)
    decreases |entries|
  {
    if |entries| > from {
      AnswersTally(Front(entries), from, r);
      var more := if Last(entries).outcome.Returned? then [Last(entries).outcome.result] else [];
      TallyConcat(AnswersFrom(Front(entries), from), more, r);
    }
  }

  lemma {:induction false} NewResultsTally(a: seq<Log>, b: seq<Log>, r: CheckResult)
    requires |a| == |b|
    ensures Tally(NewResults(a, b), r) == NewAnswers(a, b, r)
    decreases |a|
  {
    if a != [] {
      NewResultsTally(Front(a), Front(b), r);
      AnswersTally(Last(b).entries, |Last(a).entries|, r);
      TallyConcat(NewResults(Front(a), Front(b)), AnswersFrom(Last(b).entries, |Last(a).entries|), r);
    }
  }

  lemma {:induction false} EmptiesTally(n: nat, r: CheckResult)
    ensures Tally(Empties(n), r) == if r == NO_RESULT then n else 0
  {
    if n > 0 {
      EmptiesTally(n - 1, r);
      TallyConcat(Empties(n - 1), [NO_RESULT], r);
    }
  }

  lemma {:induction false} EmptiesSayNothing(n: nat)
    ensures Auths(Empties(n)) == []
  {
    if n > 0 {
      EmptiesSayNothing(n - 1);
      AuthsConcat(Empties(n - 1), [NO_RESULT]);
    }
  }

  lemma {:induction false} CountedTally(a: seq<Log>, b: seq<Log>, n: nat, results: seq<CheckResult>, left: nat, r: CheckResult)
    requires |a| == |b| && NewCalls(a, b) + left == n && Counted(a, b, n, results, r)
    ensures SameTally(results, NewResults(a, b) + Empties(left), r)
  {
    var given, none := NewResults(a, b), Empties(left);
    assert Tally(given, r) == NewAnswers(a, b, r) by { NewResultsTally(a, b, r); }
    assert Tally(none, r) == if r == NO_RESULT then left else 0 by { EmptiesTally(left, r); }
    TallyConcat(given, none, r);
  }

  /** The results of a batch are the new answers, and empty ones. */
  lemma {:induction false} ResultsAreAnswers(a: seq<Log>, b: seq<Log>, n: nat, results: seq<CheckResult>) returns (none: seq<CheckResult>)
    requires ResultsOf(a, b, n, results)
    ensures multiset(results) == multiset(NewResults(a, b) + none) && Auths(none) == []
  {
    var left := n - NewCalls(a, b);
    none := Empties(left);
    EmptiesSayNothing(left);
    var all := NewResults(a, b) + none;
    forall r ensures SameTally(results, all, r) {
      assert Counted(a, b, n, results, r);
      CountedTally(a, b, n, results, left, r);
    }
    SameTallies(results, all);
  }

  lemma {:induction false} BatchAuths(a: seq<Log>, b: seq<Log>, n: nat, results: seq<CheckResult>)
    requires ResultsOf(a, b, n, results)
    ensures multiset(Auths(results)) == multiset(Auths(NewResults(a, b)))
  {
    var none := ResultsAreAnswers(a, b, n, results);
    AuthsOfBoth(results, NewResults(a, b), none);
  }

  lemma {:induction false} AuthsOfBoth(results: seq<CheckResult>, given: seq<CheckResult>, none: seq<CheckResult>)
    requires multiset(results) == multiset(given + none) && Auths(none) == []
    ensures multiset(Auths(results)) == multiset(Auths(given))
  {
    AuthsPermuted(results, given + none);
    AuthsConcat(given, none);
    assert Auths(given) + [] == Auths(given);
  }

  // ---------------------------------------------------------------- the logs grow

  lemma {:induction false} AnswersSplit(a: seq<Entry>, b: seq<Entry>)
    requires a <= b
    ensures AnswersFrom(b, 0) == AnswersFrom(a, 0) + AnswersFrom(b, |a|)
    decreases |b|
  {
    if |a| == |b| {
      assert a == b;
    } else {
      AnswersSplit(a, Front(b));
      var more := if Last(b).outcome.Returned? then [Last(b).outcome.result] else [];
      ConcatAssoc(AnswersFrom(a, 0), AnswersFrom(Front(b), |a|), more);
    }
  }

  lemma {:induction false} AnswersGrow(a: seq<Log>, b: seq<Log>)
    requires |a| == |b| && forall id :: 0 <= id < |a| ==> a[id].entries <= b[id].entries
    ensures multiset(Answered(b)) == multiset(Answered(a)) + multiset(Auths(NewResults(a, b)))
    decreases |a|
  {
    if a != [] {
      AnswersGrow(Front(a), Front(b));
      var had, more := AnswersFrom(Last(a).entries, 0), AnswersFrom(Last(b).entries, |Last(a).entries|);
      AnswersSplit(Last(a).entries, Last(b).entries);
      AuthsConcat(AllResults(Front(a)), had);
      AuthsConcat(AllResults(Front(b)), had + more);
      AuthsConcat(had, more);
      AuthsConcat(NewResults(Front(a), Front(b)), more);
    }
  }

  /** States without entries add nothing. */
  lemma {:induction false} NothingAnswered(a: seq<Log>, b: seq<Log>)
    requires |a| <= |b| && forall id :: 0 <= id < |b| ==> b[id].entries == if id < |a| then a[id].entries else []
    ensures AllResults(b) == AllResults(a)
    decreases |b|
  {
    if b != [] {
      if |a| < |b| {
        NothingAnswered(a, Front(b));
      } else {
        NothingAnswered(Front(a), Front(b));
      }
    }
  }

  // ---------------------------------------------------------------- what DMARC makes of the answers

  /** The policy applied depends on the order of the results only if there is more than one SPF result. */
  lemma {:induction false} PolicyByAnswers(d: Domains, lookup: Lookup, auth: seq<AuthResult>, logs: seq<Log>, draw: nat)
    requires multiset(auth) == multiset(Answered(logs)) && AtMostOneSpf(Answered(logs))
    ensures ApplyPolicy(d, lookup, auth, draw) == ApplyPolicy(d, lookup, Answered(logs), draw)
  {
    if lookup.Found? {
      OneSpfIsOrderFree(d, lookup.fromDomain, lookup.rec, Answered(logs));
    }
  }
}
