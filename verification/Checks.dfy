/** Check results: how an action turns a failed check into a verdict, and how the verdicts of a batch
    of checks are merged by whichever goroutine comes first. */
module Checks {
  import opened Common
  import opened Dmarc

  /** A check, by identity. */
  type Check = nat

  datatype Reason = Reason(text: string) | Wrapped(message: string, cause: Reason)

  datatype CheckResult = CheckResult(reason: Option<Reason>, reject: bool, quarantine: bool,
                                     auth: seq<AuthResult>, header: seq<string>)

  const NO_RESULT := CheckResult(None, false, false, [], [])

  datatype FailAction = FailAction(quarantine: bool, reject: bool, override: Option<string>)

  function ApplyAction(action: FailAction, res: CheckResult): CheckResult {
    if res.reason.None? then res
    else
      var reason := if action.override.Some? then Wrapped(action.override.value, res.reason.value) else res.reason.value;
      res.(reason := Some(reason), quarantine := action.quarantine || res.quarantine, reject := action.reject || res.reject)
  }

  /** A result that asks for quarantine is not counted as a rejection, whatever else it says. */
  predicate Quarantines(r: CheckResult) {
    r.quarantine
  }

  predicate Rejects(r: CheckResult) {
    !r.quarantine && r.reject
  }

  /** A rejection or quarantine comes with a reason. */
  predicate Principled(r: CheckResult) {
    r.reject || r.quarantine ==> r.reason.Some?
  }

  /** A check that reports through its action keeps results principled, and its outcome is what the
      action says. */
  lemma {:induction false} ApplyActionVerdict(action: FailAction, reason: Option<Reason>, auth: seq<AuthResult>, header: seq<string>)
    ensures var r := ApplyAction(action, CheckResult(reason, false, false, auth, header));
            && Principled(r)
            && (Quarantines(r) <==> reason.Some? && action.quarantine)
            && (Rejects(r) <==> reason.Some? && action.reject && !action.quarantine)
            && r.auth == auth && r.header == header
  {
  }

  // ---------------------------------------------------------------- first come, first kept

  /** The reason kept by a once-only slot that results matching `p` try to fill, in this order. */
  function FirstReason(results: seq<CheckResult>, p: CheckResult -> bool): Option<Reason> {
    if results == [] then None
    else if p(results[0]) then results[0].reason
    else FirstReason(results[1..], p)
  }

  lemma {:induction false} FirstReasonUniform(results: seq<CheckResult>, p: CheckResult -> bool)
    ensures (forall r :: r in results && p(r) ==> r.reason.Some?) ==>
              (FirstReason(results, p).Some? <==> exists r :: r in results && p(r))
    ensures (forall r :: r in results && p(r) ==> r.reason.None?) ==> FirstReason(results, p).None?
  {
    if results != [] {
      assert results == [results[0]] + results[1..];
      FirstReasonUniform(results[1..], p);
      if forall r :: r in results && p(r) ==> r.reason.Some? {
        if p(results[0]) {
          assert results[0] in results;
        } else if r :| r in results && p(r) {
          assert r in results[1..];
        }
      }
    }
  }

  /** Whether the slot ends up holding a reason does not depend on who comes first. */
  ghost predicate VerdictOrderFree(results: seq<CheckResult>, p: CheckResult -> bool) {
    forall other :: multiset(other) == multiset(results) ==>
      FirstReason(other, p).Some? == FirstReason(results, p).Some?
  }

  /** Of the results matching `p`, some carry a reason and some do not. */
  ghost predicate MixedReasons(results: seq<CheckResult>, p: CheckResult -> bool) {
    exists x, y :: x in results && y in results && p(x) && p(y) && x.reason.Some? && y.reason.None?
  }

  lemma {:induction false} MoveFirst(results: seq<CheckResult>, x: CheckResult) returns (other: seq<CheckResult>)
    requires x in results
    ensures multiset(other) == multiset(results) && other != [] && other[0] == x
  {
    var i :| 0 <= i < |results| && results[i] == x;
    other := [x] + results[..i] + results[i + 1..];
    assert results == results[..i] + [x] + results[i + 1..];
  }

  /** For every interleaving of the goroutines the batch rejects (or quarantines) alike, if and only if
      the rejecting (or quarantining) results do not mix some with a reason and some without. */
  lemma {:induction false} VerdictOrderFreeIff(results: seq<CheckResult>, p: CheckResult -> bool)
    ensures VerdictOrderFree(results, p) <==> !MixedReasons(results, p)
  {
    if !MixedReasons(results, p) {
      forall other | multiset(other) == multiset(results)
        ensures FirstReason(other, p).Some? == FirstReason(results, p).Some?
      {
        SameMembers(other, results);
        FirstReasonUniform(other, p);
        FirstReasonUniform(results, p);
      }
    } else {
      var x, y :| x in results && y in results && p(x) && p(y) && x.reason.Some? && y.reason.None?;
      var a := MoveFirst(results, x);
      var b := MoveFirst(results, y);
      assert FirstReason(a, p).Some? != FirstReason(b, p).Some?;
    }
  }

  // ---------------------------------------------------------------- merged authentication results

  function Auths(results: seq<CheckResult>): seq<AuthResult> {
    if results == [] then [] else results[0].auth + Auths(results[1..])
  }

  function Headers(results: seq<CheckResult>): seq<string> {
    if results == [] then [] else results[0].header + Headers(results[1..])
  }

  lemma {:induction false} AuthsConcat(a: seq<CheckResult>, b: seq<CheckResult>)
    ensures Auths(a + b) == Auths(a) + Auths(b)
    ensures Headers(a + b) == Headers(a) + Headers(b)
  {
    if a == [] {
      assert a + b == b;
    } else {
      assert (a + b)[1..] == a[1..] + b;
      AuthsConcat(a[1..], b);
    }
  }

  lemma {:induction false} TakeOut(b: seq<CheckResult>, x: CheckResult) returns (rest: seq<CheckResult>)
    requires x in b
    ensures multiset(b) == multiset(rest) + multiset{x}
    ensures multiset(Auths(b)) == multiset(Auths(rest)) + multiset(x.auth)
  {
    var i :| 0 <= i < |b| && b[i] == x;
    var before, after := b[..i], b[i + 1..];
    rest := before + after;
    assert b == before + ([x] + after);
    AuthsConcat(before, [x] + after);
    assert ([x] + after)[1..] == after;
    AuthsConcat(before, after);
  }

  lemma {:induction false} AuthsPermuted(a: seq<CheckResult>, b: seq<CheckResult>)
    requires multiset(a) == multiset(b)
    ensures multiset(Auths(a)) == multiset(Auths(b))
    decreases |a|
  {
    if a == [] {
      assert |multiset(b)| == 0;
    } else {
      assert a == [a[0]] + a[1..];
      assert a[0] in multiset(b);
      var rest := TakeOut(b, a[0]);
      assert multiset(a) == multiset(a[1..]) + multiset{a[0]};
      assert multiset(a[1..]) == multiset(a) - multiset{a[0]};
      assert multiset(rest) == multiset(b) - multiset{a[0]};
      AuthsPermuted(a[1..], rest);
    }
  }

  /** However the goroutines of a batch interleave, the DMARC verdict is the same, as long as there is at
      most one SPF result in all. */
  lemma {:induction false} BatchOrderDoesNotChangeDmarc(d: Domains, fromDomain: string, rec: Record, earlier: seq<AuthResult>,
                                     a: seq<CheckResult>, b: seq<CheckResult>)
    requires multiset(a) == multiset(b) && AtMostOneSpf(earlier + Auths(a))
    ensures Evaluate(d, fromDomain, rec, earlier + Auths(a)) == Evaluate(d, fromDomain, rec, earlier + Auths(b))
  {
    AuthsPermuted(a, b);
    OneSpfIsOrderFree(d, fromDomain, rec, earlier + Auths(a));
    assert multiset(earlier + Auths(b)) == multiset(earlier + Auths(a));
  }
}
