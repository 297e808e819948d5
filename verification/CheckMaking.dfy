/** Making the state objects of a list of checks. */
module CheckMaking {
  import opened Common
  import opened Checks
  import opened CheckBatch
  import opened CheckLogs

  /** No check that has no state yet is listed twice. */
  ghost predicate NewOnce(checks: seq<Check>, states: map<Check, nat>) {
    forall i, j :: 0 <= i < j < |checks| && checks[i] == checks[j] ==> checks[i] in states
  }

  /** A list without duplicates loses no state. */
  ghost predicate Tidily(before: bool, checks: seq<Check>, after: bool) {
    before && NoDuplicates(checks) ==> after
  }

  ghost predicate AnyIn(checks: seq<Check>, states: map<Check, nat>) {
    exists c :: c in checks && c in states
  }

  /** The list holds the states of the first `got` checks; the next one, if there is one, was refused. */
  ghost predicate Obtained(ids: seq<nat>, lo: nat, checks: seq<Check>, got: nat, states: map<Check, nat>) {
    && got <= |checks| && (got < |checks| ==> checks[got] !in states)
    && (Reclaims(ids, lo) <==> AnyIn(checks[..got], states))
  }

  /** The new states have seen nothing, are open, and are in the list once. */
  ghost predicate NewUntouched(logs: seq<Log>, lo: nat, ids: seq<nat>, missed: Missed) {
    forall id :: lo <= id < |logs| ==> Untouched(logs[id], missed) && Occurs(ids, id) == 1
  }

  ghost predicate Untouched(log: Log, missed: Missed) {
    log.missed == missed && log.entries == [] && log.closes == 0
  }

  /** What creating states keeps true of the states listed so far. */
  ghost predicate InOrder(logs: seq<Log>, lo: nat, ids: seq<nat>, states: map<Check, nat>, added: map<Check, nat>, missed: Missed) {
    NewUntouched(logs, lo, ids, missed) && Within(ids, |logs|) && OwnOrNew(ids, states, lo) && NewAdded(added, logs, lo)
  }

  lemma {:induction false} OccursNext(ids: seq<nat>, x: nat, id: nat)
    ensures Occurs(ids + [x], id) == Occurs(ids, id) + if x == id then 1 else 0
  {
    assert Front(ids + [x]) == ids;
  }

  lemma {:induction false} OldListed(logs: seq<Log>, lo: nat, ids: seq<nat>, states: map<Check, nat>, added: map<Check, nat>, check: Check, missed: Missed)
    requires InOrder(logs, lo, ids, states, added, missed) && check in states && states[check] < lo <= |logs|
    ensures InOrder(logs, lo, ids + [states[check]], states, added, missed)
  {
    var more := ids + [states[check]];
    forall id | lo <= id < |logs| ensures Untouched(logs[id], missed) && Occurs(more, id) == 1 {
      OccursNext(ids, states[check], id);
    }
  }

  lemma {:induction false} NewListedToo(logs: seq<Log>, lo: nat, ids: seq<nat>, states: map<Check, nat>, added: map<Check, nat>, check: Check, missed: Missed)
    requires InOrder(logs, lo, ids, states, added, missed) && lo <= |logs|
    ensures InOrder(logs + [Log(check, missed, [], 0)], lo, ids + [|logs|], states, added[check := |logs|], missed)
  {
    var longer, more := logs + [Log(check, missed, [], 0)], ids + [|logs|];
    assert forall id :: 0 <= id < |logs| ==> longer[id] == logs[id];
    NotOccurring(ids, |logs|);
    forall id | lo <= id < |longer| ensures Untouched(longer[id], missed) && Occurs(more, id) == 1 {
      OccursNext(ids, |logs|, id);
    }
  }

  /** The states of the first `i` checks, while they are being made. */
  ghost predicate Making(checks: seq<Check>, i: nat, states: map<Check, nat>, lo: nat, logs: seq<Log>, ids: seq<nat>, newIds: seq<nat>,
                         added: map<Check, nat>, missed: Missed) {
    && i <= |checks| && lo <= |logs| && newIds == IdsFrom(lo, |logs|)
    && InOrder(logs, lo, ids, states, added, missed)
    && AddedFor(added, checks[..i], states) && Lists(ids, checks[..i], states)
    && (NewOnce(checks[..i], states) <==> NewInUse(added, logs, lo))
    && (Reclaims(ids, lo) <==> AnyIn(checks[..i], states))
  }

  lemma {:induction false} MakeNone(checks: seq<Check>, states: map<Check, nat>, logs: seq<Log>, missed: Missed)
    ensures Making(checks, 0, states, |logs|, logs, [], [], map[], missed)
  {
  }

  lemma {:induction false} MakeOld(checks: seq<Check>, i: nat, states: map<Check, nat>, lo: nat, logs: seq<Log>, ids: seq<nat>, newIds: seq<nat>,
                                   added: map<Check, nat>, missed: Missed)
    requires Making(checks, i, states, lo, logs, ids, newIds, added, missed)
    requires i < |checks| && checks[i] in states && states[checks[i]] < lo
    ensures Making(checks, i + 1, states, lo, logs, ids + [states[checks[i]]], newIds, added, missed)
  {
    NewOnceNext(checks, i, states);
    ReclaimsNext(ids, lo, checks, i, states, states[checks[i]]);
    ListedNext(ids, added, checks, i, states, states[checks[i]]);
    OldListed(logs, lo, ids, states, added, checks[i], missed);
  }

  lemma {:induction false} MakeNew(checks: seq<Check>, i: nat, states: map<Check, nat>, lo: nat, logs: seq<Log>, ids: seq<nat>, newIds: seq<nat>,
                                   added: map<Check, nat>, missed: Missed)
    requires Making(checks, i, states, lo, logs, ids, newIds, added, missed) && i < |checks| && checks[i] !in states
    ensures Making(checks, i + 1, states, lo, logs + [Log(checks[i], missed, [], 0)], ids + [|logs|], newIds + [|logs|],
                   added[checks[i] := |logs|], missed)
  {
    NewOnceNext(checks, i, states);
    ReclaimsNext(ids, lo, checks, i, states, |logs|);
    ListedNext(ids, added, checks, i, states, |logs|);
    NewListedToo(logs, lo, ids, states, added, checks[i], missed);
    NewInUseNext(added, logs, lo, checks[i], missed);
    assert IdsFrom(lo, |logs| + 1) == IdsFrom(lo, |logs|) + [|logs|];
    AddedKeys(added, checks, i, states);
  }

  /** A check that has just been given a state had one already exactly if it is listed before. */
  lemma {:induction false} AddedKeys(added: map<Check, nat>, checks: seq<Check>, i: nat, states: map<Check, nat>)
    requires i < |checks| && AddedFor(added, checks[..i], states) && checks[i] !in states
    ensures checks[i] in added <==> checks[i] in checks[..i]
  {
  }

  lemma {:induction false} MakeDone(checks: seq<Check>, i: nat, states: map<Check, nat>, lo: nat, logs: seq<Log>, ids: seq<nat>, newIds: seq<nat>,
                                    added: map<Check, nat>, missed: Missed)
    requires Making(checks, i, states, lo, logs, ids, newIds, added, missed)
    ensures NewBlank(logs, lo) && NewListed(logs, lo, ids) && NewUnclosed(logs, lo) && NewMissed(logs, lo, missed)
    ensures i == |checks| ==> checks[..i] == checks
  {
    forall id | lo <= id < |logs| ensures Occurs(ids, id) == 1 && Untouched(logs[id], missed) {
    }
  }

  lemma {:induction false} ReclaimsNext(ids: seq<nat>, lo: nat, checks: seq<Check>, i: nat, states: map<Check, nat>, id: nat)
    requires i < |checks| && (Reclaims(ids, lo) <==> AnyIn(checks[..i], states)) && (id < lo <==> checks[i] in states)
    ensures Reclaims(ids + [id], lo) <==> AnyIn(checks[..i + 1], states)
  {
    var less, more := checks[..i], checks[..i + 1];
    assert more == less + [checks[i]];
    if Reclaims(ids + [id], lo) {
      var x :| x in ids + [id] && x < lo;
      assert x in ids || checks[i] in more;
    }
    if AnyIn(more, states) {
      var c :| c in more && c in states;
      assert c in less || id in ids + [id];
    }
    if Reclaims(ids, lo) {
      var x :| x in ids && x < lo;
      assert x in ids + [id];
    }
    if AnyIn(less, states) {
      var c :| c in less && c in states;
      assert c in more;
    }
  }

  lemma {:induction false} ListedNext(ids: seq<nat>, added: map<Check, nat>, checks: seq<Check>, i: nat, states: map<Check, nat>, id: nat)
    requires i < |checks| && AddedFor(added, checks[..i], states) && Lists(ids, checks[..i], states)
    requires checks[i] in states ==> id == states[checks[i]]
    ensures Lists(ids + [id], checks[..i + 1], states)
    ensures AddedFor(if checks[i] in states then added else added[checks[i] := id], checks[..i + 1], states)
  {
    assert checks[..i + 1] == checks[..i] + [checks[i]];
  }

  lemma {:induction false} NewOnceNext(checks: seq<Check>, i: nat, states: map<Check, nat>)
    requires i < |checks|
    ensures NewOnce(checks[..i + 1], states) <==> NewOnce(checks[..i], states) && (checks[i] in states || checks[i] !in checks[..i])
  {
    var less, more := checks[..i], checks[..i + 1];
    assert forall k :: 0 <= k < i ==> more[k] == less[k];
    assert more[i] == checks[i];
  }

  /** One more new state: it takes the place of one that its check had, which is then not in use. */
  lemma {:induction false} NewInUseNext(added: map<Check, nat>, logs: seq<Log>, lo: nat, check: Check, missed: Missed)
    requires lo <= |logs| && NewAdded(added, logs, lo)
    ensures NewInUse(added[check := |logs|], logs + [Log(check, missed, [], 0)], lo) <==> NewInUse(added, logs, lo) && check !in added
  {
    var more, longer := added[check := |logs|], logs + [Log(check, missed, [], 0)];
    assert InUse(more, longer, |logs|);
    if check in added {
      assert longer[added[check]] == logs[added[check]];
      assert !InUse(more, longer, added[check]);
    } else {
      forall id | lo <= id < |logs| ensures InUse(more, longer, id) <==> InUse(added, logs, id) {
        StillInUse(added, logs, check, missed, id);
      }
    }
  }

  lemma {:induction false} StillInUse(added: map<Check, nat>, logs: seq<Log>, check: Check, missed: Missed, id: nat)
    requires id < |logs| && check !in added
    ensures InUse(added[check := |logs|], logs + [Log(check, missed, [], 0)], id) <==> InUse(added, logs, id)
  {
    var longer := logs + [Log(check, missed, [], 0)];
    assert longer[id] == logs[id];
  }

  lemma {:induction false} NewApart(newIds: seq<nat>, lo: nat, n: nat, states: map<Check, nat>)
    requires lo <= n && newIds == IdsFrom(lo, n) && Below(states, lo)
    ensures Within(newIds, n) && Unlisted(states, newIds)
  {
  }
}
