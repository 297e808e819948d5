/** What the call logs of check states look like, and what batches do to them. */
module CheckLogs {
  import opened Common
  import opened Checks
  import opened CheckBatch

  /** The recipients presented to a state, in order. */
  function RcptsOf(entries: seq<Entry>): seq<string> {
    if entries == [] then []
    else RcptsOf(Front(entries)) + if Last(entries).call.Rcpt? then [Last(entries).call.to] else []
  }

  /** Each element once, in order of first appearance. */
  function FirstSeen(s: seq<string>): seq<string> {
    if s == [] then []
    else
      var earlier := FirstSeen(Front(s));
      if Last(s) in earlier then earlier else earlier + [Last(s)]
  }

  lemma {:induction false} FirstSeenSame(s: seq<string>)
    ensures NoDuplicates(FirstSeen(s)) && forall x :: x in FirstSeen(s) <==> x in s
  {
    if s != [] {
      FirstSeenSame(Front(s));
      assert s == Front(s) + [Last(s)];
    }
  }

  /** A state saw no recipient twice, and the runner knows exactly which ones it saw. */
  ghost predicate SeenRight(log: Log, seen: set<string>) {
    NoDuplicates(RcptsOf(log.entries)) && forall x :: x in seen <==> x in RcptsOf(log.entries)
  }

  /** The state was caught up when it was created: it was shown the connection, then the sender on record, then
      every recipient on record, each once and in order of first appearance; and after that only recipients
      and bodies. */
  ghost predicate Opened(log: Log) {
    OpensWith(log.entries, log.missed.from, FirstSeen(log.missed.rcpts))
  }

  ghost predicate OpensWith(entries: seq<Entry>, from: string, rcpts: seq<string>) {
    |entries| >= 2 + |rcpts| && forall k :: 0 <= k < |entries| ==> Expected(entries, k, from, rcpts)
  }

  ghost predicate Expected(entries: seq<Entry>, k: nat, from: string, rcpts: seq<string>)
    requires k < |entries|
  {
    if k == 0 then entries[k].call == Connection
    else if k == 1 then entries[k].call == Sender(from)
    else if k < 2 + |rcpts| then entries[k].call == Rcpt(rcpts[k - 2])
    else entries[k].call.Rcpt? || entries[k].call.Body?
  }

  /** A state that has been shown the connection, the sender, and every recipient recorded, each once and
      in order of first appearance. */
  ghost predicate CaughtUp(entries: seq<Entry>, mailFrom: string, rcpts: seq<string>) {
    && |entries| >= 2 && entries[0].call == Connection && entries[1].call == Sender(mailFrom)
    && (forall k :: 2 <= k < |entries| ==> entries[k].call.Rcpt?)
    && RcptsOf(entries) == FirstSeen(rcpts)
  }

  /** The logs only ever get longer, and nobody's check changes. */
  ghost predicate Extends(a: seq<Log>, b: seq<Log>) {
    |a| <= |b| && forall id :: 0 <= id < |a| ==> ExtendsAt(a, b, id)
  }

  ghost predicate ExtendsAt(a: seq<Log>, b: seq<Log>, id: nat)
    requires id < |a| <= |b|
  {
    b[id].check == a[id].check && b[id].missed == a[id].missed && a[id].entries <= b[id].entries
  }

  ghost predicate SameCloses(a: seq<Log>, b: seq<Log>) {
    |a| <= |b| && forall id :: 0 <= id < |a| ==> SameClosesAt(a, b, id)
  }

  ghost predicate SameClosesAt(a: seq<Log>, b: seq<Log>, id: nat)
    requires id < |a| <= |b|
  {
    b[id].closes == a[id].closes
  }

  ghost predicate AllSeenRight(logs: seq<Log>, seen: map<nat, set<string>>) {
    && (forall id :: 0 <= id < |logs| ==> SeenRight(logs[id], Seen(seen, id)))
    && (forall id :: id >= |logs| ==> Seen(seen, id) == {})
  }

  lemma {:induction false} SameRcpts(a: seq<Entry>, b: seq<Entry>)
    requires a <= b && forall k :: |a| <= k < |b| ==> !b[k].call.Rcpt?
    ensures RcptsOf(b) == RcptsOf(a)
    decreases |b|
  {
    if |a| < |b| {
      SameRcpts(a, Front(b));
    } else {
      assert a == b;
    }
  }

  /** What a state that was due `n` calls in a batch has been presented with after it. */
  lemma {:induction false} RcptsAfter(a: Log, b: Log, call: Call, n: nat)
    requires Grew(a, b, call, n) && (call.Rcpt? ==> n <= 1)
    ensures RcptsOf(b.entries) == RcptsOf(a.entries) + if call.Rcpt? && n == 1 then [call.to] else []
  {
    if !call.Rcpt? {
      SameRcpts(a.entries, b.entries);
    } else if n == 1 {
      assert Front(b.entries) == a.entries && Last(b.entries).call == call;
    } else {
      assert a.entries == b.entries;
    }
  }

  /** Every batch keeps the records of what was seen right. */
  lemma {:induction false} BatchKeepsSeen(a: Snapshot, b: Snapshot, ids: seq<nat>, call: Call)
    requires AllSeenRight(a.logs, a.seen) && CallsMade(a, b, ids, call)
    requires forall i :: 0 <= i < |ids| ==> ids[i] < |a.logs|
    ensures AllSeenRight(b.logs, b.seen)
  {
    forall id | 0 <= id < |b.logs| ensures SeenRight(b.logs[id], Seen(b.seen, id)) {
      var n := CallsDue(a.seen, ids, call, id);
      RcptsAfter(a.logs[id], b.logs[id], call, n);
    }
  }

  lemma {:induction false} BatchKeepsOpening(a: Snapshot, b: Snapshot, ids: seq<nat>, call: Call, id: nat)
    requires CallsMade(a, b, ids, call) && id < |a.logs| && Opened(a.logs[id])
    requires call.Rcpt? || call.Body? || id !in ids
    ensures Opened(b.logs[id])
  {
    if id !in ids {
      NotOccurring(ids, id);
    }
    assert Grew(a.logs[id], b.logs[id], call, CallsDue(a.seen, ids, call, id));
    var from, rcpts := a.logs[id].missed.from, FirstSeen(a.logs[id].missed.rcpts);
    var before, after := a.logs[id].entries, b.logs[id].entries;
    forall k | 0 <= k < |after| ensures Expected(after, k, from, rcpts) {
      if k < |before| {
        assert Expected(before, k, from, rcpts) && after[k] == before[k];
      }
    }
  }

  lemma {:induction false} RcptEntries(entries: seq<Entry>)
    requires |entries| >= 2 && !entries[0].call.Rcpt? && !entries[1].call.Rcpt?
    requires forall k :: 2 <= k < |entries| ==> entries[k].call.Rcpt?
    ensures |RcptsOf(entries)| == |entries| - 2
    ensures forall k :: 2 <= k < |entries| ==> entries[k].call.to == RcptsOf(entries)[k - 2]
    decreases |entries|
  {
    if |entries| > 2 {
      RcptEntries(Front(entries));
      assert forall k :: 0 <= k < |entries| - 1 ==> Front(entries)[k] == entries[k];
    } else {
      SameRcpts([], entries);
    }
  }

  /** A state that has just been caught up. */
  lemma {:induction false} CaughtUpOpened(log: Log)
    requires CaughtUp(log.entries, log.missed.from, log.missed.rcpts)
    ensures Opened(log)
  {
    RcptEntries(log.entries);
  }

  lemma {:induction false} NotOccurring(ids: seq<nat>, id: nat)
    ensures id !in ids <==> Occurs(ids, id) == 0
  {
    if ids != [] {
      NotOccurring(Front(ids), id);
      assert ids == Front(ids) + [Last(ids)];
    }
  }

  lemma {:induction false} OccursOnce(ids: seq<nat>, id: nat)
    requires NoDuplicates(ids) && id in ids
    ensures Occurs(ids, id) == 1
  {
    assert ids == Front(ids) + [Last(ids)];
    if Last(ids) == id {
      NotOccurring(Front(ids), id);
    } else {
      OccursOnce(Front(ids), id);
    }
  }

  lemma {:induction false} RcptsKept(a: seq<Entry>, b: seq<Entry>, to: string)
    requires a <= b && to in RcptsOf(a)
    ensures to in RcptsOf(b)
    decreases |b|
  {
    if |a| < |b| {
      RcptsKept(a, Front(b), to);
    } else {
      assert a == b;
    }
  }

  lemma {:induction false} ExtendsOn(a: seq<Log>, b: seq<Log>, c: seq<Log>)
    requires Extends(a, b) && Extends(b, c)
    ensures Extends(a, c)
  {
    forall id | 0 <= id < |a| ensures ExtendsAt(a, c, id) {
      assert ExtendsAt(a, b, id) && ExtendsAt(b, c, id);
    }
  }

  /** Calls were made, but no state was created or closed. */
  ghost predicate Onward(a: seq<Log>, b: seq<Log>) {
    |a| == |b| && Extends(a, b) && SameCloses(a, b)
  }

  // ---------------------------------------------------------------- catching up

  lemma {:induction false} ConnectionFirst(a: Snapshot, b: Snapshot, ids: seq<nat>, id: nat)
    requires CallsMade(a, b, ids, Connection) && NoDuplicates(ids) && id in ids && id < |a.logs| && a.logs[id].entries == []
    ensures |b.logs[id].entries| == 1 && b.logs[id].entries[0].call == Connection
  {
    OccursOnce(ids, id);
    assert Grew(a.logs[id], b.logs[id], Connection, 1);
  }

  lemma {:induction false} SenderSecond(a: Snapshot, b: Snapshot, ids: seq<nat>, id: nat, mailFrom: string)
    requires CallsMade(a, b, ids, Sender(mailFrom)) && NoDuplicates(ids) && id in ids && id < |a.logs|
    requires |a.logs[id].entries| == 1 && a.logs[id].entries[0].call == Connection
    ensures CaughtUp(b.logs[id].entries, mailFrom, [])
  {
    OccursOnce(ids, id);
    assert Grew(a.logs[id], b.logs[id], Sender(mailFrom), 1);
    var entries := b.logs[id].entries;
    assert entries[0] == a.logs[id].entries[0];
    SameRcpts([], entries);
  }

  /** The states from `lo` up to, not including, `n`. */
  function IdsFrom(lo: nat, n: nat): seq<nat>
    requires lo <= n
  {
    seq(n - lo, k => lo + k)
  }

  lemma {:induction false} Greeted(start: Snapshot, middle: Snapshot, end: Snapshot, newIds: seq<nat>, lo: nat, mailFrom: string)
    requires lo <= |start.logs| && newIds == IdsFrom(lo, |start.logs|)
    requires CallsMade(start, middle, newIds, Connection) && CallsMade(middle, end, newIds, Sender(mailFrom))
    requires NewBlank(start.logs, lo)
    ensures NewCaughtUp(end.logs, lo, mailFrom, [])
  {
    forall id | lo <= id < |end.logs| ensures UpToDate(end.logs, id, mailFrom, []) {
      assert newIds[id - lo] == id;
      ConnectionFirst(start, middle, newIds, id);
      SenderSecond(middle, end, newIds, id, mailFrom);
    }
  }

  lemma {:induction false} RcptNext(a: Snapshot, b: Snapshot, ids: seq<nat>, id: nat, mailFrom: string, rcpts: seq<string>, to: string)
    requires CallsMade(a, b, ids, Rcpt(to)) && id in ids && id < |a.logs| && SeenRight(a.logs[id], Seen(a.seen, id))
    requires CaughtUp(a.logs[id].entries, mailFrom, rcpts)
    ensures CaughtUp(b.logs[id].entries, mailFrom, rcpts + [to])
  {
    var n := CallsDue(a.seen, ids, Rcpt(to), id);
    assert Grew(a.logs[id], b.logs[id], Rcpt(to), n);
    RcptsAfter(a.logs[id], b.logs[id], Rcpt(to), n);
    assert Front(rcpts + [to]) == rcpts && Last(rcpts + [to]) == to;
    var entries := a.logs[id].entries;
    assert b.logs[id].entries[..|entries|] == entries;
  }

  /** One more recipient, shown to the states from `lo` on. */
  lemma {:induction false} NewNext(a: Snapshot, b: Snapshot, ids: seq<nat>, lo: nat, mailFrom: string, rcpts: seq<string>, to: string)
    requires CallsMade(a, b, ids, Rcpt(to)) && AllSeenRight(a.logs, a.seen)
    requires NewListed(a.logs, lo, ids) && NewCaughtUp(a.logs, lo, mailFrom, rcpts)
    ensures NewListed(b.logs, lo, ids) && NewCaughtUp(b.logs, lo, mailFrom, rcpts + [to])
  {
    forall id | lo <= id < |b.logs| ensures UpToDate(b.logs, id, mailFrom, rcpts + [to]) {
      assert UpToDate(a.logs, id, mailFrom, rcpts) && SeenRight(a.logs[id], Seen(a.seen, id));
      NotOccurring(ids, id);
      RcptNext(a, b, ids, id, mailFrom, rcpts, to);
    }
  }

  // ---------------------------------------------------------------- the runner's books

  /** Every registered state is its check's, and was caught up before anything else. */
  ghost predicate Registered(states: map<Check, nat>, logs: seq<Log>) {
    forall c :: RegisteredAt(states, logs, c)
  }

  ghost predicate RegisteredAt(states: map<Check, nat>, logs: seq<Log>, c: Check) {
    c in states ==> states[c] < |logs| && logs[states[c]].check == c && Opened(logs[states[c]])
  }

  ghost predicate Below(states: map<Check, nat>, lo: nat) {
    forall c :: c in states ==> states[c] < lo
  }

  lemma {:induction false} RegisteredBelow(states: map<Check, nat>, logs: seq<Log>)
    requires Registered(states, logs)
    ensures Below(states, |logs|) && forall c :: c in states ==> logs[states[c]].check == c
  {
    forall c | c in states ensures states[c] < |logs| && logs[states[c]].check == c {
      assert RegisteredAt(states, logs, c);
    }
  }

  lemma {:induction false} RegisteredMore(states: map<Check, nat>, a: seq<Log>, b: seq<Log>)
    requires Registered(states, a) && a <= b
    ensures Registered(states, b) && Extends(a, b) && SameCloses(a, b)
  {
    forall id | 0 <= id < |a| ensures ExtendsAt(a, b, id) && SameClosesAt(a, b, id) {
      assert a[id] == b[id];
    }
    forall c ensures RegisteredAt(states, b, c) {
      assert RegisteredAt(states, a, c);
    }
  }

  ghost predicate InUse(states: map<Check, nat>, logs: seq<Log>, id: nat)
    requires id < |logs|
  {
    logs[id].check in states && states[logs[id].check] == id
  }

  /** Every state is registered or has been closed. */
  ghost predicate NoneLost(states: map<Check, nat>, logs: seq<Log>) {
    forall id :: 0 <= id < |logs| ==> Cared(states, logs, id)
  }

  ghost predicate Cared(states: map<Check, nat>, logs: seq<Log>, id: nat)
    requires id < |logs|
  {
    InUse(states, logs, id) || logs[id].closes >= 1
  }

  /** What a state had missed is the beginning of what is on record. */
  ghost predicate OnRecord(logs: seq<Log>, rcpts: seq<string>) {
    forall id :: MissedOf(logs, id, rcpts)
  }

  ghost predicate MissedOf(logs: seq<Log>, id: int, rcpts: seq<string>) {
    0 <= id < |logs| ==> logs[id].missed.rcpts <= rcpts
  }

  lemma {:induction false} StillOnRecord(a: seq<Log>, b: seq<Log>, rcpts: seq<string>, more: seq<string>)
    requires OnRecord(a, rcpts) && rcpts <= more && |a| <= |b|
    requires forall id :: 0 <= id < |b| ==> b[id].missed.rcpts == if id < |a| then a[id].missed.rcpts else more
    ensures OnRecord(b, more)
  {
    forall id ensures MissedOf(b, id, more) {
      assert MissedOf(a, id, rcpts);
    }
  }

  /** A registered state is still open, and no other was closed twice. */
  ghost predicate Proper(states: map<Check, nat>, logs: seq<Log>, id: nat)
    requires id < |logs|
  {
    logs[id].closes <= if InUse(states, logs, id) then 0 else 1
  }

  ghost predicate AllProper(states: map<Check, nat>, logs: seq<Log>) {
    forall id :: 0 <= id < |logs| ==> Proper(states, logs, id)
  }

  /** `clean` says exactly whether no state is lost, `reclosed` whether one has been, or will be, closed twice. */
  ghost predicate Lives(states: map<Check, nat>, logs: seq<Log>, clean: bool, reclosed: bool) {
    (clean <==> NoneLost(states, logs)) && (reclosed <==> !AllProper(states, logs))
  }

  /** The list holds a state that was there before. */
  ghost predicate Reclaims(ids: seq<nat>, lo: nat) {
    exists id :: id in ids && id < lo
  }

  /** No state of the list is registered. */
  ghost predicate Unlisted(states: map<Check, nat>, ids: seq<nat>) {
    forall c :: c in states ==> states[c] !in ids
  }

  lemma {:induction false} BatchKeepsRegistered(a: Snapshot, b: Snapshot, ids: seq<nat>, call: Call, states: map<Check, nat>)
    requires CallsMade(a, b, ids, call) && Registered(states, a.logs)
    requires call.Rcpt? || call.Body? || Unlisted(states, ids)
    ensures Registered(states, b.logs)
  {
    forall c ensures RegisteredAt(states, b.logs, c) {
      assert RegisteredAt(states, a.logs, c);
      if c in states {
        BatchKeepsOpening(a, b, ids, call, states[c]);
        assert Grew(a.logs[states[c]], b.logs[states[c]], call, CallsDue(a.seen, ids, call, states[c]));
      }
    }
  }

  lemma {:induction false} ReplayKeepsNew(a: seq<Log>, b: seq<Log>, c: seq<Log>, added: map<Check, nat>, missed: Missed)
    requires Extends(a, b) && SameCloses(a, b) && Onward(b, c) && NewAdded(added, b, |a|) && NewMissed(b, |a|, missed)
    ensures Extends(a, c) && SameCloses(a, c) && NewAdded(added, c, |a|)
    ensures NewInUse(added, c, |a|) <==> NewInUse(added, b, |a|)
    ensures NewMissed(c, |a|, missed) && (NewUnclosed(b, |a|) ==> NewUnclosed(c, |a|))
  {
    ExtendsOn(a, b, c);
    forall id | 0 <= id < |b| ensures c[id].check == b[id].check && c[id].closes == b[id].closes && c[id].missed == b[id].missed {
      assert ExtendsAt(b, c, id) && SameClosesAt(b, c, id);
    }
    forall id | 0 <= id < |a| ensures SameClosesAt(a, c, id) {
      assert SameClosesAt(a, b, id);
    }
    forall id | |a| <= id < |b| ensures InUse(added, c, id) == InUse(added, b, id) {
    }
  }

  ghost predicate ClosedMore(a: seq<Log>, b: seq<Log>, ids: seq<nat>) {
    |b| == |a| && forall id :: 0 <= id < |a| ==> b[id] == a[id].(closes := a[id].closes + Occurs(ids, id))
  }

  /** The list holds registered states and new ones only. */
  ghost predicate OwnOrNew(ids: seq<nat>, states: map<Check, nat>, lo: nat) {
    forall id :: id in ids && id < lo ==> exists c :: c in states && states[c] == id
  }

  /** A failed attempt closes every state it created, once, and no state that was lost before: nothing is lost
      by it, and nothing found. It closes a state too often exactly if there was an earlier one in its list. */
  lemma {:induction false} FailureLeavesNothing(a: seq<Log>, b: seq<Log>, c: seq<Log>, ids: seq<nat>, states: map<Check, nat>, clean: bool, reclosed: bool)
    requires Lives(states, a, clean, reclosed) && Registered(states, a)
    requires Extends(a, b) && SameCloses(a, b) && ClosedMore(b, c, ids)
    requires NewListed(b, |a|, ids) && NewUnclosed(b, |a|) && OwnOrNew(ids, states, |a|)
    ensures Lives(states, c, clean, reclosed || Reclaims(ids, |a|))
  {
    forall id | 0 <= id < |c|
      ensures id >= |a| ==> c[id].closes == 1 && Proper(states, c, id) && Cared(states, c, id)
      ensures id < |a| ==> Cared(states, c, id) == Cared(states, a, id)
      ensures id < |a| ==> (Proper(states, c, id) <==> Proper(states, a, id) && id !in ids)
    {
      NotOccurring(ids, id);
      assert c[id].check == b[id].check;
      if id < |a| {
        assert ExtendsAt(a, b, id) && SameClosesAt(a, b, id);
        if id in ids {
          var k :| k in states && states[k] == id;
          assert RegisteredAt(states, a, k);
        }
      } else {
        assert RegisteredAt(states, a, c[id].check);
      }
    }
    if id :| id in ids && id < |a| {
      assert !Proper(states, c, id);
    }
  }

  ghost predicate Within(ids: seq<nat>, n: nat) {
    forall i :: 0 <= i < |ids| ==> ids[i] < n
  }

  ghost predicate NewListed(logs: seq<Log>, lo: nat, ids: seq<nat>) {
    forall id :: lo <= id < |logs| ==> Occurs(ids, id) == 1
  }

  ghost predicate NewUnclosed(logs: seq<Log>, lo: nat) {
    forall id :: lo <= id < |logs| ==> logs[id].closes == 0
  }

  ghost predicate NewCaughtUp(logs: seq<Log>, lo: nat, mailFrom: string, rcpts: seq<string>) {
    forall id :: lo <= id < |logs| ==> UpToDate(logs, id, mailFrom, rcpts)
  }

  ghost predicate UpToDate(logs: seq<Log>, id: nat, mailFrom: string, rcpts: seq<string>)
    requires id < |logs|
  {
    CaughtUp(logs[id].entries, mailFrom, rcpts)
  }

  /** The states from `lo` on have not been called. */
  ghost predicate NewBlank(logs: seq<Log>, lo: nat) {
    forall id :: lo <= id < |logs| ==> logs[id].entries == []
  }

  /** The states from `lo` on were created when this was on record. */
  ghost predicate NewMissed(logs: seq<Log>, lo: nat, missed: Missed) {
    forall id :: lo <= id < |logs| ==> logs[id].missed == missed
  }

  ghost predicate NewInUse(added: map<Check, nat>, logs: seq<Log>, lo: nat) {
    forall id :: lo <= id < |logs| ==> InUse(added, logs, id)
  }

  ghost predicate AddedFor(added: map<Check, nat>, checks: seq<Check>, states: map<Check, nat>) {
    added.Keys == set c | c in checks && c !in states
  }

  /** The states of these checks that are registered are in the list. */
  ghost predicate Lists(ids: seq<nat>, checks: seq<Check>, states: map<Check, nat>) {
    forall c :: c in checks && c in states ==> states[c] in ids
  }

  /** After registration the list holds the state of every check asked for, old or new. */
  lemma {:induction false} EveryCheckListed(ids: seq<nat>, checks: seq<Check>, states: map<Check, nat>, added: map<Check, nat>, logs: seq<Log>,
                         lo: nat, mailFrom: string, rcpts: seq<string>)
    requires Lists(ids, checks, states) && AddedFor(added, checks, states) && NewAdded(added, logs, lo)
    requires NewListed(logs, lo, ids) && NewCaughtUp(logs, lo, mailFrom, rcpts) && NewMissed(logs, lo, Missed(mailFrom, rcpts))
    ensures (states + added).Keys == states.Keys + (set c | c in checks)
    ensures forall c :: c in states ==> (states + added)[c] == states[c]
    ensures forall c :: c in checks ==> (states + added)[c] in ids
    ensures forall c :: c in checks && c !in states ==> added[c] < |logs| && logs[added[c]].missed == Missed(mailFrom, rcpts)
    ensures forall c :: c in checks && c !in states ==> CaughtUp(logs[added[c]].entries, mailFrom, rcpts)
  {
    forall c | c in checks && c !in states ensures CaughtUp(logs[added[c]].entries, mailFrom, rcpts) && added[c] in ids {
      assert UpToDate(logs, added[c], mailFrom, rcpts);
      NotOccurring(ids, added[c]);
    }
  }

  ghost predicate NewAdded(added: map<Check, nat>, logs: seq<Log>, lo: nat) {
    forall c :: c in added ==> lo <= added[c] < |logs| && logs[added[c]].check == c
  }

  /** A successful attempt registers the new states; those that are not registered are lost. */
  lemma {:induction false} RegisteringKeepsBooks(a: seq<Log>, b: seq<Log>, states: map<Check, nat>, added: map<Check, nat>,
                              mailFrom: string, rcpts: seq<string>, clean: bool, reclosed: bool, distinct: bool)
    requires Registered(states, a) && Registered(states, b) && Lives(states, a, clean, reclosed) && Extends(a, b) && SameCloses(a, b)
    requires states.Keys !! added.Keys && NewAdded(added, b, |a|)
    requires NewCaughtUp(b, |a|, mailFrom, rcpts) && NewMissed(b, |a|, Missed(mailFrom, rcpts))
    requires NewUnclosed(b, |a|) && (distinct <==> NewInUse(added, b, |a|))
    ensures Registered(states + added, b) && Lives(states + added, b, clean && distinct, reclosed)
  {
    var all := states + added;
    forall c ensures RegisteredAt(all, b, c) {
      assert RegisteredAt(states, b, c);
      if c in added {
        assert UpToDate(b, added[c], mailFrom, rcpts);
        CaughtUpOpened(b[added[c]]);
      }
    }
    forall id | 0 <= id < |b|
      ensures id < |a| ==> Cared(all, b, id) == Cared(states, a, id) && Proper(all, b, id) == Proper(states, a, id)
      ensures id >= |a| ==> Cared(all, b, id) == InUse(added, b, id) && Proper(all, b, id)
    {
      if id < |a| {
        assert ExtendsAt(a, b, id) && SameClosesAt(a, b, id);
      } else {
        assert RegisteredAt(states, a, b[id].check);
      }
    }
  }
}
