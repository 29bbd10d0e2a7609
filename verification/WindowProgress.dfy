/**
 Exactly when transactions that lock windows one call after the other can block each other for good.
 */
module WindowProgress {
  import opened Outcomes
  import opened Slots
  import opened LockOrder
  import opened WindowLocks

  // ---------------------------------------------------------------- rings

  /** A point in a transaction: so many calls made, and a night of the current one to lock next. */
  datatype Place = Place(who: nat, calls: nat, night: int)

  predicate Inside(txns: seq<Transaction>, p: Place) {
    p.who < |txns| && p.calls < |txns[p.who]| &&
    txns[p.who][p.calls].window.start <= p.night < txns[p.who][p.calls].window.end
  }

  /** The row locked next. */
  function Next(txns: seq<Transaction>, p: Place): SlotKey
    requires Inside(txns, p)
  {
    SlotKey(txns[p.who][p.calls].window.cell, p.night)
  }

  /** A row locked by then, if there is one. */
  ghost predicate Holds(txns: seq<Transaction>, p: Place, k: SlotKey)
    requires Inside(txns, p)
  {
    Touches(txns[p.who][..p.calls], k) || txns[p.who][p.calls].window.Until(p.night).Covers(k)
  }

  /** The calls that refuse a missing night find all of theirs. */
  ghost predicate AllOpened(keys: set<SlotKey>, calls: seq<Call>) {
    forall q, n :: 0 <= q < |calls| && calls[q].change.NeedsEveryNight() && calls[q].window.start <= n < calls[q].window.end ==>
      SlotKey(calls[q].window.cell, n) in keys
  }

  /** A place a transaction can come to, and where it asks for a row it has not locked yet. */
  ghost predicate Asks(keys: set<SlotKey>, txns: seq<Transaction>, p: Place) {
    && Inside(txns, p) && Next(txns, p) in keys && !Holds(txns, p, Next(txns, p))
    && AllOpened(keys, txns[p.who][..p.calls])
  }

  /** No row is locked at both places. */
  ghost predicate Apart(keys: set<SlotKey>, txns: seq<Transaction>, p: Place, q: Place)
    requires Inside(txns, p) && Inside(txns, q)
  {
    forall k :: k in keys && Holds(txns, p, k) ==> !Holds(txns, q, k)
  }

  function After(n: nat, a: nat): nat {
    if a + 1 == n then 0 else a + 1
  }

  /** Places of different transactions, with nothing locked in common, each asking for a row of the next. */
  ghost predicate Ring(keys: set<SlotKey>, txns: seq<Transaction>, ring: seq<Place>) {
    && |ring| >= 2
    && (forall a :: 0 <= a < |ring| ==> Asks(keys, txns, ring[a]))
    && (forall a, b :: 0 <= a < b < |ring| ==> ring[a].who != ring[b].who && Apart(keys, txns, ring[a], ring[b]))
    && (forall a :: 0 <= a < |ring| ==> Holds(txns, ring[After(|ring|, a)], Next(txns, ring[a])))
  }

  ghost predicate HasRing(keys: set<SlotKey>, txns: seq<Transaction>) {
    exists ring :: Ring(keys, txns, ring)
  }

  // ---------------------------------------------------------------- everybody blocked means a ring

  /** Where a session that is locking stands. */
  function PlaceOf(s: System, i: nat): Place
    requires i < |s.sessions| && s.sessions[i].phase.Locking?
  {
    Place(i, s.sessions[i].calls, s.sessions[i].phase.next)
  }

  ghost predicate Blocked(s: System, txns: seq<Transaction>, i: nat)
    requires i < |s.sessions| == |txns|
  {
    !s.sessions[i].phase.Finished? && !Enabled(s, txns, i)
  }

  lemma {:induction false} AppliedMeansOpened(rows: SlotTable, calls: seq<Call>)
    requires AllGood(rows) && ApplyAll(rows, calls).Ok?
    ensures AllOpened(rows.Keys, calls)
    decreases |calls|
  {
    if calls != [] {
      var front := calls[..|calls| - 1];
      AppliedMeansOpened(rows, front);
      ApplyAllKeeps(rows, front);
      assert forall q :: 0 <= q < |front| ==> front[q] == calls[q];
    }
  }

  /** A session that is locking, and the rows it has locked. */
  ghost predicate Stands(keys: set<SlotKey>, txns: seq<Transaction>, s: System, i: nat) {
    && i < |s.sessions| == |txns| && s.sessions[i].phase.Locking? && Inside(txns, PlaceOf(s, i))
    && forall k :: k in s.sessions[i].mine <==> k in keys && Holds(txns, PlaceOf(s, i), k)
  }

  lemma LockingStands(keys: set<SlotKey>, txns: seq<Transaction>, s: System, i: nat)
    requires Orderly(keys, txns, s) && i < |txns| && s.sessions[i].phase.Locking?
    requires Inside(txns, PlaceOf(s, i))
    ensures Stands(keys, txns, s, i)
  {
    assert SessionOk(s.rows, txns[i], s.sessions[i]);
  }

  lemma BlockedAsks(keys: set<SlotKey>, txns: seq<Transaction>, s: System, i: nat)
    requires Orderly(keys, txns, s) && i < |txns| && Blocked(s, txns, i)
    ensures s.sessions[i].phase.Locking? && Asks(keys, txns, PlaceOf(s, i))
    ensures Wanted(s, txns, i) == Some(Next(txns, PlaceOf(s, i))) && Wanted(s, txns, i).value in s.owner
    ensures s.owner[Wanted(s, txns, i).value] < |txns| && s.owner[Wanted(s, txns, i).value] != i
    ensures !s.sessions[s.owner[Wanted(s, txns, i).value]].phase.Finished?
  {
    var me, t := s.sessions[i], txns[i];
    assert SessionOk(s.rows, t, me);
    AppliedMeansOpened(s.rows, t[..me.calls]);
    LockingStands(keys, txns, s, i);
    var o := s.owner[Wanted(s, txns, i).value];
    assert SessionOk(s.rows, txns[o], s.sessions[o]);
  }

  ghost predicate AllBlocked(s: System, txns: seq<Transaction>)
    requires |s.sessions| == |txns|
  {
    forall i :: 0 <= i < |txns| && !s.sessions[i].phase.Finished? ==> Blocked(s, txns, i)
  }

  /** Two sessions that are locking have no row in common. */
  lemma StandApart(keys: set<SlotKey>, txns: seq<Transaction>, s: System, i: nat, j: nat)
    requires LocksOk(s) && i != j && Stands(keys, txns, s, i) && Stands(keys, txns, s, j)
    ensures Apart(keys, txns, PlaceOf(s, i), PlaceOf(s, j))
  {
    forall k | k in keys && Holds(txns, PlaceOf(s, i), k) ensures !Holds(txns, PlaceOf(s, j), k) {
      assert k in s.sessions[i].mine && s.owner[k] == i;
    }
  }

  /** A session that asks for a row of another. */
  ghost predicate AsksOf(keys: set<SlotKey>, txns: seq<Transaction>, s: System, i: nat, j: nat) {
    && Stands(keys, txns, s, i) && Asks(keys, txns, PlaceOf(s, i))
    && Next(txns, PlaceOf(s, i)) in s.owner && s.owner[Next(txns, PlaceOf(s, i))] == j
  }

  function Places(s: System, path: seq<nat>): seq<Place>
    requires forall a :: 0 <= a < |path| ==> path[a] < |s.sessions| && s.sessions[path[a]].phase.Locking?
  {
    seq(|path|, a requires 0 <= a < |path| => PlaceOf(s, path[a]))
  }

  ghost predicate Closed(keys: set<SlotKey>, txns: seq<Transaction>, s: System, path: seq<nat>) {
    && path != []
    && (forall a :: 0 <= a < |path| ==> AsksOf(keys, txns, s, path[a], path[After(|path|, a)]))
    && Distinct(path)
  }

  /** Nobody asks for a row it has locked itself. */
  lemma AsksOfAnother(keys: set<SlotKey>, txns: seq<Transaction>, s: System, i: nat, j: nat)
    requires LocksOk(s) && AsksOf(keys, txns, s, i, j)
    ensures i != j
  {
  }

  lemma ClosedAsks(keys: set<SlotKey>, txns: seq<Transaction>, s: System, path: seq<nat>)
    requires Closed(keys, txns, s, path)
    ensures forall a :: 0 <= a < |path| ==> path[a] < |s.sessions| && s.sessions[path[a]].phase.Locking?
    ensures forall a :: 0 <= a < |path| ==> Asks(keys, txns, Places(s, path)[a])
  {
    forall a | 0 <= a < |path| ensures Stands(keys, txns, s, path[a]) && Asks(keys, txns, PlaceOf(s, path[a])) {
      assert AsksOf(keys, txns, s, path[a], path[After(|path|, a)]);
    }
  }

  lemma ClosedHolds(keys: set<SlotKey>, txns: seq<Transaction>, s: System, path: seq<nat>, a: nat)
    requires LocksOk(s) && Closed(keys, txns, s, path) && a < |path|
    ensures Stands(keys, txns, s, path[a]) && Stands(keys, txns, s, path[After(|path|, a)])
    ensures Holds(txns, PlaceOf(s, path[After(|path|, a)]), Next(txns, PlaceOf(s, path[a])))
  {
    var b := After(|path|, a);
    assert AsksOf(keys, txns, s, path[a], path[b]) && AsksOf(keys, txns, s, path[b], path[After(|path|, b)]);
    assert Next(txns, PlaceOf(s, path[a])) in s.sessions[path[b]].mine;
  }

  lemma ClosedIsRing(keys: set<SlotKey>, txns: seq<Transaction>, s: System, path: seq<nat>)
    requires LocksOk(s) && Closed(keys, txns, s, path)
    ensures HasRing(keys, txns)
  {
    ClosedAsks(keys, txns, s, path);
    var ring := Places(s, path);
    AsksOfAnother(keys, txns, s, path[0], path[After(|path|, 0)]);
    forall a, b | 0 <= a < b < |path| ensures ring[a].who != ring[b].who && Apart(keys, txns, ring[a], ring[b]) {
      ClosedHolds(keys, txns, s, path, a);
      ClosedHolds(keys, txns, s, path, b);
      StandApart(keys, txns, s, path[a], path[b]);
    }
    forall a | 0 <= a < |path| ensures Holds(txns, ring[After(|path|, a)], Next(txns, ring[a])) {
      ClosedHolds(keys, txns, s, path, a);
    }
    assert Ring(keys, txns, ring);
  }

  /** Who has the row each session asks for. */
  function Blockers(s: System, txns: seq<Transaction>): seq<nat>
    requires |s.sessions| == |txns|
  {
    seq(|txns|, i requires 0 <= i < |txns| =>
      if Wanted(s, txns, i).Some? && Wanted(s, txns, i).value in s.owner then s.owner[Wanted(s, txns, i).value] else i)
  }

  function Unfinished(s: System): set<nat> {
    set i: nat | i < |s.sessions| && !s.sessions[i].phase.Finished?
  }

  lemma BlockedAsksOf(keys: set<SlotKey>, txns: seq<Transaction>, s: System, i: nat)
    requires Orderly(keys, txns, s) && i < |txns| && Blocked(s, txns, i)
    ensures AsksOf(keys, txns, s, i, Blockers(s, txns)[i]) && Blockers(s, txns)[i] in Unfinished(s)
  {
    BlockedAsks(keys, txns, s, i);
    LockingStands(keys, txns, s, i);
  }

  /** Every one of these asks for a row the next has. */
  ghost predicate AllAsk(keys: set<SlotKey>, txns: seq<Transaction>, s: System, next: seq<nat>, live: set<nat>) {
    forall j {:trigger AsksOf(keys, txns, s, j, next[j])} :: j in live && j < |next| ==> AsksOf(keys, txns, s, j, next[j])
  }

  lemma BlockersAsk(keys: set<SlotKey>, txns: seq<Transaction>, s: System)
    requires Orderly(keys, txns, s) && AllBlocked(s, txns)
    ensures AllAsk(keys, txns, s, Blockers(s, txns), Unfinished(s)) && Onward(Blockers(s, txns), Unfinished(s))
  {
    forall j | j in Unfinished(s)
      ensures AsksOf(keys, txns, s, j, Blockers(s, txns)[j]) && Blockers(s, txns)[j] in Unfinished(s)
    {
      BlockedAsksOf(keys, txns, s, j);
    }
  }

  /** Following who has the row asked for, somebody comes round again. */
  lemma BlockedMeansRing(keys: set<SlotKey>, txns: seq<Transaction>, s: System, i: nat)
    requires Orderly(keys, txns, s) && AllBlocked(s, txns) && i in Unfinished(s)
    ensures HasRing(keys, txns)
  {
    BlockersAsk(keys, txns, s);
    OnwardMeansRing(keys, txns, s, Blockers(s, txns), Unfinished(s), i);
  }

  lemma OnwardMeansRing(keys: set<SlotKey>, txns: seq<Transaction>, s: System, next: seq<nat>, live: set<nat>, i: nat)
    requires LocksOk(s) && Onward(next, live) && i in live && AllAsk(keys, txns, s, next, live)
    ensures HasRing(keys, txns)
  {
    var cycle := ComesRound(next, live, [i]);
    CycleIsClosed(keys, txns, s, next, live, cycle);
    ClosedIsRing(keys, txns, s, cycle);
  }

  lemma CycleIsClosed(keys: set<SlotKey>, txns: seq<Transaction>, s: System, next: seq<nat>, live: set<nat>, cycle: seq<nat>)
    requires Cycle(next, live, cycle) && AllAsk(keys, txns, s, next, live)
    ensures Closed(keys, txns, s, cycle)
  {
    forall a | 0 <= a < |cycle| ensures AsksOf(keys, txns, s, cycle[a], cycle[After(|cycle|, a)]) {
      assert AsksOf(keys, txns, s, cycle[a], next[cycle[a]]);
    }
  }

  /** Without a ring, while a transaction is unfinished, some unfinished transaction can take a step. */
  lemma NeverStuck(keys: set<SlotKey>, txns: seq<Transaction>, s: System)
    requires Orderly(keys, txns, s) && !HasRing(keys, txns)
    requires exists i :: 0 <= i < |txns| && !s.sessions[i].phase.Finished?
    ensures exists j :: 0 <= j < |txns| && Enabled(s, txns, j)
  {
    var i :| 0 <= i < |txns| && !s.sessions[i].phase.Finished?;
    if AllBlocked(s, txns) {
      BlockedMeansRing(keys, txns, s, i);
    }
  }

  // ---------------------------------------------------------------- running on to the end

  function Length(w: Window): nat {
    if w.start < w.end then w.end - w.start else 0
  }

  function Cost(call: Call): nat {
    2 + 2 * Length(call.window)
  }

  function CostFrom(t: Transaction, n: nat): nat
    decreases |t| - n
  {
    if n >= |t| then 0 else Cost(t[n]) + CostFrom(t, n + 1)
  }

  /** Steps a session can still take. */
  function Remaining(me: Session, t: Transaction): nat {
    if me.phase.Finished? then 0
    else if me.calls >= |t| then 1
    else
      var call, n := t[me.calls], me.phase.next;
      var left := if n < call.window.end then call.window.end - n else 0;
      1 + CostFrom(t, me.calls + 1) + left + if me.phase.Locking? then 2 + Length(call.window) else 1
  }

  function Work(sessions: seq<Session>, txns: seq<Transaction>): nat
    requires |sessions| == |txns|
  {
    if sessions == [] then 0
    else Remaining(sessions[0], txns[0]) + Work(sessions[1..], txns[1..])
  }

  lemma {:induction false} WorkUpdate(sessions: seq<Session>, txns: seq<Transaction>, i: nat, me: Session)
    requires i < |sessions| == |txns|
    ensures Work(sessions[i := me], txns) == Work(sessions, txns) - Remaining(sessions[i], txns[i]) + Remaining(me, txns[i])
  {
    if i > 0 {
      assert sessions[i := me][1..] == sessions[1..][i - 1 := me];
      WorkUpdate(sessions[1..], txns[1..], i - 1, me);
    }
  }

  /** An enabled step brings its session nearer to its end and leaves the others where they are. */
  lemma StepShortens(s: System, txns: seq<Transaction>, i: nat)
    requires |s.sessions| == |txns| && i < |txns| && Enabled(s, txns, i)
    ensures var me := Step(s, txns, i).sessions[i];
      Step(s, txns, i).sessions == s.sessions[i := me] && Remaining(me, txns[i]) < Remaining(s.sessions[i], txns[i])
  {
  }

  lemma StepWorks(s: System, txns: seq<Transaction>, i: nat)
    requires |s.sessions| == |txns| && i < |txns| && Enabled(s, txns, i)
    ensures Work(Step(s, txns, i).sessions, txns) < Work(s.sessions, txns)
  {
    StepShortens(s, txns, i);
    WorkUpdate(s.sessions, txns, i, Step(s, txns, i).sessions[i]);
  }

  ghost predicate AllFinished(s: System) {
    forall i :: 0 <= i < |s.sessions| ==> s.sessions[i].phase.Finished?
  }

  lemma SomeoneSteps(rows: SlotTable, txns: seq<Transaction>, s: System) returns (j: nat)
    requires Consistent(rows, txns, s) && !HasRing(rows.Keys, txns) && !AllFinished(s)
    ensures j < |txns| && Consistent(rows, txns, Step(s, txns, j)) && Work(Step(s, txns, j).sessions, txns) < Work(s.sessions, txns)
  {
    NeverStuck(rows.Keys, txns, s);
    j :| j < |txns| && Enabled(s, txns, j);
    StepWorks(s, txns, j);
    StepKeeps(rows, txns, s, j);
  }

  /** Without a ring every reachable state can be run on until all transactions have finished; enabled
      steps only ever bring that closer, so no schedule of enabled steps goes on for ever. */
  lemma {:induction false} EverythingFinishes(rows: SlotTable, txns: seq<Transaction>, s: System)
    returns (schedule: seq<nat>)
    requires Consistent(rows, txns, s) && !HasRing(rows.Keys, txns)
    ensures AllFinished(Interleave(s, txns, schedule))
    decreases Work(s.sessions, txns)
  {
    if AllFinished(s) { return []; }
    var j := SomeoneSteps(rows, txns, s);
    var rest := EverythingFinishes(rows, txns, Step(s, txns, j));
    FirstThenRest(s, txns, j, rest);
    return [j] + rest;
  }

  lemma {:induction false} FirstThenRest(s: System, txns: seq<Transaction>, i: nat, rest: seq<nat>)
    requires i < |s.sessions| == |txns|
    ensures Interleave(s, txns, [i] + rest) == Interleave(Step(s, txns, i), txns, rest)
    decreases |rest|
  {
    if rest == [] {
      assert [i] + rest == [i] && [i][..0] == [];
    } else {
      var front, last, all := rest[..|rest| - 1], rest[|rest| - 1], [i] + rest;
      assert all[..|all| - 1] == [i] + front && all[|all| - 1] == last;
      FirstThenRest(s, txns, i, front);
    }
  }

  lemma {:induction false} InterleaveSplit(s: System, txns: seq<Transaction>, a: seq<nat>, b: seq<nat>)
    requires |s.sessions| == |txns|
    ensures Interleave(s, txns, a + b) == Interleave(Interleave(s, txns, a), txns, b)
    decreases |b|
  {
    if b == [] {
      assert a + b == a;
    } else {
      assert (a + b)[..|a + b| - 1] == a + b[..|b| - 1];
      InterleaveSplit(s, txns, a, b[..|b| - 1]);
    }
  }

  // ---------------------------------------------------------------- blocked for good

  ghost predicate WaitsAmong(s: System, txns: seq<Transaction>, members: set<nat>, i: nat)
    requires |s.sessions| == |txns|
  {
    && i < |txns| && !s.sessions[i].phase.Finished? && Wanted(s, txns, i).Some?
    && Wanted(s, txns, i).value in s.owner && s.owner[Wanted(s, txns, i).value] in members
  }

  /** Unfinished sessions that wait for rows held among themselves. */
  ghost predicate Deadlocked(s: System, txns: seq<Transaction>, members: set<nat>)
    requires |s.sessions| == |txns|
  {
    members != {} && forall i {:trigger WaitsAmong(s, txns, members, i)} :: i in members ==> WaitsAmong(s, txns, members, i)
  }

  lemma MemberStays(s: System, txns: seq<Transaction>, members: set<nat>, i: nat, j: nat)
    requires |s.sessions| == |txns| && WaitsAmong(s, txns, members, i) && i in members
    requires j < |txns| && j !in members && Enabled(s, txns, j)
    ensures WaitsAmong(Step(s, txns, j), txns, members, i)
  {
    StepShortens(s, txns, j);
    OthersLocksStay(s, txns, j, Wanted(s, txns, i).value);
  }

  lemma DeadlockStays(s: System, txns: seq<Transaction>, members: set<nat>, j: nat)
    requires |s.sessions| == |txns| && Deadlocked(s, txns, members) && j < |txns|
    ensures Deadlocked(Step(s, txns, j), txns, members)
  {
    if j in members {
      assert WaitsAmong(s, txns, members, j);
    } else if Enabled(s, txns, j) {
      forall i | i in members ensures WaitsAmong(Step(s, txns, j), txns, members, i) {
        assert WaitsAmong(s, txns, members, i);
        MemberStays(s, txns, members, i, j);
      }
    }
  }

  /** A step neither takes over nor releases a row of another session, and loses no row of the table. */
  lemma OthersLocksStay(s: System, txns: seq<Transaction>, j: nat, k: SlotKey)
    requires |s.sessions| == |txns| && j < |txns| && Enabled(s, txns, j)
    requires k in s.rows && k in s.owner && s.owner[k] != j
    ensures var t := Step(s, txns, j); k in t.rows && k in t.owner && t.owner[k] == s.owner[k]
  {
  }

  /** A deadlock lasts: its members never finish, whatever is scheduled. */
  lemma {:induction false} DeadlockLasts(s: System, txns: seq<Transaction>, members: set<nat>, schedule: seq<nat>)
    requires |s.sessions| == |txns| && Deadlocked(s, txns, members)
    ensures Deadlocked(Interleave(s, txns, schedule), txns, members)
    ensures !AllFinished(Interleave(s, txns, schedule))
    decreases |schedule|
  {
    if schedule != [] {
      var front, j := schedule[..|schedule| - 1], schedule[|schedule| - 1];
      DeadlockLasts(s, txns, members, front);
      if j < |txns| { DeadlockStays(Interleave(s, txns, front), txns, members, j); }
    }
    var i :| i in members;
    assert WaitsAmong(Interleave(s, txns, schedule), txns, members, i);
  }
}
