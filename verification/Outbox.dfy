/**
 The outbox relay: pending rows are promoted to domain events one transaction at a time; a failed
 promotion counts an attempt and at the ceiling dead-letters the row.  Several relays may run, each
 with the rows as it read them.
 */
module Outbox {
  import opened Outcomes
  import opened KeyOrder

  datatype Status = Pending | Published | DeadLettered

  datatype Row = Row(tenant: int, status: Status, attempts: nat)

  /** Outbox rows by id with their creation times, and the rows that have a domain event. */
  datatype Box = Box(times: seq<int>, rows: seq<Row>, events: seq<nat>)
  {
    predicate Valid() {
      |times| == |rows|
    }
  }

  /** A row as a relay read it. */
  datatype Seen = Seen(id: nat, attempts: nat)

  /** The first failure is always counted before the ceiling is looked at. */
  function Ceiling(maxAttempts: int): nat {
    if maxAttempts < 1 then 1 else maxAttempts
  }

  /** Get or create the event, and mark the row published if it is still pending. */
  function Promote(box: Box, id: nat): Box
    requires id < |box.rows|
  {
    var row := box.rows[id];
    Box(box.times,
        if row.status.Pending? then box.rows[id := row.(status := Published)] else box.rows,
        if id in box.events then box.events else box.events + [id])
  }

  /** Count the attempt; at the ceiling, by the attempts as read, dead-letter a row still pending. */
  function DeadLetter(box: Box, seen: Seen, maxAttempts: int): Box
    requires seen.id < |box.rows|
  {
    var row := box.rows[seen.id];
    var status := if seen.attempts + 1 >= maxAttempts && row.status.Pending? then DeadLettered else row.status;
    box.(rows := box.rows[seen.id := row.(attempts := row.attempts + 1, status := status)])
  }

  /** The pending rows below n, oldest first. */
  function PendingIds(box: Box, n: nat): (r: seq<nat>)
    requires box.Valid() && n <= |box.rows|
    ensures Within(box.times, r) && |r| <= n
    ensures forall i: nat :: i in r <==> i < n && box.rows[i].status.Pending?
  {
    if n == 0 then []
    else
      var before := PendingIds(box, n - 1);
      if box.rows[n - 1].status.Pending? then Insert(box.times, before, n - 1) else before
  }

  function ReadBatch(box: Box, size: nat): seq<Seen>
    requires box.Valid()
  {
    var all := PendingIds(box, |box.rows|);
    var ids := if size < |all| then all[..size] else all;
    seq(|ids|, i requires 0 <= i < |ids| => Seen(ids[i], box.rows[ids[i]].attempts))
  }

  // ---------------------------------------------------------------- interleaved relays

  /** The rows a relay has still to do; whether promoting the first has just failed. */
  datatype Relay = Relay(batch: seq<Seen>, failing: bool)

  datatype System = System(box: Box, relays: seq<Relay>)

  datatype Action =
    | Record(at: int, tenant: int)
    | Read(who: nat, size: nat)
    | TryPromote(who: nat, ok: bool)
    | GiveUp(who: nat)
    | Crash(who: nat)

  function SetRelay(s: System, w: nat, box: Box, relay: Relay): System
    requires w < |s.relays|
  {
    System(box, s.relays[w := relay])
  }

  function Step(s: System, maxAttempts: int, a: Action): System {
    match a
    case Record(at, tenant) =>
      s.(box := Box(s.box.times + [at], s.box.rows + [Row(tenant, Pending, 0)], s.box.events))
    case Read(w, size) =>
      if w < |s.relays| && s.box.Valid() then SetRelay(s, w, s.box, Relay(ReadBatch(s.box, size), false)) else s
    case TryPromote(w, ok) =>
      if w >= |s.relays| || s.relays[w].batch == [] || s.relays[w].failing then s
      else
        var first, rest := s.relays[w].batch[0], s.relays[w].batch[1..];
        if !ok then SetRelay(s, w, s.box, s.relays[w].(failing := true))
        else if first.id >= |s.box.rows| then s
        else SetRelay(s, w, Promote(s.box, first.id), Relay(rest, false))
    case GiveUp(w) =>
      if w >= |s.relays| || s.relays[w].batch == [] || !s.relays[w].failing then s
      else
        var first, rest := s.relays[w].batch[0], s.relays[w].batch[1..];
        if first.id >= |s.box.rows| then s
        else SetRelay(s, w, DeadLetter(s.box, first, maxAttempts), Relay(rest, false))
    case Crash(w) => if w < |s.relays| then SetRelay(s, w, s.box, Relay([], false)) else s
  }

  function Execute(s: System, maxAttempts: int, run: seq<Action>): System {
    if run == [] then s
    else Step(Execute(s, maxAttempts, run[..|run| - 1]), maxAttempts, run[|run| - 1])
  }

  function Start(relays: nat): System {
    System(Box([], [], []), seq(relays, i => Relay([], false)))
  }

  // ---------------------------------------------------------------- any number of relays

  /** One event per row at most, and one for every published row. */
  ghost predicate BoxOk(box: Box) {
    && box.Valid()
    && (forall a, b :: 0 <= a < b < |box.events| ==> box.events[a] != box.events[b])
    && (forall a :: 0 <= a < |box.events| ==> box.events[a] < |box.rows|)
    && (forall i: nat :: i < |box.rows| && box.rows[i].status.Published? ==> i in box.events)
  }

  lemma StepKeepsBox(s: System, maxAttempts: int, a: Action)
    requires BoxOk(s.box)
    ensures BoxOk(Step(s, maxAttempts, a).box)
    ensures |Step(s, maxAttempts, a).relays| == |s.relays|
  {
  }

  /** A row is recorded pending and never tried, for its tenant and at its time, and has no event yet. */
  lemma RecordExact(s: System, maxAttempts: int, at: int, tenant: int)
    requires BoxOk(s.box)
    ensures var t := Step(s, maxAttempts, Record(at, tenant));
      && t.box.rows == s.box.rows + [Row(tenant, Pending, 0)] && t.box.times == s.box.times + [at]
      && t.box.events == s.box.events && |s.box.rows| !in t.box.events && t.relays == s.relays
  {
  }

  /** A relay that dies forgets its batch and leaves the tables as they are. */
  lemma CrashExact(s: System, maxAttempts: int, w: nat)
    requires w < |s.relays|
    ensures Step(s, maxAttempts, Crash(w)) == s.(relays := s.relays[w := Relay([], false)])
  {
  }

  /** Each outbox row yields at most one domain event, and a published row has one, however many relays. */
  lemma {:induction false} OneEventPerRow(relays: nat, maxAttempts: int, run: seq<Action>)
    ensures BoxOk(Execute(Start(relays), maxAttempts, run).box)
    ensures |Execute(Start(relays), maxAttempts, run).relays| == relays
    decreases |run|
  {
    if run != [] {
      OneEventPerRow(relays, maxAttempts, run[..|run| - 1]);
      StepKeepsBox(Execute(Start(relays), maxAttempts, run[..|run| - 1]), maxAttempts, run[|run| - 1]);
    }
  }

  /** Published or dead-lettered stays so. */
  lemma {:induction false} SettledStays(s: System, maxAttempts: int, run: seq<Action>, i: nat)
    requires BoxOk(s.box) && i < |s.box.rows| && !s.box.rows[i].status.Pending?
    ensures var t := Execute(s, maxAttempts, run);
      BoxOk(t.box) && i < |t.box.rows| && t.box.rows[i].status == s.box.rows[i].status
    decreases |run|
  {
    if run != [] {
      SettledStays(s, maxAttempts, run[..|run| - 1], i);
      StepKeepsBox(Execute(s, maxAttempts, run[..|run| - 1]), maxAttempts, run[|run| - 1]);
    }
  }

  // ---------------------------------------------------------------- a single relay

  /** Rows a relay holds are different, and as it read them. */
  ghost predicate Current(box: Box, batch: seq<Seen>) {
    && (forall a :: 0 <= a < |batch| ==>
          batch[a].id < |box.rows| && box.rows[batch[a].id].status.Pending? &&
          box.rows[batch[a].id].attempts == batch[a].attempts)
    && (forall a, b :: 0 <= a < b < |batch| ==> batch[a].id != batch[b].id)
  }

  /** Exactly the published rows have events. */
  ghost predicate EventsMatch(box: Box) {
    forall i: nat :: i < |box.rows| ==> (i in box.events <==> box.rows[i].status.Published?)
  }

  /** A pending row has attempts left. */
  ghost predicate AttemptsLeft(box: Box, maxAttempts: int) {
    forall i :: 0 <= i < |box.rows| && box.rows[i].status.Pending? ==> box.rows[i].attempts < Ceiling(maxAttempts)
  }

  ghost predicate RowsOk(box: Box, maxAttempts: int) {
    EventsMatch(box) && AttemptsLeft(box, maxAttempts)
  }

  ghost predicate Alone(s: System, maxAttempts: int) {
    && |s.relays| <= 1 && BoxOk(s.box) && RowsOk(s.box, maxAttempts)
    && (|s.relays| == 1 ==> Current(s.box, s.relays[0].batch))
  }

  lemma {:induction false} PendingIdsSorted(box: Box, n: nat)
    requires box.Valid() && n <= |box.rows|
    ensures Sorted(box.times, PendingIds(box, n))
  {
    if n > 0 {
      PendingIdsSorted(box, n - 1);
      if box.rows[n - 1].status.Pending? { InsertSorts(box.times, PendingIds(box, n - 1), n - 1); }
    }
  }

  lemma ReadIsCurrent(box: Box, size: nat)
    requires box.Valid()
    ensures Current(box, ReadBatch(box, size))
    ensures size > 0 && (exists i :: 0 <= i < |box.rows| && box.rows[i].status.Pending?) ==> ReadBatch(box, size) != []
  {
    PendingIdsSorted(box, |box.rows|);
    var all := PendingIds(box, |box.rows|);
    forall a, b | 0 <= a < b < |all| ensures all[a] != all[b] {
      assert KeyOf(box.times, all[a]).Less(KeyOf(box.times, all[b]));
    }
    forall a | 0 <= a < |all| ensures box.rows[all[a]].status.Pending? { assert all[a] in all; }
  }

  /** One row was created before another, or at the same time and recorded before it. */
  predicate Older(box: Box, i: nat, j: nat)
    requires box.Valid() && i < |box.rows| && j < |box.rows|
  {
    box.times[i] < box.times[j] || (box.times[i] == box.times[j] && i < j)
  }

  /** A batch is the oldest pending rows in order, as many as there are up to its size, with the attempts they have. */
  lemma OldestFirst(box: Box, size: nat)
    requires box.Valid()
    ensures var batch := ReadBatch(box, size);
      && |batch| <= size && Current(box, batch)
      && (forall a, b :: 0 <= a < b < |batch| ==> Older(box, batch[a].id, batch[b].id))
      && forall i: nat :: i < |box.rows| && box.rows[i].status == Pending ==>
           (exists a :: 0 <= a < |batch| && batch[a].id == i) ||
           (|batch| == size && forall a :: 0 <= a < |batch| ==> Older(box, batch[a].id, i))
  {
    PendingIdsSorted(box, |box.rows|);
    ReadIsCurrent(box, size);
    var all, batch := PendingIds(box, |box.rows|), ReadBatch(box, size);
    forall i: nat | i < |box.rows| && box.rows[i].status == Pending
      ensures (exists a :: 0 <= a < |batch| && batch[a].id == i) ||
              (|batch| == size && forall a :: 0 <= a < |batch| ==> Older(box, batch[a].id, i))
    {
      assert i in all;
      var n :| 0 <= n < |all| && all[n] == i;
      if n < |batch| {
        assert batch[n].id == i;
      } else {
        forall a | 0 <= a < |batch| ensures Older(box, batch[a].id, i) {
          assert KeyOf(box.times, all[a]).Less(KeyOf(box.times, all[n]));
        }
      }
    }
  }

  lemma PromoteKeeps(box: Box, batch: seq<Seen>, maxAttempts: int)
    requires BoxOk(box) && RowsOk(box, maxAttempts) && Current(box, batch) && batch != []
    ensures var next := Promote(box, batch[0].id); RowsOk(next, maxAttempts) && Current(next, batch[1..])
  {
    var next := Promote(box, batch[0].id);
    forall i: nat | i < |next.rows| ensures i in next.events <==> next.rows[i].status.Published? {
      assert i in next.events <==> i in box.events || i == batch[0].id;
    }
  }

  lemma DeadLetterKeeps(box: Box, batch: seq<Seen>, maxAttempts: int)
    requires BoxOk(box) && RowsOk(box, maxAttempts) && Current(box, batch) && batch != []
    ensures var next := DeadLetter(box, batch[0], maxAttempts); RowsOk(next, maxAttempts) && Current(next, batch[1..])
  {
  }

  lemma RecordKeeps(box: Box, batch: seq<Seen>, maxAttempts: int, at: int, tenant: int)
    requires BoxOk(box) && RowsOk(box, maxAttempts) && Current(box, batch)
    ensures var next := Box(box.times + [at], box.rows + [Row(tenant, Pending, 0)], box.events);
      RowsOk(next, maxAttempts) && Current(next, batch)
  {
    assert |box.rows| !in box.events;
  }

  /** The only relay, and what it holds. */
  function Held(s: System): seq<Seen> {
    if |s.relays| == 1 then s.relays[0].batch else []
  }

  lemma PromotingKeepsAlone(s: System, maxAttempts: int, w: nat, ok: bool)
    requires Alone(s, maxAttempts)
    ensures Alone(Step(s, maxAttempts, TryPromote(w, ok)), maxAttempts)
  {
    StepKeepsBox(s, maxAttempts, TryPromote(w, ok));
    if Held(s) != [] { PromoteKeeps(s.box, Held(s), maxAttempts); }
  }

  lemma GivingUpKeepsAlone(s: System, maxAttempts: int, w: nat)
    requires Alone(s, maxAttempts)
    ensures Alone(Step(s, maxAttempts, GiveUp(w)), maxAttempts)
  {
    StepKeepsBox(s, maxAttempts, GiveUp(w));
    if Held(s) != [] { DeadLetterKeeps(s.box, Held(s), maxAttempts); }
  }

  lemma RecordingKeepsAlone(s: System, maxAttempts: int, at: int, tenant: int)
    requires Alone(s, maxAttempts)
    ensures Alone(Step(s, maxAttempts, Record(at, tenant)), maxAttempts)
  {
    StepKeepsBox(s, maxAttempts, Record(at, tenant));
    RecordKeeps(s.box, Held(s), maxAttempts, at, tenant);
  }

  lemma ReadingKeepsAlone(s: System, maxAttempts: int, w: nat, size: nat)
    requires Alone(s, maxAttempts)
    ensures Alone(Step(s, maxAttempts, Read(w, size)), maxAttempts)
  {
    ReadIsCurrent(s.box, size);
  }

  lemma StepKeepsAlone(s: System, maxAttempts: int, a: Action)
    requires Alone(s, maxAttempts)
    ensures Alone(Step(s, maxAttempts, a), maxAttempts)
  {
    match a
    case Record(at, tenant) => RecordingKeepsAlone(s, maxAttempts, at, tenant);
    case Read(w, size) => ReadingKeepsAlone(s, maxAttempts, w, size);
    case TryPromote(w, ok) => PromotingKeepsAlone(s, maxAttempts, w, ok);
    case GiveUp(w) => GivingUpKeepsAlone(s, maxAttempts, w);
    case Crash(_) =>
  }

  lemma {:induction false} AloneOverRuns(relays: nat, maxAttempts: int, run: seq<Action>)
    requires relays <= 1
    ensures Alone(Execute(Start(relays), maxAttempts, run), maxAttempts)
    decreases |run|
  {
    if run != [] {
      AloneOverRuns(relays, maxAttempts, run[..|run| - 1]);
      StepKeepsAlone(Execute(Start(relays), maxAttempts, run[..|run| - 1]), maxAttempts, run[|run| - 1]);
    }
  }

  // ---------------------------------------------------------------- two relays: a row read before it failed

  lemma {:induction false} ExecuteSplit(s: System, maxAttempts: int, a: seq<Action>, b: seq<Action>)
    ensures Execute(s, maxAttempts, a + b) == Execute(Execute(s, maxAttempts, a), maxAttempts, b)
    decreases |b|
  {
    if b == [] {
      assert a + b == a;
    } else {
      assert (a + b)[..|a + b| - 1] == a + b[..|b| - 1];
      ExecuteSplit(s, maxAttempts, a, b[..|b| - 1]);
    }
  }

  /** The second relay reads the row; the first one then reads and fails it k times. */
  function StaleRun(k: nat): seq<Action> {
    if k == 0 then [Record(0, 0), Read(1, 1)]
    else StaleRun(k - 1) + FAILURE
  }

  ghost predicate Stale(s: System, row: Row) {
    && |s.relays| >= 2 && s.relays[1] == Relay([Seen(0, 0)], false)
    && s.box == Box([0], [row], [])
  }

  lemma OneRowBatch(row: Row)
    requires row.status.Pending?
    ensures ReadBatch(Box([0], [row], []), 1) == [Seen(0, row.attempts)]
  {
    var box := Box([0], [row], []);
    assert PendingIds(box, 0) == [];
    assert PendingIds(box, 1) == [0];
  }

  const FAILURE: seq<Action> := [Read(0, 1), TryPromote(0, false), GiveUp(0)]

  /** The first relay reads and fails the row; the second still has it as it was. */
  lemma OneFailure(s: System, maxAttempts: int, k: nat)
    requires Stale(s, Row(0, Pending, k)) && k < Ceiling(maxAttempts)
    ensures Stale(Execute(s, maxAttempts, FAILURE),
                  Row(0, if k + 1 < Ceiling(maxAttempts) then Pending else DeadLettered, k + 1))
  {
    var r := FAILURE;
    OneRowBatch(Row(0, Pending, k));
    var s1 := Step(s, maxAttempts, r[0]);
    var s2 := Step(s1, maxAttempts, r[1]);
    assert r[..3] == r && r[..0] == [];
    assert r[..1][..0] == r[..0] && r[..2][..1] == r[..1] && r[..3][..2] == r[..2];
    assert Execute(s, maxAttempts, r[..0]) == s;
    assert Execute(s, maxAttempts, r[..1]) == s1;
    assert Execute(s, maxAttempts, r[..2]) == s2;
    assert s2.relays[0] == Relay([Seen(0, k)], true);
  }

  lemma StaleAtStart(relays: nat, maxAttempts: int)
    requires relays >= 2
    ensures Stale(Execute(Start(relays), maxAttempts, StaleRun(0)), Row(0, Pending, 0))
  {
    var r := StaleRun(0);
    OneRowBatch(Row(0, Pending, 0));
    assert r[..1] == [Record(0, 0)] && r[..1][..0] == [];
    assert Execute(Start(relays), maxAttempts, r[..1][..0]) == Start(relays);
    assert Execute(Start(relays), maxAttempts, r[..1]) == Step(Start(relays), maxAttempts, Record(0, 0));
  }

  /** One failure more. */
  lemma FailsOnceMore(relays: nat, maxAttempts: int, k: nat)
    requires k < Ceiling(maxAttempts) && Stale(Execute(Start(relays), maxAttempts, StaleRun(k)), Row(0, Pending, k))
    ensures Stale(Execute(Start(relays), maxAttempts, StaleRun(k + 1)),
                  Row(0, if k + 1 < Ceiling(maxAttempts) then Pending else DeadLettered, k + 1))
  {
    ExecuteSplit(Start(relays), maxAttempts, StaleRun(k), FAILURE);
    assert StaleRun(k + 1) == StaleRun(k) + FAILURE;
    OneFailure(Execute(Start(relays), maxAttempts, StaleRun(k)), maxAttempts, k);
  }

  lemma {:induction false} FailedWhileStale(relays: nat, maxAttempts: int, k: nat)
    requires relays >= 2 && k <= Ceiling(maxAttempts)
    ensures Stale(Execute(Start(relays), maxAttempts, StaleRun(k)),
                  Row(0, if k < Ceiling(maxAttempts) then Pending else DeadLettered, k))
  {
    if k == 0 {
      StaleAtStart(relays, maxAttempts);
    } else {
      FailedWhileStale(relays, maxAttempts, k - 1);
      FailsOnceMore(relays, maxAttempts, k - 1);
    }
  }

  ghost predicate EventsMatchAfter(relays: nat, maxAttempts: int, run: seq<Action>) {
    EventsMatch(Execute(Start(relays), maxAttempts, run).box)
  }

  ghost predicate AttemptsLeftAfter(relays: nat, maxAttempts: int, run: seq<Action>) {
    AttemptsLeft(Execute(Start(relays), maxAttempts, run).box, maxAttempts)
  }

  /** Exactly the published rows have events, over every run, exactly when no two relays run at once:
      otherwise a row may be dead-lettered and have its event all the same. */
  lemma EventsMatchExactly(relays: nat, maxAttempts: int)
    ensures (forall run :: EventsMatchAfter(relays, maxAttempts, run)) <==> relays <= 1
  {
    if relays <= 1 {
      forall run ensures EventsMatchAfter(relays, maxAttempts, run) {
        AloneOverRuns(relays, maxAttempts, run);
      }
    } else {
      var k := Ceiling(maxAttempts);
      var run := StaleRun(k) + [TryPromote(1, true)];
      FailedWhileStale(relays, maxAttempts, k);
      assert run[..|run| - 1] == StaleRun(k);
      var box := Execute(Start(relays), maxAttempts, run).box;
      assert box.events == [0] && box.events[0] in box.events && box.rows[0].status.DeadLettered?;
      assert !EventsMatchAfter(relays, maxAttempts, run);
    }
  }

  /** With a ceiling of one the first failure dead-letters, whoever saw what. */
  lemma {:induction false} CeilingOne(relays: nat, maxAttempts: int, run: seq<Action>)
    requires Ceiling(maxAttempts) == 1
    ensures AttemptsLeft(Execute(Start(relays), maxAttempts, run).box, maxAttempts)
    decreases |run|
  {
    if run != [] { CeilingOne(relays, maxAttempts, run[..|run| - 1]); }
  }

  /** A pending row always has attempts left exactly when no two relays run at once, or the first
      failure is final anyway. */
  lemma AttemptsLeftExactly(relays: nat, maxAttempts: int)
    ensures (forall run :: AttemptsLeftAfter(relays, maxAttempts, run)) <==>
            relays <= 1 || Ceiling(maxAttempts) == 1
  {
    if relays <= 1 {
      forall run ensures AttemptsLeftAfter(relays, maxAttempts, run) {
        AloneOverRuns(relays, maxAttempts, run);
      }
    } else if Ceiling(maxAttempts) == 1 {
      forall run ensures AttemptsLeftAfter(relays, maxAttempts, run) {
        CeilingOne(relays, maxAttempts, run);
      }
    } else {
      var k := Ceiling(maxAttempts) - 1;
      FailedWhileStale(relays, maxAttempts, k);
      var s, last := Execute(Start(relays), maxAttempts, StaleRun(k)), [TryPromote(1, false), GiveUp(1)];
      ExecuteSplit(Start(relays), maxAttempts, StaleRun(k), last);
      assert last[..1] == [TryPromote(1, false)] && last[..1][..0] == [];
      assert Execute(s, maxAttempts, last[..1]) == Step(s, maxAttempts, TryPromote(1, false));
      assert Execute(s, maxAttempts, last).box.rows[0] == Row(0, Pending, k + 1);
      assert !AttemptsLeftAfter(relays, maxAttempts, StaleRun(k) + last);
    }
  }

  // ---------------------------------------------------------------- one batch, uninterrupted

  /** The rest of a batch; `failing` are the rows whose promotion raises. */
  function PublishAll(box: Box, batch: seq<Seen>, failing: set<nat>, maxAttempts: int): (r: Box)
    requires forall a :: 0 <= a < |batch| ==> batch[a].id < |box.rows|
    ensures |r.rows| == |box.rows| && r.times == box.times
    decreases |batch|
  {
    if batch == [] then box
    else
      var next := if batch[0].id in failing then DeadLetter(box, batch[0], maxAttempts) else Promote(box, batch[0].id);
      PublishAll(next, batch[1..], failing, maxAttempts)
  }

  /** The steps of a batch, by one relay. */
  function BatchSteps(batch: seq<Seen>, failing: set<nat>): seq<Action> {
    if batch == [] then []
    else
      (if batch[0].id in failing then [TryPromote(0, false), GiveUp(0)] else [TryPromote(0, true)])
      + BatchSteps(batch[1..], failing)
  }

  lemma {:induction false} PublishAllIsARun(s: System, batch: seq<Seen>, failing: set<nat>, maxAttempts: int)
    requires s.relays == [Relay(batch, false)]
    requires forall a :: 0 <= a < |batch| ==> batch[a].id < |s.box.rows|
    ensures Execute(s, maxAttempts, BatchSteps(batch, failing)) ==
      System(PublishAll(s.box, batch, failing, maxAttempts), [Relay([], false)])
    decreases |batch|
  {
    if batch != [] {
      if batch[0].id in failing {
        var tried := Step(s, maxAttempts, TryPromote(0, false));
        var next := Step(tried, maxAttempts, GiveUp(0));
        var first := [TryPromote(0, false), GiveUp(0)];
        assert first[..1] == [TryPromote(0, false)] && first[..1][..0] == [];
        assert Execute(s, maxAttempts, first[..1]) == tried;
        assert Execute(s, maxAttempts, first) == next;
        ExecuteSplit(s, maxAttempts, first, BatchSteps(batch[1..], failing));
        PublishAllIsARun(next, batch[1..], failing, maxAttempts);
      } else {
        var next := Step(s, maxAttempts, TryPromote(0, true));
        var first := [TryPromote(0, true)];
        assert first[..0] == [];
        assert Execute(s, maxAttempts, first) == next;
        ExecuteSplit(s, maxAttempts, first, BatchSteps(batch[1..], failing));
        PublishAllIsARun(next, batch[1..], failing, maxAttempts);
      }
    }
  }

  // ---------------------------------------------------------------- termination

  function Left(row: Row, maxAttempts: int): nat {
    if row.status.Pending? && row.attempts < Ceiling(maxAttempts) then Ceiling(maxAttempts) - row.attempts else 0
  }

  /** The failures still possible. */
  function TotalLeft(rows: seq<Row>, maxAttempts: int): nat {
    if rows == [] then 0 else Left(rows[0], maxAttempts) + TotalLeft(rows[1..], maxAttempts)
  }

  lemma {:induction false} TotalLeftUpdate(rows: seq<Row>, i: nat, row: Row, maxAttempts: int)
    requires i < |rows|
    ensures TotalLeft(rows[i := row], maxAttempts) == TotalLeft(rows, maxAttempts) - Left(rows[i], maxAttempts) + Left(row, maxAttempts)
  {
    if i > 0 {
      assert rows[i := row][1..] == rows[1..][i - 1 := row];
      TotalLeftUpdate(rows[1..], i - 1, row, maxAttempts);
    }
  }

  /** What becomes of the first row of a batch. */
  function PublishFirst(box: Box, batch: seq<Seen>, failing: set<nat>, maxAttempts: int): Box
    requires batch != [] && batch[0].id < |box.rows|
  {
    if batch[0].id in failing then DeadLetter(box, batch[0], maxAttempts) else Promote(box, batch[0].id)
  }

  lemma FirstKeeps(box: Box, batch: seq<Seen>, failing: set<nat>, maxAttempts: int)
    requires BoxOk(box) && RowsOk(box, maxAttempts) && Current(box, batch) && batch != []
    ensures var next := PublishFirst(box, batch, failing, maxAttempts);
      BoxOk(next) && RowsOk(next, maxAttempts) && Current(next, batch[1..])
  {
    if batch[0].id in failing { DeadLetterKeeps(box, batch, maxAttempts); } else { PromoteKeeps(box, batch, maxAttempts); }
  }

  lemma FirstProgresses(box: Box, batch: seq<Seen>, failing: set<nat>, maxAttempts: int)
    requires AttemptsLeft(box, maxAttempts) && Current(box, batch) && batch != []
    ensures TotalLeft(PublishFirst(box, batch, failing, maxAttempts).rows, maxAttempts) + 1 <= TotalLeft(box.rows, maxAttempts)
  {
    var id, next := batch[0].id, PublishFirst(box, batch, failing, maxAttempts);
    assert next.rows == box.rows[id := next.rows[id]];
    TotalLeftUpdate(box.rows, id, next.rows[id], maxAttempts);
    assert Left(next.rows[id], maxAttempts) + 1 <= Left(box.rows[id], maxAttempts);
  }

  /** Every row of a batch is published or uses up an attempt. */
  lemma {:induction false} BatchProgresses(box: Box, batch: seq<Seen>, failing: set<nat>, maxAttempts: int)
    requires BoxOk(box) && RowsOk(box, maxAttempts) && Current(box, batch)
    ensures var r := PublishAll(box, batch, failing, maxAttempts);
      && BoxOk(r) && RowsOk(r, maxAttempts)
      && TotalLeft(r.rows, maxAttempts) + |batch| <= TotalLeft(box.rows, maxAttempts)
    decreases |batch|
  {
    if batch != [] {
      FirstKeeps(box, batch, failing, maxAttempts);
      FirstProgresses(box, batch, failing, maxAttempts);
      BatchProgresses(PublishFirst(box, batch, failing, maxAttempts), batch[1..], failing, maxAttempts);
    }
  }

  ghost predicate NonePending(box: Box) {
    forall i :: 0 <= i < |box.rows| ==> !box.rows[i].status.Pending?
  }

  /** Batch after batch, with whatever fails in each. */
  ghost function Batches(box: Box, size: nat, failing: seq<set<nat>>, maxAttempts: int): (r: Box)
    requires BoxOk(box) && RowsOk(box, maxAttempts)
    ensures BoxOk(r) && RowsOk(r, maxAttempts)
    decreases |failing|
  {
    if failing == [] then box
    else
      ReadIsCurrent(box, size);
      BatchProgresses(box, ReadBatch(box, size), failing[0], maxAttempts);
      Batches(PublishAll(box, ReadBatch(box, size), failing[0], maxAttempts), size, failing[1..], maxAttempts)
  }

  /** A single relay repeating `publish_batch` has nothing left to do after as many batches as there
      are failures left, whatever fails. */
  lemma {:induction false} BatchesDrain(box: Box, size: nat, failing: seq<set<nat>>, maxAttempts: int)
    requires BoxOk(box) && RowsOk(box, maxAttempts) && size >= 1
    requires |failing| >= TotalLeft(box.rows, maxAttempts)
    ensures NonePending(Batches(box, size, failing, maxAttempts))
    ensures |Batches(box, size, failing, maxAttempts).rows| == |box.rows|
    decreases |failing|
  {
    if failing == [] {
      forall i | 0 <= i < |box.rows| ensures !box.rows[i].status.Pending? { LeftWithin(box.rows, i, maxAttempts); }
    } else {
      ReadIsCurrent(box, size);
      var batch := ReadBatch(box, size);
      BatchProgresses(box, batch, failing[0], maxAttempts);
      var next := PublishAll(box, batch, failing[0], maxAttempts);
      if batch == [] {
        assert forall i :: 0 <= i < |box.rows| ==> !box.rows[i].status.Pending?;
        NothingLeft(box.rows, maxAttempts);
      }
      BatchesDrain(next, size, failing[1..], maxAttempts);
    }
  }

  lemma {:induction false} LeftWithin(rows: seq<Row>, i: nat, maxAttempts: int)
    requires i < |rows|
    ensures Left(rows[i], maxAttempts) <= TotalLeft(rows, maxAttempts)
  {
    if i > 0 { LeftWithin(rows[1..], i - 1, maxAttempts); }
  }

  lemma {:induction false} NothingLeft(rows: seq<Row>, maxAttempts: int)
    requires forall i :: 0 <= i < |rows| ==> !rows[i].status.Pending?
    ensures TotalLeft(rows, maxAttempts) == 0
  {
    if rows != [] { NothingLeft(rows[1..], maxAttempts); }
  }

}
