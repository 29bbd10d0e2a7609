/**
 A ring is all it takes: where there is one, a schedule leads into the deadlock.  So transactions can
 always be run to their end exactly when there is none.
 */
module Deadlocks {
  import opened Outcomes
  import opened Slots
  import opened WindowLocks
  import opened WindowProgress

  // ---------------------------------------------------------------- rows with room for everything

  function Size(c: Change): nat {
    var n := match c
      case Consume(_, quantity) => quantity
      case Release(_, quantity) => quantity
      case Convert(quantity) => quantity
      case OutOfService(delta) => delta;
    if n < 0 then -n else n
  }

  function Weight(calls: seq<Call>): nat {
    if calls == [] then 0 else Weight(calls[..|calls| - 1]) + Size(calls[|calls| - 1].change)
  }

  function Ample(m: nat): Slot {
    Slot(8 * m, m, m, 0, m)
  }

  /** Every counter is within w of where it began. */
  predicate Near(slot: Slot, m: nat, w: nat) {
    && slot.total == 8 * m && slot.blocked == 0
    && m - w <= slot.sold <= m + w && m - w <= slot.reserved <= m + w && m - w <= slot.outOfService <= m + w
  }

  lemma NearAllows(slot: Slot, m: nat, w: nat, c: Change)
    requires Near(slot, m, w) && w + Size(c) <= m
    ensures c.Allows(slot) && c.On(slot).Good() && Near(c.On(slot), m, w + Size(c))
  {
  }

  function Table(keys: set<SlotKey>, m: nat): SlotTable {
    map k | k in keys :: Ample(m)
  }

  /** With enough room, calls that find their nights open succeed. */
  lemma {:induction false} AmpleApplies(keys: set<SlotKey>, m: nat, calls: seq<Call>)
    requires Weight(calls) <= m && AllOpened(keys, calls)
    ensures var r := ApplyAll(Table(keys, m), calls);
      r.Ok? && r.value.Keys == keys && forall k :: k in keys ==> Near(r.value[k], m, Weight(calls))
    decreases |calls|
  {
    if calls != [] {
      var front, last := calls[..|calls| - 1], calls[|calls| - 1];
      assert forall q :: 0 <= q < |front| ==> front[q] == calls[q];
      AmpleApplies(keys, m, front);
      var before := ApplyAll(Table(keys, m), front).value;
      forall k | k in keys
        ensures last.change.Allows(before[k]) && last.change.On(before[k]).Good()
        ensures Near(last.change.On(before[k]), m, Weight(calls)) && Near(before[k], m, Weight(calls))
      {
        NearAllows(before[k], m, Weight(front), last.change);
      }
    }
  }

  lemma {:induction false} PrefixWeighsLess(t: Transaction, n: nat)
    requires n <= |t|
    ensures Weight(t[..n]) <= Weight(t)
    decreases |t| - n
  {
    if n == |t| {
      assert t[..n] == t;
    } else {
      assert t[..n + 1][..n] == t[..n];
      PrefixWeighsLess(t, n + 1);
    }
  }

  function TotalWeight(txns: seq<Transaction>): nat {
    if txns == [] then 0 else Weight(txns[0]) + TotalWeight(txns[1..])
  }

  lemma {:induction false} WeighsWithin(txns: seq<Transaction>, i: nat)
    requires i < |txns|
    ensures Weight(txns[i]) <= TotalWeight(txns)
  {
    if i > 0 { WeighsWithin(txns[1..], i - 1); }
  }

  // ---------------------------------------------------------------- walking one transaction to its place

  /** Not yet past a place. */
  predicate Before(me: Session, p: Place) {
    !me.phase.Finished? &&
    (me.calls < p.calls || (me.calls == p.calls && me.phase.Locking? && me.phase.next <= p.night))
  }

  predicate At(me: Session, p: Place) {
    me.calls == p.calls && me.phase == Locking(p.night)
  }

  /** Nobody else has a row needed on the way. */
  ghost predicate Clear(s: System, txns: seq<Transaction>, p: Place)
    requires Inside(txns, p)
  {
    forall k :: k in s.owner && s.owner[k] != p.who ==> !Holds(txns, p, k)
  }

  /** On the way nothing blocks. */
  lemma ClearEnables(keys: set<SlotKey>, txns: seq<Transaction>, s: System, p: Place)
    requires Orderly(keys, txns, s) && Inside(txns, p) && Clear(s, txns, p)
    requires Before(s.sessions[p.who], p) && !At(s.sessions[p.who], p)
    ensures Enabled(s, txns, p.who)
  {
    var me, t := s.sessions[p.who], txns[p.who];
    if Wanted(s, txns, p.who).Some? {
      var k := Wanted(s, txns, p.who).value;
      assert SessionOk(s.rows, t, me);
      assert t[me.calls].window.Covers(k);
      if me.calls < p.calls { assert t[..p.calls][me.calls].window.Covers(k); }
      assert Holds(txns, p, k);
    }
  }

  /** The calls before a place do not fail, so its session is not closed on the way. */
  lemma StaysOpen(rows: SlotTable, t: Transaction, me: Session, n: nat)
    requires AllGood(rows) && SessionOk(rows, t, me) && me.calls < n <= |t| && !me.phase.Finished?
    requires ApplyAll(rows, t[..n]).Ok?
    ensures me.phase.Locking? && me.phase.next >= t[me.calls].window.end ==> Passes(me.mine, t[me.calls])
    ensures me.phase.Writing? && me.phase.next < t[me.calls].window.end ==>
      var k := SlotKey(t[me.calls].window.cell, me.phase.next);
      k in me.mine ==> t[me.calls].change.On(me.mine[k]).Good()
  {
    var head := t[..n];
    assert head[..me.calls] == t[..me.calls] && head[me.calls] == t[me.calls];
    assert SessionOk(rows, head, me);
    if me.phase.Locking? && me.phase.next >= t[me.calls].window.end { DecidedSession(rows, head, me); }
    if me.phase.Writing? && me.phase.next < t[me.calls].window.end { WroteSession(rows, head, me); }
  }

  /** One step nearer. */
  lemma StepToward(keys: set<SlotKey>, txns: seq<Transaction>, s: System, p: Place)
    requires Orderly(keys, txns, s) && Inside(txns, p) && Enabled(s, txns, p.who)
    requires Before(s.sessions[p.who], p) && !At(s.sessions[p.who], p)
    requires ApplyAll(s.rows, txns[p.who][..p.calls]).Ok?
    ensures var u := Step(s, txns, p.who);
      && u.rows == s.rows && |u.sessions| == |txns| && Before(u.sessions[p.who], p)
      && forall k :: k in u.owner && u.owner[k] != p.who ==> k in s.owner && s.owner[k] == u.owner[k]
  {
    var me, t := s.sessions[p.who], txns[p.who];
    assert SessionOk(s.rows, t, me);
    if me.calls < p.calls { StaysOpen(s.rows, t, me, p.calls); }
  }

  lemma {:induction false} Walk(rows: SlotTable, txns: seq<Transaction>, s: System, p: Place) returns (schedule: seq<nat>)
    requires Consistent(rows, txns, s) && Inside(txns, p) && Clear(s, txns, p) && Before(s.sessions[p.who], p)
    requires ApplyAll(s.rows, txns[p.who][..p.calls]).Ok?
    ensures var u := Interleave(s, txns, schedule);
      && Consistent(rows, txns, u) && u.rows == s.rows && At(u.sessions[p.who], p)
      && forall j :: 0 <= j < |txns| && j != p.who ==> u.sessions[j] == s.sessions[j]
    decreases Remaining(s.sessions[p.who], txns[p.who])
  {
    if At(s.sessions[p.who], p) { return []; }
    ClearEnables(rows.Keys, txns, s, p);
    StepToward(rows.Keys, txns, s, p);
    StepShortens(s, txns, p.who);
    StepKeeps(rows, txns, s, p.who);
    var rest := Walk(rows, txns, Step(s, txns, p.who), p);
    FirstThenRest(s, txns, p.who, rest);
    return [p.who] + rest;
  }

  // ---------------------------------------------------------------- walking a ring into its deadlock

  /** The first n members of a ring are at their places, everyone else has not begun. */
  ghost predicate Gathered(txns: seq<Transaction>, s: System, ring: seq<Place>, n: nat)
    requires n <= |ring| && |s.sessions| == |txns|
  {
    && (forall a :: 0 <= a < n ==> ring[a].who < |txns| && At(s.sessions[ring[a].who], ring[a]))
    && (forall i :: 0 <= i < |txns| && (forall a :: 0 <= a < n ==> ring[a].who != i) ==> s.sessions[i] == Enter(txns[i], 0, map[]))
  }

  lemma AtStands(keys: set<SlotKey>, txns: seq<Transaction>, s: System, p: Place)
    requires Orderly(keys, txns, s) && Inside(txns, p) && At(s.sessions[p.who], p)
    ensures Stands(keys, txns, s, p.who) && PlaceOf(s, p.who) == p
  {
    LockingStands(keys, txns, s, p.who);
  }

  lemma GatheredIsClear(keys: set<SlotKey>, txns: seq<Transaction>, s: System, ring: seq<Place>, n: nat)
    requires Orderly(keys, txns, s) && n < |ring| && Gathered(txns, s, ring, n) && Ring(keys, txns, ring)
    ensures Clear(s, txns, ring[n])
  {
    forall k | k in s.owner && s.owner[k] != ring[n].who ensures !Holds(txns, ring[n], k) {
      var o := s.owner[k];
      assert k in s.sessions[o].mine;
      var a :| 0 <= a < n && ring[a].who == o;
      AtStands(keys, txns, s, ring[a]);
      assert Apart(keys, txns, ring[a], ring[n]);
    }
  }

  /** The next member of the ring walks to its place. */
  lemma GatherOne(rows: SlotTable, txns: seq<Transaction>, s: System, ring: seq<Place>, n: nat) returns (rest: seq<nat>)
    requires Consistent(rows, txns, s) && s.rows == rows && Ring(rows.Keys, txns, ring)
    requires n < |ring| && Gathered(txns, s, ring, n)
    requires ApplyAll(rows, txns[ring[n].who][..ring[n].calls]).Ok?
    ensures var u := Interleave(s, txns, rest);
      Consistent(rows, txns, u) && u.rows == rows && Gathered(txns, u, ring, n + 1)
  {
    var p := ring[n];
    GatheredIsClear(rows.Keys, txns, s, ring, n);
    assert s.sessions[p.who] == Enter(txns[p.who], 0, map[]);
    rest := Walk(rows, txns, s, p);
    OneMoreGathered(txns, s, Interleave(s, txns, rest), ring, n);
  }

  lemma OneMoreGathered(txns: seq<Transaction>, s: System, u: System, ring: seq<Place>, n: nat)
    requires |s.sessions| == |u.sessions| == |txns| && n < |ring| && ring[n].who < |txns| && Gathered(txns, s, ring, n)
    requires forall a :: 0 <= a < n ==> ring[a].who != ring[n].who
    requires At(u.sessions[ring[n].who], ring[n])
    requires forall j :: 0 <= j < |txns| && j != ring[n].who ==> u.sessions[j] == s.sessions[j]
    ensures Gathered(txns, u, ring, n + 1)
  {
    forall i | 0 <= i < |txns| && (forall a :: 0 <= a < n + 1 ==> ring[a].who != i)
      ensures u.sessions[i] == Enter(txns[i], 0, map[])
    {
      assert ring[n].who != i;
    }
  }

  /** The calls of a ring before its places succeed when there is room enough. */
  lemma RingApplies(keys: set<SlotKey>, txns: seq<Transaction>, ring: seq<Place>, a: nat)
    requires Ring(keys, txns, ring) && a < |ring|
    ensures Inside(txns, ring[a])
    ensures ApplyAll(Table(keys, TotalWeight(txns)), txns[ring[a].who][..ring[a].calls]).Ok?
  {
    var p := ring[a];
    assert Asks(keys, txns, p);
    PrefixWeighsLess(txns[p.who], p.calls);
    WeighsWithin(txns, p.who);
    AmpleApplies(keys, TotalWeight(txns), txns[p.who][..p.calls]);
  }

  lemma {:induction false} Gather(rows: SlotTable, txns: seq<Transaction>, ring: seq<Place>, n: nat) returns (schedule: seq<nat>)
    requires AllGood(rows) && Ring(rows.Keys, txns, ring) && n <= |ring|
    requires forall a :: 0 <= a < |ring| ==>
      Inside(txns, ring[a]) && ApplyAll(rows, txns[ring[a].who][..ring[a].calls]).Ok?
    ensures var s := Interleave(Start(rows, txns), txns, schedule);
      Consistent(rows, txns, s) && s.rows == rows && Gathered(txns, s, ring, n)
  {
    if n == 0 {
      StartIsConsistent(rows, txns);
      return [];
    }
    var first := Gather(rows, txns, ring, n - 1);
    var rest := GatherOne(rows, txns, Interleave(Start(rows, txns), txns, first), ring, n - 1);
    InterleaveSplit(Start(rows, txns), txns, first, rest);
    return first + rest;
  }

  /** Standing at its place, a transaction waits for the row it asks for while another stands where it holds it. */
  lemma PlaceWaits(keys: set<SlotKey>, txns: seq<Transaction>, s: System, p: Place, q: Place)
    requires p.who < |txns| && q.who < |txns| && LocksOk(s) && s.rows.Keys == keys
    requires Stands(keys, txns, s, p.who) && PlaceOf(s, p.who) == p && Stands(keys, txns, s, q.who) && PlaceOf(s, q.who) == q
    requires Asks(keys, txns, p) && Holds(txns, q, Next(txns, p))
    ensures Wanted(s, txns, p.who) == Some(Next(txns, p))
    ensures Next(txns, p) in s.owner && s.owner[Next(txns, p)] == q.who
  {
    assert Next(txns, p) in s.sessions[q.who].mine && Next(txns, p) !in s.sessions[p.who].mine;
  }

  /** Gathered, each waits for a row of the next. */
  lemma GatheredWaits(keys: set<SlotKey>, txns: seq<Transaction>, s: System, ring: seq<Place>, a: nat)
    requires Orderly(keys, txns, s) && Gathered(txns, s, ring, |ring|) && Ring(keys, txns, ring) && a < |ring|
    ensures Wanted(s, txns, ring[a].who) == Some(Next(txns, ring[a]))
    ensures Next(txns, ring[a]) in s.owner && s.owner[Next(txns, ring[a])] == ring[After(|ring|, a)].who
  {
    var b := After(|ring|, a);
    AtStands(keys, txns, s, ring[a]);
    AtStands(keys, txns, s, ring[b]);
    PlaceWaits(keys, txns, s, ring[a], ring[b]);
  }

  ghost predicate CanFinish(s: System, txns: seq<Transaction>)
    requires |s.sessions| == |txns|
  {
    exists rest :: AllFinished(Interleave(s, txns, rest))
  }

  function Members(ring: seq<Place>): set<nat> {
    set a: nat | a < |ring| :: ring[a].who
  }

  lemma GatheredDeadlock(keys: set<SlotKey>, txns: seq<Transaction>, s: System, ring: seq<Place>)
    requires Orderly(keys, txns, s) && Gathered(txns, s, ring, |ring|) && Ring(keys, txns, ring)
    ensures Deadlocked(s, txns, Members(ring))
  {
    assert ring[0].who in Members(ring);
    forall i | i in Members(ring) ensures WaitsAmong(s, txns, Members(ring), i) {
      var a: nat :| a < |ring| && ring[a].who == i;
      GatheredWaits(keys, txns, s, ring, a);
    }
  }

  lemma RingDeadlocks(keys: set<SlotKey>, txns: seq<Transaction>, ring: seq<Place>) returns (schedule: seq<nat>)
    requires Ring(keys, txns, ring)
    ensures !CanFinish(Interleave(Start(Table(keys, TotalWeight(txns)), txns), txns, schedule), txns)
  {
    var rows := Table(keys, TotalWeight(txns));
    assert rows.Keys == keys;
    forall a | 0 <= a < |ring|
      ensures Inside(txns, ring[a]) && ApplyAll(rows, txns[ring[a].who][..ring[a].calls]).Ok?
    {
      RingApplies(keys, txns, ring, a);
    }
    schedule := Gather(rows, txns, ring, |ring|);
    var s := Interleave(Start(rows, txns), txns, schedule);
    GatheredDeadlock(keys, txns, s, ring);
    NeverFinishes(s, txns, Members(ring));
  }

  lemma NeverFinishes(s: System, txns: seq<Transaction>, members: set<nat>)
    requires |s.sessions| == |txns| && Deadlocked(s, txns, members)
    ensures !CanFinish(s, txns)
  {
    forall rest ensures !AllFinished(Interleave(s, txns, rest)) { DeadlockLasts(s, txns, members, rest); }
  }

  // ---------------------------------------------------------------- the theorem

  /** From every state reachable on some good table of these rows, everything can still finish. */
  ghost predicate AlwaysFinishes(keys: set<SlotKey>, txns: seq<Transaction>) {
    forall rows, schedule :: AllGood(rows) && rows.Keys == keys ==>
      CanFinish(Interleave(Start(rows, txns), txns, schedule), txns)
  }

  /**
   On given rows, transactions can always be run to their end, from every reachable state, exactly
   when there is no ring: no two or more of them that could each have locked rows of their own and
   next ask for a row of the following one.
   */
  lemma DeadlockFreeExactly(keys: set<SlotKey>, txns: seq<Transaction>)
    ensures AlwaysFinishes(keys, txns) <==> !HasRing(keys, txns)
  {
    if ring :| Ring(keys, txns, ring) {
      var schedule := RingDeadlocks(keys, txns, ring);
      assert AllGood(Table(keys, TotalWeight(txns)));
    } else {
      forall rows, schedule | AllGood(rows) && rows.Keys == keys
        ensures CanFinish(Interleave(Start(rows, txns), txns, schedule), txns)
      {
        StartIsConsistent(rows, txns);
        InterleavingKeeps(rows, txns, Start(rows, txns), schedule);
        var rest := EverythingFinishes(rows, txns, Interleave(Start(rows, txns), txns, schedule));
      }
    }
  }

  // ---------------------------------------------------------------- orders that exclude a ring

  /** Nights of a window in date order, and each call's new rows after everything locked before it. */
  ghost predicate Ascends(t: Transaction, rank: SlotKey -> int) {
    && (forall n, a, b :: 0 <= n < |t| && t[n].window.Covers(a) && t[n].window.Covers(b) && a.night < b.night ==> rank(a) < rank(b))
    && (forall n, a, b :: 0 <= n < |t| && Touches(t[..n], a) && t[n].window.Covers(b) && !Touches(t[..n], b) ==> rank(a) < rank(b))
  }

  lemma AsksAbove(keys: set<SlotKey>, txns: seq<Transaction>, p: Place, k: SlotKey, rank: SlotKey -> int)
    requires Asks(keys, txns, p) && Holds(txns, p, k) && Ascends(txns[p.who], rank)
    ensures rank(k) < rank(Next(txns, p))
  {
    var call := txns[p.who][p.calls];
    assert call.window.Covers(Next(txns, p));
    if !Touches(txns[p.who][..p.calls], k) { assert call.window.Covers(k); }
  }

  lemma NextRanksAbove(keys: set<SlotKey>, txns: seq<Transaction>, ring: seq<Place>, rank: SlotKey -> int, a: nat)
    requires Ring(keys, txns, ring) && a < |ring| && forall i :: 0 <= i < |txns| ==> Ascends(txns[i], rank)
    ensures Inside(txns, ring[a]) && Inside(txns, ring[After(|ring|, a)])
    ensures rank(Next(txns, ring[a])) < rank(Next(txns, ring[After(|ring|, a)]))
  {
    var b := After(|ring|, a);
    assert Asks(keys, txns, ring[a]) && Asks(keys, txns, ring[b]) && Holds(txns, ring[b], Next(txns, ring[a]));
    AsksAbove(keys, txns, ring[b], Next(txns, ring[a]), rank);
  }

  /** Numbers that rise all the way round a circle would have to rise above themselves. */
  lemma {:induction false} RisesFromFirst(ranks: seq<int>, a: nat)
    requires a < |ranks| && forall b :: 0 <= b < |ranks| ==> ranks[b] < ranks[After(|ranks|, b)]
    ensures ranks[0] <= ranks[a]
  {
    if a > 0 {
      RisesFromFirst(ranks, a - 1);
      assert ranks[a - 1] < ranks[After(|ranks|, a - 1)];
    }
  }

  /** The ranks of the rows asked for, around the ring. */
  ghost function Ranks(txns: seq<Transaction>, ring: seq<Place>, rank: SlotKey -> int): seq<int>
    requires forall a :: 0 <= a < |ring| ==> Inside(txns, ring[a])
  {
    seq(|ring|, a requires 0 <= a < |ring| => rank(Next(txns, ring[a])))
  }

  lemma AscendingHasNoRing(keys: set<SlotKey>, txns: seq<Transaction>, rank: SlotKey -> int)
    requires forall i :: 0 <= i < |txns| ==> Ascends(txns[i], rank)
    ensures !HasRing(keys, txns)
  {
    if ring :| Ring(keys, txns, ring) {
      assert forall a :: 0 <= a < |ring| ==> Asks(keys, txns, ring[a]);
      var ranks := Ranks(txns, ring, rank);
      forall a | 0 <= a < |ranks| ensures ranks[a] < ranks[After(|ranks|, a)] {
        NextRanksAbove(keys, txns, ring, rank, a);
      }
      RisesFromFirst(ranks, |ranks| - 1);
    }
  }

  /** Transactions of one repository call each never deadlock: rows are locked in date order. */
  lemma SingleCallsFinish(keys: set<SlotKey>, txns: seq<Transaction>)
    requires forall i :: 0 <= i < |txns| ==> |txns[i]| == 1
    ensures AlwaysFinishes(keys, txns)
  {
    var rank := (k: SlotKey) => k.night;
    forall i | 0 <= i < |txns| ensures Ascends(txns[i], rank) {
      assert txns[i][..0] == [];
    }
    AscendingHasNoRing(keys, txns, rank);
    DeadlockFreeExactly(keys, txns);
  }
}
