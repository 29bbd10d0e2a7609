/**
 What the pipeline promises over whole runs: conservation, no overbooking, the hold timeline,
 and answers that stay the same however often a request is retried.
 */
module Guarantees {
  import opened Outcomes
  import opened Slots
  import opened Store
  import opened Text
  import opened Reservations
  import opened Lines
  import opened Ledger
  import opened Effects
  import opened LedgerRuns
  import opened Progress

  // ---------------------------------------------------------------- conservation

  /**
   After every run: each slot's `reserved` is the summed quantity of the unsettled reservations
   covering that night, `sold` is the fanned-out booking lines plus the direct sales, every night
   of every reservation has a slot, and the parts never exceed the total.
   */
  lemma ConservationOverRuns(run: seq<Event>, k: SlotKey)
    requires k in Execute(EMPTY, run).slots
    ensures var s := Execute(EMPTY, run);
      && s.slots[k].reserved == Total(s.reservations, HoldBook, k)
      && s.slots[k].sold == BookedUnits(s.bookings, k) + SalesTotal(s.sales, k)
      && 0 <= s.slots[k].sold && 0 <= s.slots[k].reserved && 0 <= s.slots[k].blocked && 0 <= s.slots[k].outOfService
      && s.slots[k].sold + s.slots[k].reserved + s.slots[k].blocked + s.slots[k].outOfService <= s.slots[k].total
      && (forall i :: 0 <= i < |s.reservations| ==>
            AllOpen(s.slots, s.reservations[i].tenant, s.reservations[i].property, s.reservations[i].lines))
  {
    RunKeepsInv(run);
    var s := Execute(EMPTY, run);
    assert forall i :: 0 <= i < |s.reservations| ==> SoundRow(s.slots, s.reservations[i]);
  }

  /** Every event of the catalogue is in the outbox once per state change that caused it, and no other is. */
  lemma EventsOverRuns(run: seq<Event>, row: OutboxRow)
    ensures multiset(Execute(EMPTY, run).outbox)[row] == Due(Execute(EMPTY, run), row)
  {
    RunKeepsInv(run);
  }

  /**
   After every run a reservation is converted exactly when it has a booking; it has just one, whose
   lines are numbered 1..N with N the summed quantities, and which puts on every night as many lines
   of each room type as the reservation had units.
   */
  lemma BookingsOverRuns(run: seq<Event>, id: nat)
    requires id < |Execute(EMPTY, run).reservations|
    ensures var s := Execute(EMPTY, run);
      && (s.reservations[id].status.Converted? <==> Booked(s, id))
      && (forall b, c :: 0 <= b < c < |s.bookings| ==> s.bookings[b].reservation != s.bookings[c].reservation)
      && (forall b :: 0 <= b < |s.bookings| && s.bookings[b].reservation == id ==>
            ItemisedBy(s.bookings[b], s.reservations[id]))
  {
    RunKeepsInv(run);
    var s := Execute(EMPTY, run);
    forall b | 0 <= b < |s.bookings| && s.bookings[b].reservation == id
      ensures ItemisedBy(s.bookings[b], s.reservations[id])
    {
      assert SoundRow(s.slots, s.reservations[id]);
      FannedOutIsItemised(s.bookings[b], s.reservations[id]);
    }
  }

  /** The booking spans the reservation's lines, and its own lines are their units, one by one. */
  ghost predicate ItemisedBy(b: Booking, r: Reservation) {
    && b.status.Confirmed? && b.tenant == r.tenant && b.property == r.property
    && SpansLines(b.arrival, b.departure, r.lines)
    && |b.lines| == Quantities(r.lines)
    && (forall i :: 0 <= i < |b.lines| ==> b.lines[i].lineNo == i + 1)
    && (forall roomType, night :: Present(b.lines, roomType, night) ==
          Units(r.lines, r.tenant, r.property, SlotKey(Cell(r.tenant, r.property, roomType), night)))
  }

  lemma FannedOutIsItemised(b: Booking, r: Reservation)
    requires FannedOut(b, r) && Storable(r.lines)
    ensures ItemisedBy(b, r)
  {
    FanOutNumbered(r.lines, 0);
    FirstToLast(r.lines);
    forall roomType, night
      ensures Present(b.lines, roomType, night) ==
              Units(r.lines, r.tenant, r.property, SlotKey(Cell(r.tenant, r.property, roomType), night))
    {
      PresentFanOut(r.lines, 0, r.tenant, r.property, SlotKey(Cell(r.tenant, r.property, roomType), night));
    }
  }

  // ---------------------------------------------------------------- no overbooking

  /** On no night are there more booking lines than rooms that can be sold. */
  ghost predicate NotOverbooked(s: Store) {
    forall k :: k in s.slots ==>
      BookedUnits(s.bookings, k) <= s.slots[k].total - s.slots[k].blocked - s.slots[k].outOfService
  }

  /** Every direct sale of the run asked for at least `least` units. */
  ghost predicate SalesAtLeast(run: seq<Event>, least: int) {
    forall i :: 0 <= i < |run| && run[i].op.DirectSale? ==> run[i].op.quantity >= least
  }

  ghost predicate EachAtLeast(sales: seq<Sale>, least: int) {
    forall i :: 0 <= i < |sales| ==> sales[i].quantity >= least
  }

  lemma {:induction false} SalesAreCounted(sales: seq<Sale>, k: SlotKey)
    requires EachAtLeast(sales, 0)
    ensures SalesTotal(sales, k) >= 0
    decreases |sales|
  {
    if sales != [] { SalesAreCounted(sales[..|sales| - 1], k); }
  }

  /** Only a direct sale adds to the sales, and it adds its own quantity. */
  lemma SalesGrowBy(s: Store, op: Operation, now: int)
    requires Inv(s)
    ensures var t := Next(s, op, now);
      t.sales == s.sales || (op.DirectSale? && t.sales == s.sales + [Sale(op.window, op.quantity)])
  {
    match op
    case ReserveLines(req, key) =>
      if RecordId(req.tenant, ReserveScope, key) !in s.records && Reserve(s, req, key, now).Ok? {
        ReserveExact(s, req, key, now);
      }
    case ExpireHold(id) =>
    case CancelHold(tenant, id, key) =>
    case ConfirmBooking(tenant, id, key) => ConfirmLeavesSales(s, tenant, id, key, now);
    case _ =>
  }

  lemma ConfirmLeavesSales(s: Store, tenant: int, id: int, key: string, now: int)
    requires Inv(s)
    ensures Next(s, ConfirmBooking(tenant, id, key), now).sales == s.sales
  {
    if RecordId(tenant, ConfirmScope, key) !in s.records { ConfirmExact(s, tenant, id, key, now); }
  }

  lemma {:induction false} SalesOfRun(run: seq<Event>, least: int)
    requires SalesAtLeast(run, least)
    ensures EachAtLeast(Execute(EMPTY, run).sales, least)
  {
    if run != [] {
      var front, last := run[..|run| - 1], run[|run| - 1];
      SalesOfRun(front, least);
      RunKeepsInv(front);
      SalesGrowBy(Execute(EMPTY, front), last.op, last.now);
      assert Execute(EMPTY, run) == Next(Execute(EMPTY, front), last.op, last.now);
    }
  }

  /** With non-negative direct sales no run ever overbooks a night. */
  lemma NeverOverbooked(run: seq<Event>)
    requires SalesAtLeast(run, 0)
    ensures NotOverbooked(Execute(EMPTY, run))
  {
    RunKeepsInv(run);
    SalesOfRun(run, 0);
    var s := Execute(EMPTY, run);
    forall k | k in s.slots ensures SalesTotal(s.sales, k) >= 0 {
      SalesAreCounted(s.sales, k);
    }
  }

  lemma ExecuteAppend(s: Store, run: seq<Event>, e: Event)
    ensures Execute(s, run + [e]) == Next(Execute(s, run), e.op, e.now)
  {
    assert (run + [e])[..|run|] == run;
  }

  // ---------------------------------------------------------------- a negative direct sale

  ghost predicate Reached(s: Store) {
    exists run :: s == Execute(EMPTY, run)
  }

  lemma ReachedEmpty()
    ensures Reached(EMPTY)
  {
    assert Execute(EMPTY, []) == EMPTY;
  }

  lemma ReachedInv(s: Store)
    requires Reached(s)
    ensures Inv(s)
  {
    var run :| s == Execute(EMPTY, run);
    RunKeepsInv(run);
  }

  lemma ReachedNext(s: Store, op: Operation, now: int)
    requires Reached(s)
    ensures Reached(Next(s, op, now))
  {
    var run :| s == Execute(EMPTY, run);
    ExecuteAppend(EMPTY, run, Event(op, now));
  }

  lemma ReachedConfirms(s: Store, tenant: int, id: int, key: string, now: int)
    requires Reached(s) && RecordId(tenant, ConfirmScope, key) !in s.records && Confirmable(s, tenant, id, now)
    ensures Confirm(s, tenant, id, key, now).Ok? && AfterConfirm(s, Confirm(s, tenant, id, key, now).value.store, id)
  {
    ReachedInv(s);
    ConfirmExact(s, tenant, id, key, now);
  }

  lemma ReachedReserves(s: Store, req: ReserveRequest, key: string, now: int)
    requires Reached(s) && RecordId(req.tenant, ReserveScope, key) !in s.records
    requires req.lines != [] && req.quoted && req.Storable()
    requires AllOpen(s.slots, req.tenant, req.property, req.lines) && Fits(s.slots, req.tenant, req.property, req.lines)
    ensures AfterReserve(s, Next(s, ReserveLines(req, key), now), req, key, now)
  {
    ReachedInv(s);
    ReserveExact(s, req, key, now);
  }

  lemma ReachedSells(s: Store, w: Window, quantity: int, key: string, now: int)
    requires Reached(s) && RecordId(w.cell.tenant, SellScope, key) !in s.records && Open(s.slots, w)
    requires forall k :: k in s.slots && w.Covers(k) ==> s.slots[k].Remaining() >= quantity && s.slots[k].sold + quantity >= 0
    ensures var t := Next(s, DirectSale(w, quantity, key), now);
      && t.slots == Changed(s.slots, w, Consume(Sold, quantity))
      && t.reservations == s.reservations && t.bookings == s.bookings
  {
    ReachedInv(s);
    SellExact(s, w, quantity, key);
    SoldIsApplied(s, w, quantity, key);
  }

  lemma ReachedRemains(s: Store)
    requires Reached(s)
    ensures AllGood(s.slots)
  {
    ReachedInv(s);
  }

  /** A key stays unused by operations guarded by another. */
  lemma UnusedKeyKept(s: Store, op: Operation, id: RecordId)
    requires Reached(s) && id !in s.records && GuardOf(op) != Some(id)
    requires !id.scope.HoldScope? && !id.scope.ConvertScope?
    ensures id !in Next(s, op, 0).records
  {
    ReachedInv(s);
    NextAdvances(s, op, 0);
  }

  /** One room type with one unit on one night. */
  const NIGHT := Window(Cell(0, 0, 0), 0, 1)

  const ONE_UNIT := ReserveRequest(0, 0, 0, 0, [Line(0, 0, 1, 1)], 1, true)

  /** Reserve, pay for and confirm one unit of the night. */
  function BookUnit(id: nat, key: string): seq<Event> {
    [Event(ReserveLines(ONE_UNIT, key), 0), Event(AskPayment(0, id), 0), Event(ConfirmBooking(0, id, key), 0)]
  }

  const K := SlotKey(NIGHT.cell, 0)

  /** Reserving one unit while one remains. */
  lemma ReserveUnit(s: Store, key: string)
    requires Reached(s) && s.slots.Keys == {K} && s.slots[K].Remaining() >= 1
    requires RecordId(0, ReserveScope, key) !in s.records
    ensures var t := Next(s, ReserveLines(ONE_UNIT, key), 0);
      && t.slots.Keys == {K} && t.slots[K] == s.slots[K].(reserved := s.slots[K].reserved + 1)
      && t.bookings == s.bookings
      && t.reservations == s.reservations + [Reservation(0, 0, Held, 1, ONE_UNIT.lines)]
  {
    assert ONE_UNIT.lines == [Line(0, 0, 1, 1)];
    UnitFits(s.slots);
    ReachedReserves(s, ONE_UNIT, key, 0);
  }

  lemma UnitFits(slots: SlotTable)
    requires slots.Keys == {K} && slots[K].Remaining() >= 1 && ONE_UNIT.lines == [Line(0, 0, 1, 1)]
    ensures AllOpen(slots, 0, 0, ONE_UNIT.lines) && Fits(slots, 0, 0, ONE_UNIT.lines)
    ensures Shifted(slots, Holding, 0, 0, ONE_UNIT.lines) == map[K := slots[K].(reserved := slots[K].reserved + 1)]
  {
    UnitsOfOne(Line(0, 0, 1, 1), 0, 0, K);
    assert Open(slots, Line(0, 0, 1, 1).Stay(0, 0));
  }

  /** Confirming an awaiting reservation within its hold, under a fresh key. */
  lemma ConfirmSettles(s: Store, id: nat, key: string)
    requires Reached(s) && id < |s.reservations| && s.reservations[id].status.AwaitingPayment?
    requires s.reservations[id].tenant == 0 && s.reservations[id].holdExpiry >= 0 && s.reservations[id].lines != []
    requires RecordId(0, ConfirmScope, key) !in s.records
    ensures var t := Next(s, ConfirmBooking(0, id, key), 0);
      AfterSettling(s, t, id, Selling, Converted) && t.bookings == s.bookings + [BookingOf(s.reservations[id], id)]
  {
    ReachedConfirms(s, 0, id, key, 0);
  }

  /** Confirming a unit that is awaiting payment. */
  lemma ConfirmUnit(s: Store, id: nat, key: string)
    requires Reached(s) && s.slots.Keys == {K} && id < |s.reservations|
    requires RecordId(0, ConfirmScope, key) !in s.records
    requires s.reservations[id] == Reservation(0, 0, AwaitingPayment, 1, ONE_UNIT.lines)
    ensures var t := Next(s, ConfirmBooking(0, id, key), 0);
      && t.slots.Keys == {K}
      && t.slots[K] == s.slots[K].(reserved := s.slots[K].reserved - 1, sold := s.slots[K].sold + 1)
      && t.bookings == s.bookings + [BookingOf(s.reservations[id], id)] && |t.reservations| == |s.reservations|
  {
    assert ONE_UNIT.lines == [Line(0, 0, 1, 1)];
    ConfirmSettles(s, id, key);
    UnitsOfOne(Line(0, 0, 1, 1), 0, 0, K);
  }

  lemma OneMoreBooked(bookings: seq<Booking>, r: Reservation, id: nat)
    requires r == Reservation(0, 0, AwaitingPayment, 1, ONE_UNIT.lines)
    ensures BookedUnits(bookings + [BookingOf(r, id)], K) == BookedUnits(bookings, K) + 1
  {
    assert ONE_UNIT.lines == [Line(0, 0, 1, 1)];
    assert (bookings + [BookingOf(r, id)])[..|bookings|] == bookings;
    UnitsOfOne(Line(0, 0, 1, 1), 0, 0, K);
    BookedUnitsOf(r, id, K);
  }

  /** None of the guarded scopes the witness run uses knows the key. */
  predicate Unused(s: Store, key: string) {
    RecordId(0, ReserveScope, key) !in s.records && RecordId(0, ConfirmScope, key) !in s.records &&
    RecordId(0, SellScope, key) !in s.records
  }

  function KeyOf(op: Operation): string {
    match GuardOf(op) case None => "" case Some(id) => id.key
  }

  /** An operation uses up its own key only. */
  lemma UnusedKept(s: Store, op: Operation, key: string)
    requires Reached(s) && Unused(s, key) && KeyOf(op) != key
    ensures Unused(Next(s, op, 0), key)
  {
    UnusedKeyKept(s, op, RecordId(0, ReserveScope, key));
    UnusedKeyKept(s, op, RecordId(0, ConfirmScope, key));
    UnusedKeyKept(s, op, RecordId(0, SellScope, key));
  }

  lemma BookUnitLeavesOthersUnused(s: Store, key: string, other: string)
    requires Reached(s) && Unused(s, other) && other != key && other != ""
    ensures Unused(Execute(s, BookUnit(|s.reservations|, key)), other)
  {
    var reserve, pay, confirm :=
      ReserveLines(ONE_UNIT, key), AskPayment(0, |s.reservations|), ConfirmBooking(0, |s.reservations|, key);
    BookUnitInSteps(s, key);
    ThreeStepsKeepUnused(s, reserve, pay, confirm, other);
  }

  lemma ThreeStepsKeepUnused(s: Store, first: Operation, second: Operation, third: Operation, key: string)
    requires Reached(s) && Unused(s, key) && KeyOf(first) != key && KeyOf(second) != key && KeyOf(third) != key
    ensures Unused(Next(Next(Next(s, first, 0), second, 0), third, 0), key)
  {
    var a := Next(s, first, 0);
    var b := Next(a, second, 0);
    UnusedKept(s, first, key);
    ReachedNext(s, first, 0);
    UnusedKept(a, second, key);
    ReachedNext(a, second, 0);
    UnusedKept(b, third, key);
  }

  lemma BookUnitInSteps(s: Store, key: string)
    ensures Execute(s, BookUnit(|s.reservations|, key)) ==
      Next(Next(Next(s, ReserveLines(ONE_UNIT, key), 0), AskPayment(0, |s.reservations|), 0),
           ConfirmBooking(0, |s.reservations|, key), 0)
  {
    var run := BookUnit(|s.reservations|, key);
    assert run == [] + [run[0]] + [run[1]] + [run[2]];
    ExecuteAppend(s, [], run[0]);
    ExecuteAppend(s, [] + [run[0]], run[1]);
    ExecuteAppend(s, [] + [run[0]] + [run[1]], run[2]);
  }

  /** While a unit remains, the three steps succeed and book one more. */
  lemma BookUnitBooks(s: Store, key: string)
    requires Reached(s) && s.slots.Keys == {K} && s.slots[K].Remaining() >= 1 && Unused(s, key)
    ensures var t := Execute(s, BookUnit(|s.reservations|, key));
      && Reached(t) && t.slots.Keys == {K} && t.slots[K] == s.slots[K].(sold := s.slots[K].sold + 1)
      && BookedUnits(t.bookings, K) == BookedUnits(s.bookings, K) + 1 && |t.reservations| == |s.reservations| + 1
  {
    var id := |s.reservations|;
    BookUnitInSteps(s, key);
    var a := Next(s, ReserveLines(ONE_UNIT, key), 0);
    var b := Next(a, AskPayment(0, id), 0);
    ReserveUnit(s, key);
    ReachedNext(s, ReserveLines(ONE_UNIT, key), 0);
    UnusedKeyKept(s, ReserveLines(ONE_UNIT, key), RecordId(0, ConfirmScope, key));
    PayUnit(a, id);
    ReachedNext(a, AskPayment(0, id), 0);
    ConfirmUnit(b, id, key);
    OneMoreBooked(b.bookings, b.reservations[id], id);
    ReachedNext(b, ConfirmBooking(0, id, key), 0);
  }

  lemma PayUnit(s: Store, id: nat)
    requires id < |s.reservations| && s.reservations[id] == Reservation(0, 0, Held, 1, ONE_UNIT.lines)
    ensures Next(s, AskPayment(0, id), 0) ==
            s.(reservations := s.reservations[id := Reservation(0, 0, AwaitingPayment, 1, ONE_UNIT.lines)])
  {
    assert s.outbox + [] == s.outbox;
  }

  /** A direct sale of a negative quantity passes the guard and gives sold units back. */
  lemma NegativeSaleLowersSold(s: Store, key: string)
    requires Reached(s) && s.slots.Keys == {K} && s.slots[K].sold >= 1 && Unused(s, key)
    ensures var t := Next(s, DirectSale(NIGHT, -1, key), 0);
      && t.slots.Keys == {K} && t.slots[K] == s.slots[K].(sold := s.slots[K].sold - 1)
      && t.reservations == s.reservations && t.bookings == s.bookings
  {
    assert NIGHT.Covers(K);
    ReachedRemains(s);
    ReachedSells(s, NIGHT, -1, key, 0);
  }

  /** Open one unit, book it, sell minus one unit directly, and book it again. */
  function NegativeSaleRun(): seq<Event> {
    [Event(InitializeHorizon(NIGHT, 1), 0)] + BookUnit(0, "a") +
    [Event(DirectSale(NIGHT, -1, "s"), 0)] + BookUnit(1, "b")
  }

  lemma {:induction false} ExecuteInTwo(s: Store, first: seq<Event>, second: seq<Event>)
    ensures Execute(s, first + second) == Execute(Execute(s, first), second)
    decreases |second|
  {
    if second == [] {
      assert first + second == first;
    } else {
      var front, last := second[..|second| - 1], second[|second| - 1];
      assert first + second == (first + front) + [last];
      ExecuteAppend(s, first + front, last);
      ExecuteInTwo(s, first, front);
    }
  }

  lemma HorizonOfOne()
    ensures Next(EMPTY, InitializeHorizon(NIGHT, 1), 0) == EMPTY.(slots := map[K := Slot(1, 0, 0, 0, 0)])
  {
    assert !Open(EMPTY.slots, NIGHT) by { assert K !in EMPTY.slots; }
    assert WindowKeys(NIGHT) == {K};
    assert Opened(EMPTY.slots, NIGHT, 1) == map[K := Slot(1, 0, 0, 0, 0)];
  }

  lemma NegativeSaleRunInSteps()
    ensures var a := Next(EMPTY, InitializeHorizon(NIGHT, 1), 0);
      Execute(EMPTY, NegativeSaleRun()) ==
      Execute(Next(Execute(a, BookUnit(0, "a")), DirectSale(NIGHT, -1, "s"), 0), BookUnit(1, "b"))
  {
    var horizon, sale := Event(InitializeHorizon(NIGHT, 1), 0), Event(DirectSale(NIGHT, -1, "s"), 0);
    ExecuteAppend(EMPTY, [], horizon);
    assert [] + [horizon] == [horizon];
    ExecuteInTwo(EMPTY, [horizon], BookUnit(0, "a"));
    ExecuteAppend(EMPTY, [horizon] + BookUnit(0, "a"), sale);
    ExecuteInTwo(EMPTY, [horizon] + BookUnit(0, "a") + [sale], BookUnit(1, "b"));
  }

  lemma NegativeSaleRunIsBounded(least: int)
    requires least < 0
    ensures SalesAtLeast(NegativeSaleRun(), least)
  {
    forall i | 0 <= i < |NegativeSaleRun()| && NegativeSaleRun()[i].op.DirectSale?
      ensures NegativeSaleRun()[i].op.quantity == -1
    {
    }
  }

  /** The only unit booked, and the keys "s" and "b" still free. */
  ghost predicate OneBooked(s: Store, booked: nat, sold: int) {
    && Reached(s) && s.slots == map[K := Slot(1, sold, 0, 0, 0)] && |s.reservations| == booked
    && BookedUnits(s.bookings, K) == booked
  }

  lemma FirstBooking()
    ensures var b := Execute(Next(EMPTY, InitializeHorizon(NIGHT, 1), 0), BookUnit(0, "a"));
      OneBooked(b, 1, 1) && Unused(b, "s") && Unused(b, "b")
  {
    var a := Next(EMPTY, InitializeHorizon(NIGHT, 1), 0);
    HorizonOfOne();
    ReachedEmpty();
    ReachedNext(EMPTY, InitializeHorizon(NIGHT, 1), 0);
    BookUnitBooks(a, "a");
    BookUnitLeavesOthersUnused(a, "a", "s");
    BookUnitLeavesOthersUnused(a, "a", "b");
    var b := Execute(a, BookUnit(0, "a"));
    assert a.slots[K] == Slot(1, 0, 0, 0, 0) && a.reservations == [];
    assert b.slots[K] == Slot(1, 1, 0, 0, 0);
    assert b.slots == map[K := b.slots[K]];
  }

  lemma NegativeSale(b: Store)
    requires OneBooked(b, 1, 1) && Unused(b, "s") && Unused(b, "b")
    ensures var c := Next(b, DirectSale(NIGHT, -1, "s"), 0); OneBooked(c, 1, 0) && Unused(c, "b")
  {
    NegativeSaleLowersSold(b, "s");
    ReachedNext(b, DirectSale(NIGHT, -1, "s"), 0);
    UnusedKept(b, DirectSale(NIGHT, -1, "s"), "b");
    assert Next(b, DirectSale(NIGHT, -1, "s"), 0).slots == map[K := Slot(1, 0, 0, 0, 0)];
  }

  /** The second booking line on a night with one unit. */
  lemma NegativeSaleOverbooks()
    ensures !NotOverbooked(Execute(EMPTY, NegativeSaleRun()))
  {
    NegativeSaleRunInSteps();
    var b := Execute(Next(EMPTY, InitializeHorizon(NIGHT, 1), 0), BookUnit(0, "a"));
    FirstBooking();
    NegativeSale(b);
    BookUnitBooks(Next(b, DirectSale(NIGHT, -1, "s"), 0), "b");
  }

  /**
   Exactly when overbooking is impossible: if the direct sales of a deployment are only bounded
   below by `least`, no run overbooks a night if and only if `least` is not negative.
   */
  lemma OverbookingThreshold(least: int)
    ensures (forall run :: SalesAtLeast(run, least) ==> NotOverbooked(Execute(EMPTY, run))) <==> least >= 0
  {
    if least >= 0 {
      forall run | SalesAtLeast(run, least) ensures NotOverbooked(Execute(EMPTY, run)) {
        NeverOverbooked(run);
      }
    } else {
      NegativeSaleOverbooks();
      NegativeSaleRunIsBounded(least);
    }
  }
}
