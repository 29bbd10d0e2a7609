/**
 The main operations in terms of the columns alone: when each succeeds, what it raises otherwise, and
 what it leaves in every row.
 */
module TableEffects {
  import opened Outcomes
  import opened Slots
  import opened Store
  import opened Text
  import opened Reservations
  import opened Lines
  import opened Ledger
  import opened Effects
  import opened LedgerRuns

  /** Units the lines ask for of one room type on one night, arrival included and departure not. */
  function Demand(lines: seq<Line>, roomType: int, night: int): int {
    if lines == [] then 0
    else
      (if lines[0].roomType == roomType && lines[0].arrival <= night < lines[0].departure then lines[0].quantity else 0) +
      Demand(lines[1..], roomType, night)
  }

  /** The same, in the property the lines are for. */
  function DemandAt(lines: seq<Line>, tenant: int, property: int, k: SlotKey): int {
    if k.cell.tenant == tenant && k.cell.property == property then Demand(lines, k.cell.roomType, k.night) else 0
  }

  lemma {:induction false} UnitsAreDemand(lines: seq<Line>, tenant: int, property: int, k: SlotKey)
    ensures Units(lines, tenant, property, k) == DemandAt(lines, tenant, property, k)
  {
    if lines != [] { UnitsAreDemand(lines[1..], tenant, property, k); }
  }

  /** Every row of s with some units more reserved and some more sold, and no other row. */
  ghost predicate Counted(s: Store, t: Store, reserved: SlotKey -> int, sold: SlotKey -> int) {
    t.slots.Keys == s.slots.Keys && forall k :: k in s.slots ==>
      t.slots[k] == Slot(s.slots[k].total, s.slots[k].sold + sold(k), s.slots[k].reserved + reserved(k),
                         s.slots[k].blocked, s.slots[k].outOfService)
  }

  lemma ShiftedIsCounted(s: Store, t: Store, kind: Kind, tenant: int, property: int, lines: seq<Line>)
    requires t.slots == Shifted(s.slots, kind, tenant, property, lines)
    ensures kind.Holding? ==> Counted(s, t, k => DemandAt(lines, tenant, property, k), k => 0)
    ensures kind.Releasing? ==> Counted(s, t, k => 0 - DemandAt(lines, tenant, property, k), k => 0)
    ensures kind.Selling? ==>
      Counted(s, t, k => 0 - DemandAt(lines, tenant, property, k), k => DemandAt(lines, tenant, property, k))
  {
    forall k | k in s.slots ensures Units(lines, tenant, property, k) == DemandAt(lines, tenant, property, k) {
      UnitsAreDemand(lines, tenant, property, k);
    }
  }

  // ---------------------------------------------------------------- reserve

  /** What the rows of a request must be like. */
  predicate WellFormed(req: ReserveRequest) {
    req.holdMinutes > 0 &&
    forall i :: 0 <= i < |req.lines| ==> req.lines[i].quantity >= 1 && req.lines[i].arrival < req.lines[i].departure
  }

  /** A row for every night of every line, and enough left on it for all lines together. */
  ghost predicate RoomFor(slots: SlotTable, req: ReserveRequest) {
    && (forall i, night :: 0 <= i < |req.lines| && req.lines[i].arrival <= night < req.lines[i].departure ==>
          SlotKey(Cell(req.tenant, req.property, req.lines[i].roomType), night) in slots)
    && (forall k :: k in slots ==>
          DemandAt(req.lines, req.tenant, req.property, k) <=
          slots[k].total - slots[k].sold - slots[k].reserved - slots[k].blocked - slots[k].outOfService)
  }

  lemma RoomForExactly(slots: SlotTable, req: ReserveRequest)
    ensures RoomFor(slots, req) <==>
      AllOpen(slots, req.tenant, req.property, req.lines) && Fits(slots, req.tenant, req.property, req.lines)
  {
    forall k | k in slots
      ensures Units(req.lines, req.tenant, req.property, k) == DemandAt(req.lines, req.tenant, req.property, k)
    {
      UnitsAreDemand(req.lines, req.tenant, req.property, k);
    }
    if AllOpen(slots, req.tenant, req.property, req.lines) {
      forall i, night | 0 <= i < |req.lines| && req.lines[i].arrival <= night < req.lines[i].departure
        ensures SlotKey(Cell(req.tenant, req.property, req.lines[i].roomType), night) in slots
      {
        assert Open(slots, req.lines[i].Stay(req.tenant, req.property));
      }
    }
  }

  /** What stands in the way of a first reserve, in the order it is found. */
  function ReserveError(req: ReserveRequest): Error {
    if req.lines == [] then InvalidRequest
    else if !req.quoted then QuoteRejected
    else if !WellFormed(req) then DoesNotExist
    else InsufficientAvailability
  }

  /** When a first `reserve` succeeds, what it raises otherwise, and the rows it leaves. */
  lemma ReserveInTables(s: Store, req: ReserveRequest, key: string, now: int)
    requires Inv(s) && RecordId(req.tenant, ReserveScope, key) !in s.records
    ensures var r := Reserve(s, req, key, now);
      && (r.Ok? <==> req.lines != [] && req.quoted && WellFormed(req) && RoomFor(s.slots, req))
      && (r.Err? ==> r.error == ReserveError(req))
    ensures Reserve(s, req, key, now).Ok? ==>
      var t := Reserve(s, req, key, now).value.store;
      && Counted(s, t, k => DemandAt(req.lines, req.tenant, req.property, k), k => 0)
      && t.reservations == s.reservations + [Reservation(req.tenant, req.property, Held, now + req.holdMinutes, req.lines)]
      && t.bookings == s.bookings && t.sales == s.sales
      && t.outbox == s.outbox + [OutboxRow(ReservationCreated, |s.reservations|)]
      && Reserve(s, req, key, now).value.response == ReservationRef(|s.reservations|)
  {
    ReserveExact(s, req, key, now);
    RoomForExactly(s.slots, req);
    FirstReserveHasFreshKeys(s, req.tenant, key);
    if req.lines != [] && req.quoted && req.Storable() { StorableRaises(s, req, key, now); }
    if Reserve(s, req, key, now).Ok? {
      ShiftedIsCounted(s, Reserve(s, req, key, now).value.store, Holding, req.tenant, req.property, req.lines);
    }
  }

  // ---------------------------------------------------------------- expire, cancel, request payment

  /** Held or awaiting payment. */
  predicate Waiting(r: Reservation) {
    r.status == Held || r.status == AwaitingPayment
  }

  /** One reservation at a new status, its units off hold, and every other row as it was. */
  ghost predicate GivenBack(s: Store, t: Store, id: nat, status: Status)
    requires id < |s.reservations|
  {
    var r := s.reservations[id];
    && Counted(s, t, k => 0 - DemandAt(r.lines, r.tenant, r.property, k), k => 0)
    && t.reservations == s.reservations[id := Reservation(r.tenant, r.property, status, r.holdExpiry, r.lines)]
    && t.bookings == s.bookings && t.sales == s.sales
  }

  lemma ExpireInTables(s: Store, id: int)
    requires Inv(s)
    ensures var r := Expire(s, id);
      if !(0 <= id < |s.reservations|) then r == Err(DoesNotExist)
      else if !Waiting(s.reservations[id]) then r == Ok(Step(s, ReservationRef(id)))
      else
        && r.Ok? && r.value.response == ReservationRef(id)
        && GivenBack(s, r.value.store, id, Expired) && r.value.store.records == s.records
        && r.value.store.outbox == s.outbox + [OutboxRow(ReservationExpired, id)]
  {
    ExpireExact(s, id);
    if 0 <= id < |s.reservations| && Waiting(s.reservations[id]) {
      var r := s.reservations[id];
      ShiftedIsCounted(s, Expire(s, id).value.store, Releasing, r.tenant, r.property, r.lines);
    }
  }

  lemma CancelInTables(s: Store, tenant: int, id: int, key: string)
    requires Inv(s) && RecordId(tenant, CancelScope, key) !in s.records
    ensures var r := Cancel(s, tenant, id, key);
      if !(0 <= id < |s.reservations|) || s.reservations[id].tenant != tenant then r == Err(DoesNotExist)
      else
        && r.Ok? && r.value.response == ReservationRef(id)
        && r.value.store.outbox == s.outbox
        && (Waiting(s.reservations[id]) ==> GivenBack(s, r.value.store, id, Cancelled))
        && (!Waiting(s.reservations[id]) ==> r.value.store == s.(records := r.value.store.records))
  {
    CancelExact(s, tenant, id, key);
    CancelHidesExactly(s, tenant, id, key);
    if 0 <= id < |s.reservations| && s.reservations[id].tenant == tenant && Waiting(s.reservations[id]) {
      var r := s.reservations[id];
      ShiftedIsCounted(s, Cancel(s, tenant, id, key).value.store, Releasing, r.tenant, r.property, r.lines);
    }
  }

  lemma RequestPaymentInTables(s: Store, tenant: int, id: int, now: int)
    ensures var r := RequestPayment(s, tenant, id, now);
      if !(0 <= id < |s.reservations|) || s.reservations[id].tenant != tenant then r == Err(DoesNotExist)
      else if s.reservations[id].status != Held || s.reservations[id].holdExpiry < now then r == Err(TransitionNotAllowed)
      else r == Ok(Step(s.(reservations := s.reservations[id := s.reservations[id].(status := AwaitingPayment)]), ReservationRef(id)))
  {
    RequestPaymentExact(s, tenant, id, now);
  }

  // ---------------------------------------------------------------- confirm

  /** The booking of a reservation: who and where it was for, the days its lines span, and one numbered
      line for each of its units. */
  ghost predicate BookingFor(b: Booking, r: Reservation, id: nat) {
    && b.tenant == r.tenant && b.property == r.property && b.reservation == id && b.status == BookingStatus.Confirmed
    && SpansLines(b.arrival, b.departure, r.lines)
    && |b.lines| == Quantities(r.lines)
    && (forall i :: 0 <= i < |b.lines| ==> b.lines[i].lineNo == i + 1)
    && (forall roomType, night :: Present(b.lines, roomType, night) == Demand(r.lines, roomType, night))
  }

  lemma BookingOfIsFor(r: Reservation, id: nat)
    requires r.lines != [] && Storable(r.lines)
    ensures BookingFor(BookingOf(r, id), r, id)
  {
    FirstToLast(r.lines);
    FanOutNumbered(r.lines, 0);
    forall roomType, night ensures Present(FanOut(r.lines, 0), roomType, night) == Demand(r.lines, roomType, night) {
      var k := SlotKey(Cell(r.tenant, r.property, roomType), night);
      PresentFanOut(r.lines, 0, r.tenant, r.property, k);
      UnitsAreDemand(r.lines, r.tenant, r.property, k);
    }
  }

  /** When a first `confirm` succeeds, what it raises otherwise, and the rows it leaves. */
  lemma ConfirmInTables(s: Store, tenant: int, id: int, key: string, now: int)
    requires Inv(s) && RecordId(tenant, ConfirmScope, key) !in s.records
    ensures var r := Confirm(s, tenant, id, key, now);
      if !(0 <= id < |s.reservations|) || s.reservations[id].tenant != tenant then r == Err(DoesNotExist)
      else if s.reservations[id].status != AwaitingPayment || s.reservations[id].holdExpiry < now then r == Err(TransitionNotAllowed)
      else r.Ok? && r.value.response == BookingRef(|s.bookings|) && SoldAndBooked(s, r.value.store, id)
  {
    ConfirmExact(s, tenant, id, key, now);
    if !Confirmable(s, tenant, id, now) {
      ConfirmRaises(s, tenant, id, key, now);
    } else {
      var r := s.reservations[id];
      ShiftedIsCounted(s, Confirm(s, tenant, id, key, now).value.store, Selling, r.tenant, r.property, r.lines);
      BookingOfIsFor(r, id);
    }
  }

  /** In any tables whatever: a second booking of a reservation is refused, so is one of no lines, and the
      days of one that is made are not inverted. */
  lemma ConfirmGuards(s: Store, tenant: int, id: int, key: string, now: int)
    requires RecordId(tenant, ConfirmScope, key) !in s.records
    ensures var r := Confirm(s, tenant, id, key, now);
      && (r.Ok? ==>
            && (forall b :: 0 <= b < |s.bookings| ==> s.bookings[b].reservation != id)
            && r.value.store.bookings != []
            && var made := r.value.store.bookings[|r.value.store.bookings| - 1];
               made.reservation == id && made.arrival < made.departure)
      && (Confirmable(s, tenant, id, now) && s.reservations[id].lines == [] ==> r == Err(InvalidRequest))
  {
    var u := s.(records := s.records[RecordId(tenant, ConfirmScope, key) := InProgress(ReservationPayload(id))]);
    var converted := ConvertReservation(u, tenant, id, now);
    if converted.Ok? {
      assert converted.value.bookings == s.bookings;
      assert converted.value.reservations[id].lines == s.reservations[id].lines;
      forall b | 0 <= b < |s.bookings| && ConfirmBody(u, tenant, id, now).Ok? ensures s.bookings[b].reservation != id {
        assert !Booked(converted.value, id);
      }
    }
  }

  /** The units moved from hold to sold, the reservation converted, and one booking for it. */
  ghost predicate SoldAndBooked(s: Store, t: Store, id: nat)
    requires id < |s.reservations|
  {
    var r := s.reservations[id];
    && Counted(s, t, k => 0 - DemandAt(r.lines, r.tenant, r.property, k), k => DemandAt(r.lines, r.tenant, r.property, k))
    && t.reservations == s.reservations[id := Reservation(r.tenant, r.property, Converted, r.holdExpiry, r.lines)]
    && |t.bookings| == |s.bookings| + 1 && t.bookings[..|s.bookings|] == s.bookings
    && BookingFor(t.bookings[|s.bookings|], r, id) && t.sales == s.sales
    && t.outbox == s.outbox + [OutboxRow(ReservationConverted, id), OutboxRow(BookingConfirmed, |s.bookings|)]
  }

  // ---------------------------------------------------------------- whole windows

  /** Nights of one cell, arrival included and departure not. */
  predicate During(k: SlotKey, w: Window) {
    k.cell == w.cell && w.start <= k.night < w.end
  }

  /** Every night of the window has a row with the quantity to spare. */
  ghost predicate Spare(slots: SlotTable, w: Window, quantity: int) {
    && (forall night :: w.start <= night < w.end ==> SlotKey(w.cell, night) in slots)
    && (forall k :: k in slots && During(k, w) ==>
          slots[k].total - slots[k].sold - slots[k].reserved - slots[k].blocked - slots[k].outOfService >= quantity)
  }

  lemma SpareExactly(slots: SlotTable, w: Window, quantity: int)
    ensures Spare(slots, w, quantity) <==>
      Open(slots, w) && forall k :: k in slots && w.Covers(k) ==> slots[k].Remaining() >= quantity
  {
  }

  lemma SellRaises(s: Store, w: Window, quantity: int, key: string)
    requires RecordId(w.cell.tenant, SellScope, key) !in s.records
    ensures var r := Sell(s, w, quantity, key); r.Err? ==> r.error == DoesNotExist || r.error == InsufficientAvailability
  {
    assert Apply(s.slots, w, Consume(Sold, quantity)).Err? ==>
      Apply(s.slots, w, Consume(Sold, quantity)).error in {IntegrityError, InsufficientAvailability};
  }

  /** When a first `sell` succeeds, what it raises otherwise, and the rows it leaves. */
  lemma SellInTables(s: Store, w: Window, quantity: int, key: string)
    requires Inv(s) && RecordId(w.cell.tenant, SellScope, key) !in s.records
    ensures var r := Sell(s, w, quantity, key);
      && (r.Ok? <==> Spare(s.slots, w, quantity) && forall k :: k in s.slots && During(k, w) ==> s.slots[k].sold + quantity >= 0)
      && (r.Err? ==> r.error == if Spare(s.slots, w, quantity) then DoesNotExist else InsufficientAvailability)
    ensures Sell(s, w, quantity, key).Ok? ==>
      var t := Sell(s, w, quantity, key).value.store;
      && Counted(s, t, k => 0, k => if During(k, w) then quantity else 0)
      && t.sales == s.sales + [Sale(w, quantity)]
      && t.reservations == s.reservations && t.bookings == s.bookings && t.outbox == s.outbox
      && Sell(s, w, quantity, key).value.response == WindowDone(w.end - w.start)
  {
    SellExact(s, w, quantity, key);
    SellHidesExactly(s, w, quantity, key);
    SpareExactly(s.slots, w, quantity);
    SellRaises(s, w, quantity, key);
    if Sell(s, w, quantity, key).Ok? { SoldIsApplied(s, w, quantity, key); }
  }

  /** A first `hold` of a window, for any quantity. */
  lemma HoldInTables(s: Store, w: Window, quantity: int, key: string)
    requires AllGood(s.slots) && RecordId(w.cell.tenant, HoldScope, key) !in s.records
    ensures var r := Hold(s, w, quantity, key);
      && (r.Ok? <==> Spare(s.slots, w, quantity) && forall k :: k in s.slots && During(k, w) ==> s.slots[k].reserved + quantity >= 0)
      && (r.Ok? ==> Counted(s, r.value.store, k => if During(k, w) then quantity else 0, k => 0)
                    && OnlyInventory(s, r.value.store) && r.value.response == WindowDone(w.end - w.start))
  {
    var c := Consume(Reserved, quantity);
    forall k | k in s.slots && w.Covers(k)
      ensures Changed(s.slots, w, c)[k] == c.On(s.slots[k])
      ensures c.Allows(s.slots[k]) ==> (c.On(s.slots[k]).Good() <==> s.slots[k].reserved + quantity >= 0)
    {
    }
    assert Apply(s.slots, w, c).Ok? <==>
      Spare(s.slots, w, quantity) && forall k :: k in s.slots && During(k, w) ==> s.slots[k].reserved + quantity >= 0;
  }

  /** A first `convert_hold_to_sold` of a window, for any quantity: what is reserved must cover it. */
  lemma ConvertHoldInTables(s: Store, w: Window, quantity: int, key: string)
    requires AllGood(s.slots) && RecordId(w.cell.tenant, ConvertScope, key) !in s.records
    ensures var r := ConvertHold(s, w, quantity, key);
      && (r.Ok? <==>
            && (forall night :: w.start <= night < w.end ==> SlotKey(w.cell, night) in s.slots)
            && (forall k :: k in s.slots && During(k, w) ==> s.slots[k].reserved >= quantity && s.slots[k].sold + quantity >= 0))
      && (r.Ok? ==>
            && Counted(s, r.value.store, k => if During(k, w) then 0 - quantity else 0, k => if During(k, w) then quantity else 0)
            && OnlyInventory(s, r.value.store) && r.value.response == WindowDone(w.end - w.start))
  {
    var c := Change.Convert(quantity);
    forall k | k in s.slots && w.Covers(k)
      ensures Changed(s.slots, w, c)[k] == c.On(s.slots[k])
      ensures c.Allows(s.slots[k]) ==> (c.On(s.slots[k]).Good() <==> s.slots[k].sold + quantity >= 0)
    {
    }
    assert Apply(s.slots, w, c).Ok? <==>
      && (forall night :: w.start <= night < w.end ==> SlotKey(w.cell, night) in s.slots)
      && (forall k :: k in s.slots && During(k, w) ==> s.slots[k].reserved >= quantity && s.slots[k].sold + quantity >= 0);
  }

  /** Opening a horizon fills in exactly the missing nights, with the capacity asked for and nothing used. */
  lemma HorizonInTables(slots: SlotTable, w: Window, total: int)
    ensures var r := OpenHorizon(slots, w, total);
      && (r.Err? <==> total < 0 && exists night :: w.start <= night < w.end && SlotKey(w.cell, night) !in slots)
      && (r.Err? ==> r.error == IntegrityError)
      && (r.Ok? ==>
            && (forall k :: k in r.value <==> k in slots || During(k, w))
            && forall k :: k in r.value ==> r.value[k] == if k in slots then slots[k] else Slot(total, 0, 0, 0, 0))
  {
    if Open(slots, w) {
      forall k | During(k, w) ensures k in slots { assert k == SlotKey(w.cell, k.night); }
    }
  }

  /** Taking units out of service, or bringing them back, moves exactly the rows there are. */
  lemma AdjustInTables(slots: SlotTable, w: Window, delta: int)
    requires AllGood(slots)
    ensures var r := Apply(slots, w, OutOfService(delta));
      && (r.Ok? <==> forall k :: k in slots && During(k, w) ==>
            && slots[k].outOfService + delta >= 0
            && slots[k].total >= slots[k].sold + slots[k].reserved + slots[k].blocked + slots[k].outOfService + delta)
      && (r.Err? ==> r.error == IntegrityError)
      && (r.Ok? ==> r.value.Keys == slots.Keys && forall k :: k in slots ==>
            r.value[k] == slots[k].(outOfService := slots[k].outOfService + if During(k, w) then delta else 0))
  {
    var c := OutOfService(delta);
    forall k | k in slots && w.Covers(k) ensures Changed(slots, w, c)[k] == c.On(slots[k]) { }
  }

  /** A release gives back at most what is counted, and never less than nothing. */
  function Left(counted: int, quantity: int): int {
    if quantity <= 0 then counted else if quantity <= counted then counted - quantity else 0
  }

  lemma ReleaseInTables(slots: SlotTable, w: Window, quantity: int, counter: Counter)
    requires AllGood(slots)
    ensures var r := Apply(slots, w, Release(counter, quantity));
      && (r.Ok? <==> forall night :: w.start <= night < w.end ==> SlotKey(w.cell, night) in slots)
      && (r.Err? ==> r.error == InsufficientAvailability)
      && (r.Ok? ==> r.value.Keys == slots.Keys && forall k :: k in slots ==>
            r.value[k] ==
              if !During(k, w) then slots[k]
              else if counter.Sold? then slots[k].(sold := Left(slots[k].sold, quantity))
              else slots[k].(reserved := Left(slots[k].reserved, quantity)))
  {
    var c := Release(counter, quantity);
    forall k | k in slots && w.Covers(k) ensures Changed(slots, w, c)[k] == c.On(slots[k]) && c.On(slots[k]).Good() { }
  }

  // ---------------------------------------------------------------- the reservation's state machine

  /** Which transition is allowed from where, where it leads and what it announces. */
  lemma MoveInTables(s: Store, id: nat, t: Transition)
    requires id < |s.reservations|
    ensures var r, was := Move(s, id, t), s.reservations[id];
      match t
      case ToHeld => if was.status == Draft then r == Ok(Moved(s, id, Held, [OutboxRow(ReservationCreated, id)])) else r == Err(TransitionNotAllowed)
      case ToAwaitingPayment => if was.status == Held then r == Ok(Moved(s, id, AwaitingPayment, [])) else r == Err(TransitionNotAllowed)
      case ToExpired => if Waiting(was) then r == Ok(Moved(s, id, Expired, [OutboxRow(ReservationExpired, id)])) else r == Err(TransitionNotAllowed)
      case ToCancelled => if Waiting(was) || was.status == Draft then r == Ok(Moved(s, id, Cancelled, [])) else r == Err(TransitionNotAllowed)
      case ToConverted => if was.status == AwaitingPayment then r == Ok(Moved(s, id, Converted, [OutboxRow(ReservationConverted, id)])) else r == Err(TransitionNotAllowed)
  {
  }

  function Moved(s: Store, id: nat, status: Status, events: seq<OutboxRow>): Store
    requires id < |s.reservations|
  {
    s.(reservations := s.reservations[id := s.reservations[id].(status := status)], outbox := s.outbox + events)
  }

  /** Expiring touches only a reservation that is held or awaiting payment, in any tables whatever; a draft it
      leaves alone, and a first cancel of a draft moves its status and nothing that is counted. */
  lemma DraftInTables(s: Store, tenant: int, id: nat, key: string)
    requires id < |s.reservations| && !Waiting(s.reservations[id])
    ensures Expire(s, id) == Ok(Step(s, ReservationRef(id)))
    ensures s.reservations[id].status == Draft && s.reservations[id].tenant == tenant &&
            RecordId(tenant, CancelScope, key) !in s.records ==>
      var r := Cancel(s, tenant, id, key);
      && r.Ok? && r.value.response == ReservationRef(id) && r.value.store.slots == s.slots && r.value.store.outbox == s.outbox
      && r.value.store.reservations == s.reservations[id := s.reservations[id].(status := Cancelled)]
  {
    assert s.outbox + [] == s.outbox;
  }
}
