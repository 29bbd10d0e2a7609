/**
 What each operation of the reservation pipeline does to the tables, as functions.
 `HotelDatabase` carries the same operations in the source's own step-by-step form.
 */
module Reservations {
  import opened Outcomes
  import opened Slots
  import opened Store
  import opened Text

  // ---------------------------------------------------------------- inventory

  ghost function OnWindow(s: Store, w: Window, c: Change): Result<Step> {
    var slots :- Apply(s.slots, w, c);
    Ok(Step(s.(slots := slots), WindowDone(w.end - w.start)))
  }

  ghost function SellBody(s: Store, w: Window, quantity: int): Result<Step> {
    var done :- OnWindow(s, w, Consume(Sold, quantity));
    Ok(done.(store := done.store.(sales := done.store.sales + [Sale(w, quantity)])))
  }

  /** `InventoryService.sell`: a direct sale, without a hold. */
  ghost function Sell(s: Store, w: Window, quantity: int, key: string): Result<Step> {
    Run(s, RecordId(w.cell.tenant, SellScope, key), WindowPayload(w, quantity),
        (t: Store) => SellBody(t, w, quantity))
  }

  ghost function Hold(s: Store, w: Window, quantity: int, key: string): Result<Step> {
    Run(s, RecordId(w.cell.tenant, HoldScope, key), WindowPayload(w, quantity),
        (t: Store) => OnWindow(t, w, Consume(Reserved, quantity)))
  }

  ghost function ConvertHold(s: Store, w: Window, quantity: int, key: string): Result<Step> {
    Run(s, RecordId(w.cell.tenant, ConvertScope, key), WindowPayload(w, quantity),
        (t: Store) => OnWindow(t, w, Convert(quantity)))
  }

  // ---------------------------------------------------------------- lines, one after the other

  /** Only the slots and the idempotency records differ. */
  predicate OnlyInventory(s: Store, t: Store) {
    t.reservations == s.reservations && t.bookings == s.bookings && t.sales == s.sales && t.outbox == s.outbox
  }

  /** Hold the lines, the first of them being line `n` of the request. */
  ghost function HoldLines(s: Store, tenant: int, property: int, lines: seq<Line>, key: string, n: nat): (r: Result<Store>)
    ensures r.Ok? ==> OnlyInventory(s, r.value)
    decreases lines
  {
    if lines == [] then Ok(s)
    else
      var held :- Hold(s, lines[0].Stay(tenant, property), lines[0].quantity, LineKey(key, n));
      HoldLines(held.store, tenant, property, lines[1..], key, n + 1)
  }

  ghost function ReleaseLines(s: Store, tenant: int, property: int, lines: seq<Line>): (r: Result<Store>)
    ensures r.Ok? ==> OnlyInventory(s, r.value)
    decreases lines
  {
    if lines == [] then Ok(s)
    else
      var slots :- Apply(s.slots, lines[0].Stay(tenant, property), Release(Reserved, lines[0].quantity));
      ReleaseLines(s.(slots := slots), tenant, property, lines[1..])
  }

  ghost function ConvertLines(s: Store, id: nat, tenant: int, property: int, lines: seq<Line>, n: nat): (r: Result<Store>)
    ensures r.Ok? ==> OnlyInventory(s, r.value)
    decreases lines
  {
    if lines == [] then Ok(s)
    else
      var sold :- ConvertHold(s, lines[0].Stay(tenant, property), lines[0].quantity, ConvertKey(id, n));
      ConvertLines(sold.store, id, tenant, property, lines[1..], n + 1)
  }

  // ---------------------------------------------------------------- reservations

  /** `WorkflowRunner.run` on a reservation: the status moves and its event is recorded, together. */
  function Move(s: Store, id: nat, t: Transition): Result<Store>
    requires id < |s.reservations|
  {
    match t.From(s.reservations[id].status)
    case None => Err(TransitionNotAllowed)
    case Some(status) =>
      Ok(s.(reservations := s.reservations[id := s.reservations[id].(status := status)],
            outbox := s.outbox + match t.Event() case None => [] case Some(name) => [OutboxRow(name, id)]))
  }

  predicate Found(s: Store, tenant: int, id: int) {
    0 <= id < |s.reservations| && s.reservations[id].tenant == tenant
  }

  datatype ReserveRequest = ReserveRequest(
    tenant: int, property: int, guest: int, parties: int, lines: seq<Line>, holdMinutes: int,
    quoted: bool)  // whether every line could be priced and the deposit policy resolved
  {
    function Payload(): Payload {
      ReservePayload(property, guest, parties, lines)
    }

    /** The CHECK constraints on the rows a reservation inserts. */
    predicate Storable() {
      holdMinutes > 0 && forall i :: 0 <= i < |lines| ==> lines[i].Storable()
    }
  }

  ghost function ReserveBody(s: Store, req: ReserveRequest, key: string, now: int): Result<Step> {
    if !req.quoted then Err(QuoteRejected)
    else if !req.Storable() then Err(IntegrityError)
    else
      var row := Reservation(req.tenant, req.property, Draft, now + req.holdMinutes, req.lines);
      var held :- HoldLines(s.(reservations := s.reservations + [row]), req.tenant, req.property, req.lines, key, 1);
      var moved :- Move(held, |s.reservations|, ToHeld);
      Ok(Step(moved, ReservationRef(|s.reservations|)))
  }

  /** `ReservationService.reserve`. */
  ghost function Reserve(s: Store, req: ReserveRequest, key: string, now: int): Result<Step> {
    if req.lines == [] then Err(InvalidRequest)
    else Run(s, RecordId(req.tenant, ReserveScope, key), req.Payload(),
             (t: Store) => ReserveBody(t, req, key, now))
  }

  /** `ReservationService.expire`: settled reservations are left alone. */
  ghost function Expire(s: Store, id: int): Result<Step> {
    if !(0 <= id < |s.reservations|) then Err(DoesNotExist)
    else
      var r := s.reservations[id];
      if !r.status.Unsettled() then Ok(Step(s, ReservationRef(id)))
      else
        var released :- ReleaseLines(s, r.tenant, r.property, r.lines);
        var moved :- Move(released, id, ToExpired);
        Ok(Step(moved, ReservationRef(id)))
  }

  ghost function CancelBody(s: Store, tenant: int, id: int): Result<Step> {
    if !Found(s, tenant, id) then Err(DoesNotExist)
    else
      var r := s.reservations[id];
      if r.status.Unsettled() then
        var released :- ReleaseLines(s, r.tenant, r.property, r.lines);
        var moved :- Move(released, id, ToCancelled);
        Ok(Step(moved, ReservationRef(id)))
      else if r.status.Draft? then
        var moved :- Move(s, id, ToCancelled);
        Ok(Step(moved, ReservationRef(id)))
      else Ok(Step(s, ReservationRef(id)))
  }

  /** `ReservationService.cancel`. */
  ghost function Cancel(s: Store, tenant: int, id: int, key: string): Result<Step> {
    Run(s, RecordId(tenant, CancelScope, key), ReservationPayload(id),
        (t: Store) => CancelBody(t, tenant, id))
  }

  /** The request-time guard: an unsettled reservation past its expiry cannot be acted on. */
  predicate Overdue(r: Reservation, now: int) {
    r.status.Unsettled() && r.holdExpiry < now
  }

  /** `ReservationService.request_payment`. */
  ghost function RequestPayment(s: Store, tenant: int, id: int, now: int): Result<Step> {
    if !Found(s, tenant, id) then Err(DoesNotExist)
    else if Overdue(s.reservations[id], now) then Err(TransitionNotAllowed)
    else
      var moved :- Move(s, id, ToAwaitingPayment);
      Ok(Step(moved, ReservationRef(id)))
  }

  /** `ReservationService.convert`. */
  ghost function ConvertReservation(s: Store, tenant: int, id: int, now: int): (t: Result<Store>)
    ensures t.Ok? ==> 0 <= id < |t.value.reservations|
  {
    if !Found(s, tenant, id) then Err(DoesNotExist)
    else
      var r := s.reservations[id];
      if Overdue(r, now) then Err(TransitionNotAllowed)
      else if !r.status.AwaitingPayment? then Err(TransitionNotAllowed)
      else
        var sold :- ConvertLines(s, id, r.tenant, r.property, r.lines, 1);
        Move(sold, id, ToConverted)
  }

  // ---------------------------------------------------------------- bookings

  /** One booking line per unit of every reservation line, numbered on from `n`. */
  function FanOut(lines: seq<Line>, n: nat): seq<BookingLine> {
    if lines == [] then []
    else
      Copies(lines[0], lines[0].quantity, n) +
      FanOut(lines[1..], n + if lines[0].quantity > 0 then lines[0].quantity else 0)
  }

  /** `count` booking lines of one reservation line, numbered n+1, n+2, ... */
  function Copies(line: Line, count: int, n: nat): (copies: seq<BookingLine>)
    ensures |copies| == if count > 0 then count else 0
  {
    seq(if count > 0 then count else 0,
        i requires 0 <= i => BookingLine(n + i + 1, line.roomType, line.arrival, line.departure))
  }

  function FirstArrival(lines: seq<Line>): int
    requires lines != []
  {
    if |lines| == 1 then lines[0].arrival
    else var rest := FirstArrival(lines[1..]); if lines[0].arrival < rest then lines[0].arrival else rest
  }

  function LastDeparture(lines: seq<Line>): int
    requires lines != []
  {
    if |lines| == 1 then lines[0].departure
    else var rest := LastDeparture(lines[1..]); if lines[0].departure > rest then lines[0].departure else rest
  }

  predicate Booked(s: Store, reservation: nat) {
    exists b :: 0 <= b < |s.bookings| && s.bookings[b].reservation == reservation
  }

  ghost function ConfirmBody(s: Store, tenant: int, id: int, now: int): Result<Step> {
    var t :- ConvertReservation(s, tenant, id, now);
    var r := t.reservations[id];
    if r.lines == [] then Err(InvalidRequest)  // min() of no arrivals
    else
      var arrival, departure := FirstArrival(r.lines), LastDeparture(r.lines);
      if Booked(t, id) || departure <= arrival then Err(IntegrityError)
      else
        var booking := Booking(r.tenant, r.property, id, Confirmed, arrival, departure, FanOut(r.lines, 0));
        Ok(Step(t.(bookings := t.bookings + [booking],
                   outbox := t.outbox + [OutboxRow(BookingConfirmed, |t.bookings|)]),
                BookingRef(|t.bookings|)))
  }

  /** `BookingService.confirm`. */
  ghost function Confirm(s: Store, tenant: int, id: int, key: string, now: int): Result<Step> {
    Run(s, RecordId(tenant, ConfirmScope, key), ReservationPayload(id),
        (t: Store) => ConfirmBody(t, tenant, id, now))
  }

  // ---------------------------------------------------------------- transactions and runs

  datatype Operation =
    | InitializeHorizon(window: Window, total: int)
    | AdjustOutOfService(window: Window, delta: int)
    | DirectSale(window: Window, quantity: int, key: string)
    | ReserveLines(req: ReserveRequest, key: string)
    | AskPayment(tenant: int, id: int)
    | CancelHold(tenant: int, id: int, key: string)
    | ExpireHold(id: int)
    | ConfirmBooking(tenant: int, id: int, key: string)

  /** One transaction at time `now`: its new tables and response, or the exception it raises. */
  ghost function Perform(s: Store, op: Operation, now: int): Result<Step> {
    match op
    case InitializeHorizon(w, total) =>
      var slots :- OpenHorizon(s.slots, w, total);
      Ok(Step(s.(slots := slots), WindowDone(w.end - w.start)))
    case AdjustOutOfService(w, delta) => OnWindow(s, w, OutOfService(delta))
    case DirectSale(w, quantity, key) => Sell(s, w, quantity, key)
    case ReserveLines(req, key) => Reserve(s, req, key, now)
    case AskPayment(tenant, id) => RequestPayment(s, tenant, id, now)
    case CancelHold(tenant, id, key) => Cancel(s, tenant, id, key)
    case ExpireHold(id) => Expire(s, id)
    case ConfirmBooking(tenant, id, key) => Confirm(s, tenant, id, key, now)
  }

  /** A failed transaction is rolled back. */
  ghost function Next(s: Store, op: Operation, now: int): Store {
    var r := Perform(s, op, now);
    if r.Ok? then r.value.store else s
  }

  datatype Event = Event(op: Operation, now: int)

  /** The tables after a whole run. */
  ghost function Execute(s: Store, run: seq<Event>): Store {
    if run == [] then s
    else
      var before := Execute(s, run[..|run| - 1]);
      Next(before, run[|run| - 1].op, run[|run| - 1].now)
  }
}
