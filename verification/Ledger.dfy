/**
 The joint invariant of slots, idempotency records, reservations, bookings and outbox,
 and its preservation by every operation, hence over every run.
 */
module Ledger {
  import opened Outcomes
  import opened Slots
  import opened Store
  import opened Text
  import opened Reservations
  import opened Lines

  // ---------------------------------------------------------------- the books

  datatype Book = HoldBook | SoldBook

  function Entered(book: Book, status: Status): bool {
    match book
    case HoldBook => status.Unsettled()
    case SoldBook => status.Converted?
  }

  function Entry(r: Reservation, book: Book, k: SlotKey): int {
    if Entered(book, r.status) then Units(r.lines, r.tenant, r.property, k) else 0
  }

  /** Units of one night over all reservations entered in a book. */
  function Total(rs: seq<Reservation>, book: Book, k: SlotKey): int {
    if rs == [] then 0 else Total(rs[..|rs| - 1], book, k) + Entry(rs[|rs| - 1], book, k)
  }

  /** Units of one night over all direct sales. */
  function SalesTotal(sales: seq<Sale>, k: SlotKey): int {
    if sales == [] then 0
    else
      SalesTotal(sales[..|sales| - 1], k) +
      (if sales[|sales| - 1].window.Covers(k) then sales[|sales| - 1].quantity else 0)
  }

  /** Booking lines of one room type present on one night. */
  function Present(lines: seq<BookingLine>, roomType: int, night: int): nat {
    if lines == [] then 0
    else
      (if lines[0].roomType == roomType && lines[0].arrival <= night < lines[0].departure then 1 else 0) +
      Present(lines[1..], roomType, night)
  }

  /** Booking lines of one night over all bookings. */
  function BookedUnits(bookings: seq<Booking>, k: SlotKey): nat {
    if bookings == [] then 0
    else
      var b := bookings[|bookings| - 1];
      BookedUnits(bookings[..|bookings| - 1], k) +
      if b.tenant == k.cell.tenant && b.property == k.cell.property then Present(b.lines, k.cell.roomType, k.night) else 0
  }

  lemma {:induction false} PresentConcat(a: seq<BookingLine>, b: seq<BookingLine>, roomType: int, night: int)
    ensures Present(a + b, roomType, night) == Present(a, roomType, night) + Present(b, roomType, night)
  {
    if a == [] {
      assert a + b == b;
    } else {
      assert (a + b)[1..] == a[1..] + b;
      PresentConcat(a[1..], b, roomType, night);
    }
  }

  lemma {:induction false} PresentCopies(line: Line, count: nat, n: nat, roomType: int, night: int)
    ensures Present(Copies(line, count, n), roomType, night) ==
            if line.roomType == roomType && line.arrival <= night < line.departure then count else 0
  {
    if count > 0 {
      assert Copies(line, count, n)[1..] == Copies(line, count - 1, n + 1);
      PresentCopies(line, count - 1, n + 1, roomType, night);
    }
  }

  /** The fan-out puts on every night exactly the units the reservation lines sold there. */
  lemma {:induction false} PresentFanOut(lines: seq<Line>, n: nat, tenant: int, property: int, k: SlotKey)
    requires Storable(lines) && k.cell.tenant == tenant && k.cell.property == property
    ensures Present(FanOut(lines, n), k.cell.roomType, k.night) == Units(lines, tenant, property, k)
  {
    if lines != [] {
      assert lines[0].Storable();
      PresentCopies(lines[0], lines[0].quantity, n, k.cell.roomType, k.night);
      PresentFanOut(lines[1..], n + lines[0].quantity, tenant, property, k);
      PresentConcat(Copies(lines[0], lines[0].quantity, n), FanOut(lines[1..], n + lines[0].quantity),
                    k.cell.roomType, k.night);
    }
  }

  lemma {:induction false} NoUnitsElsewhere(lines: seq<Line>, tenant: int, property: int, k: SlotKey)
    requires k.cell.tenant != tenant || k.cell.property != property
    ensures Units(lines, tenant, property, k) == 0
  {
    if lines != [] { NoUnitsElsewhere(lines[1..], tenant, property, k); }
  }

  lemma BookedUnitsOf(r: Reservation, id: nat, k: SlotKey)
    requires r.lines != [] && Storable(r.lines)
    ensures (if r.tenant == k.cell.tenant && r.property == k.cell.property
             then Present(BookingOf(r, id).lines, k.cell.roomType, k.night) else 0)
         == Units(r.lines, r.tenant, r.property, k)
  {
    if r.tenant == k.cell.tenant && r.property == k.cell.property {
      PresentFanOut(r.lines, 0, r.tenant, r.property, k);
    } else {
      NoUnitsElsewhere(r.lines, r.tenant, r.property, k);
    }
  }

  /** Line numbers run 1..N with N the sum of the quantities. */
  lemma {:induction false} FanOutNumbered(lines: seq<Line>, n: nat)
    requires Storable(lines)
    ensures |FanOut(lines, n)| == Quantities(lines)
    ensures forall i :: 0 <= i < |FanOut(lines, n)| ==> FanOut(lines, n)[i].lineNo == n + i + 1
  {
    if lines != [] {
      assert lines[0].Storable();
      FanOutNumbered(lines[1..], n + lines[0].quantity);
    }
  }

  function Quantities(lines: seq<Line>): int {
    if lines == [] then 0 else lines[0].quantity + Quantities(lines[1..])
  }

  lemma TotalAppend(rs: seq<Reservation>, r: Reservation, book: Book, k: SlotKey)
    ensures Total(rs + [r], book, k) == Total(rs, book, k) + Entry(r, book, k)
  {
    assert (rs + [r])[..|rs|] == rs;
  }

  lemma {:induction false} TotalUpdate(rs: seq<Reservation>, i: nat, r: Reservation, book: Book, k: SlotKey)
    requires i < |rs|
    ensures Total(rs[i := r], book, k) == Total(rs, book, k) - Entry(rs[i], book, k) + Entry(r, book, k)
  {
    var last := |rs| - 1;
    if i == last {
      assert rs[i := r][..last] == rs[..last];
    } else {
      assert rs[i := r][..last] == rs[..last][i := r];
      TotalUpdate(rs[..last], i, r, book, k);
    }
  }

  ghost predicate ValidLines(r: Reservation) {
    r.lines != [] && Storable(r.lines)
  }

  lemma {:induction false} EntryWithinTotal(rs: seq<Reservation>, i: nat, book: Book, k: SlotKey)
    requires i < |rs| && forall j :: 0 <= j < |rs| ==> ValidLines(rs[j])
    ensures 0 <= Entry(rs[i], book, k) <= Total(rs, book, k)
    decreases |rs|
  {
    var last := |rs| - 1;
    UnitsNonNegative(rs[last].lines, rs[last].tenant, rs[last].property, k);
    if i < last {
      EntryWithinTotal(rs[..last], i, book, k);
    } else if last > 0 {
      EntryWithinTotal(rs[..last], 0, book, k);
    }
  }

  // ---------------------------------------------------------------- the invariant

  /** The nights of every reservation and direct sale have rows; no draft is ever committed. */
  ghost predicate Sound(s: Store) {
    && (forall i :: 0 <= i < |s.reservations| ==> SoundRow(s.slots, s.reservations[i]))
    && (forall i :: 0 <= i < |s.sales| ==> Open(s.slots, s.sales[i].window))
  }

  ghost predicate SoundRow(slots: SlotTable, r: Reservation) {
    ValidLines(r) && !r.status.Draft? && AllOpen(slots, r.tenant, r.property, r.lines)
  }

  /** The per-night counters are the sums over the reservations and direct sales, and what
      the converted reservations sold is what has been fanned out into booking lines. */
  ghost predicate Conserved(s: Store) {
    && (forall k :: k in s.slots ==>
          s.slots[k].reserved == Total(s.reservations, HoldBook, k) &&
          s.slots[k].sold == Total(s.reservations, SoldBook, k) + SalesTotal(s.sales, k))
    && (forall k :: BookedUnits(s.bookings, k) == Total(s.reservations, SoldBook, k))
  }

  /** Records are complete, and the nested ones exist only beneath their owners. */
  ghost predicate Guarded(s: Store) {
    && (forall id :: id in s.records ==> s.records[id].Completed?)
    && (forall t, key, n: nat :: RecordId(t, HoldScope, LineKey(key, n)) in s.records ==>
          RecordId(t, ReserveScope, key) in s.records)
    && (forall t, id: nat, n: nat :: RecordId(t, ConvertScope, ConvertKey(id, n)) in s.records ==>
          id < |s.reservations| && s.reservations[id].status.Converted?)
  }

  ghost predicate FannedOut(b: Booking, r: Reservation) {
    && r.status.Converted? && b.status.Confirmed?
    && b.tenant == r.tenant && b.property == r.property
    && r.lines != [] && b.lines == FanOut(r.lines, 0)
    && b.arrival == FirstArrival(r.lines) && b.departure == LastDeparture(r.lines)
  }

  /** Bookings and converted reservations are in one-to-one correspondence. */
  ghost predicate Matched(s: Store) {
    && (forall b :: 0 <= b < |s.bookings| ==>
          s.bookings[b].reservation < |s.reservations| &&
          FannedOut(s.bookings[b], s.reservations[s.bookings[b].reservation]))
    && (forall b, c :: 0 <= b < c < |s.bookings| ==> s.bookings[b].reservation != s.bookings[c].reservation)
    && (forall i :: 0 <= i < |s.reservations| && s.reservations[i].status.Converted? ==> Booked(s, i))
  }

  /** How often an event must be in the outbox. */
  function Due(s: Store, row: OutboxRow): nat {
    match row.name
    case ReservationCreated => if row.id < |s.reservations| then 1 else 0
    case ReservationExpired => if row.id < |s.reservations| && s.reservations[row.id].status.Expired? then 1 else 0
    case ReservationConverted => if row.id < |s.reservations| && s.reservations[row.id].status.Converted? then 1 else 0
    case BookingConfirmed => if row.id < |s.bookings| then 1 else 0
  }

  /** The outbox holds each event exactly once for the state change that caused it. */
  ghost predicate Published(s: Store) {
    forall row :: multiset(s.outbox)[row] == Due(s, row)
  }

  ghost predicate Inv(s: Store) {
    AllGood(s.slots) && Sound(s) && Conserved(s) && Guarded(s) && Matched(s) && Published(s)
  }

  // ---------------------------------------------------------------- what the invariant buys one operation

  /** A reservation that is on hold really is: its units are within `reserved` on every night. */
  lemma UnsettledIsOnHold(s: Store, id: nat)
    requires Inv(s) && id < |s.reservations| && s.reservations[id].status.Unsettled()
    ensures var r := s.reservations[id]; OnHold(s.slots, r.tenant, r.property, r.lines)
  {
    var r := s.reservations[id];
    forall k | k in s.slots ensures Units(r.lines, r.tenant, r.property, k) <= s.slots[k].reserved {
      EntryWithinTotal(s.reservations, id, HoldBook, k);
    }
  }

  /** A first-time request finds none of its line keys used. */
  lemma FirstReserveHasFreshKeys(s: Store, tenant: int, key: string)
    requires Guarded(s) && RecordId(tenant, ReserveScope, key) !in s.records
    ensures FreshLineKeys(s.records, tenant, key, 1)
  {
  }

  // ---------------------------------------------------------------- effects

  /** The tables after a first-time successful `reserve`. */
  ghost predicate AfterReserve(s: Store, t: Store, req: ReserveRequest, key: string, now: int) {
    && t.slots == Shifted(s.slots, Holding, req.tenant, req.property, req.lines)
    && t.reservations == s.reservations + [Reservation(req.tenant, req.property, Held, now + req.holdMinutes, req.lines)]
    && t.bookings == s.bookings && t.sales == s.sales
    && t.outbox == s.outbox + [OutboxRow(ReservationCreated, |s.reservations|)]
    && (forall id :: id in s.records ==> id in t.records && t.records[id] == s.records[id])
    && RecordId(req.tenant, ReserveScope, key) in t.records
    && (forall id :: id in t.records && id !in s.records ==>
          t.records[id].Completed? &&
          (id == RecordId(req.tenant, ReserveScope, key) ||
           exists m: nat :: m >= 1 && id == RecordId(req.tenant, HoldScope, LineKey(key, m))))
  }

  lemma ReserveBodyExact(s: Store, req: ReserveRequest, key: string, now: int)
    requires AllGood(s.slots) && FreshLineKeys(s.records, req.tenant, key, 1) && Storable(req.lines)
    requires req.quoted && req.Storable()
    ensures var r := ReserveBody(s, req, key, now);
      && (r.Ok? <==> AllOpen(s.slots, req.tenant, req.property, req.lines) &&
                     Fits(s.slots, req.tenant, req.property, req.lines))
      && (r.Ok? ==>
            var t := r.value.store;
            && t.slots == Shifted(s.slots, Holding, req.tenant, req.property, req.lines)
            && t.reservations == s.reservations +
                 [Reservation(req.tenant, req.property, Held, now + req.holdMinutes, req.lines)]
            && t.bookings == s.bookings && t.sales == s.sales
            && t.outbox == s.outbox + [OutboxRow(ReservationCreated, |s.reservations|)]
            && r.value.response == ReservationRef(|s.reservations|)
            && AllGood(t.slots)
            && RecordsAdded(s.records, t.records, req.tenant, HoldScope)
            && OwnLineKeys(s.records, t.records, req.tenant, key, 1))
  {
    var row := Reservation(req.tenant, req.property, Draft, now + req.holdMinutes, req.lines);
    var s2 := s.(reservations := s.reservations + [row]);
    HoldLinesExact(s2, req.tenant, req.property, req.lines, key, 1);
    var held := HoldLines(s2, req.tenant, req.property, req.lines, key, 1);
    var r := ReserveBody(s, req, key, now);
    if held.Ok? {
      var h := held.value;
      var moved := Move(h, |s.reservations|, ToHeld);
      var final := Reservation(req.tenant, req.property, Held, now + req.holdMinutes, req.lines);
      assert row.(status := Held) == final;
      assert h.reservations[|s.reservations| := final] == s.reservations + [final];
      assert r == Ok(Step(moved.value, ReservationRef(|s.reservations|)));
    }
  }

  /**
   A first-time `reserve` succeeds exactly when the request is well formed and priced, every night
   is open, and its lines *together* fit every night; then it holds exactly its own units.
   In particular no line was answered from a stale idempotency record.
   */
  lemma ReserveExact(s: Store, req: ReserveRequest, key: string, now: int)
    requires Inv(s) && RecordId(req.tenant, ReserveScope, key) !in s.records
    ensures var r := Reserve(s, req, key, now);
      && (r.Ok? <==> req.lines != [] && req.quoted && req.Storable() &&
                     AllOpen(s.slots, req.tenant, req.property, req.lines) &&
                     Fits(s.slots, req.tenant, req.property, req.lines))
      && (r.Ok? ==> AfterReserve(s, r.value.store, req, key, now) && AllGood(r.value.store.slots))
  {
    if req.lines != [] && req.quoted && req.Storable() {
      FirstReserveHasFreshKeys(s, req.tenant, key);
      var id := RecordId(req.tenant, ReserveScope, key);
      ReserveBodyExact(s.(records := s.records[id := InProgress(req.Payload())]), req, key, now);
    }
  }

  /** The tables after an unsettled reservation gave back, or sold, all its units. */
  ghost predicate AfterSettling(s: Store, t: Store, id: nat, kind: Kind, status: Status)
    requires id < |s.reservations|
  {
    var r := s.reservations[id];
    && t.slots == Shifted(s.slots, kind, r.tenant, r.property, r.lines)
    && t.reservations == s.reservations[id := r.(status := status)]
    && t.sales == s.sales
  }

  /** What settling takes: an unsettled row with storable lines, whose units are on hold on every night. */
  ghost predicate Ready(s: Store, id: int) {
    && 0 <= id < |s.reservations| && AllGood(s.slots)
    && var r := s.reservations[id];
       r.status.Unsettled() && SoundRow(s.slots, r) && OnHold(s.slots, r.tenant, r.property, r.lines)
  }

  lemma UnsettledIsReady(s: Store, id: nat)
    requires Inv(s) && id < |s.reservations| && s.reservations[id].status.Unsettled()
    ensures Ready(s, id)
  {
    UnsettledIsOnHold(s, id);
    assert SoundRow(s.slots, s.reservations[id]);
  }

  lemma ReadyReleases(s: Store, id: nat, t: Transition)
    requires Ready(s, id) && (t.ToExpired? || t.ToCancelled?)
    ensures var r := s.reservations[id];
      var released := ReleaseLines(s, r.tenant, r.property, r.lines);
      && released.Ok? && Move(released.value, id, t).Ok?
      && var u := Move(released.value, id, t).value;
         && AfterSettling(s, u, id, Releasing, if t.ToExpired? then Expired else Cancelled)
         && AllGood(u.slots) && u.records == s.records && u.bookings == s.bookings
         && u.outbox == s.outbox + (if t.ToExpired? then [OutboxRow(ReservationExpired, id)] else [])
  {
    var r := s.reservations[id];
    ReleaseLinesExact(s, r.tenant, r.property, r.lines);
  }

  /** Giving back an unsettled reservation always succeeds and returns exactly what it held. */
  lemma ReleaseExact(s: Store, id: nat, t: Transition)
    requires Inv(s) && id < |s.reservations| && s.reservations[id].status.Unsettled()
    requires t.ToExpired? || t.ToCancelled?
    ensures var r := s.reservations[id];
      var released := ReleaseLines(s, r.tenant, r.property, r.lines);
      && released.Ok? && Move(released.value, id, t).Ok?
      && var u := Move(released.value, id, t).value;
         && AfterSettling(s, u, id, Releasing, if t.ToExpired? then Expired else Cancelled)
         && AllGood(u.slots) && u.records == s.records && u.bookings == s.bookings
         && u.outbox == s.outbox + (if t.ToExpired? then [OutboxRow(ReservationExpired, id)] else [])
  {
    UnsettledIsReady(s, id);
    ReadyReleases(s, id, t);
  }

  /** From the earliest arrival of the lines to their latest departure. */
  ghost predicate SpansLines(arrival: int, departure: int, lines: seq<Line>) {
    && (forall i :: 0 <= i < |lines| ==> arrival <= lines[i].arrival && lines[i].departure <= departure)
    && (exists i :: 0 <= i < |lines| && lines[i].arrival == arrival)
    && (exists i :: 0 <= i < |lines| && lines[i].departure == departure)
  }

  lemma {:induction false} FirstToLast(lines: seq<Line>)
    requires lines != []
    ensures SpansLines(FirstArrival(lines), LastDeparture(lines), lines)
  {
    if |lines| > 1 {
      var rest := lines[1..];
      FirstToLast(rest);
      var i :| 0 <= i < |rest| && rest[i].arrival == FirstArrival(rest);
      var j :| 0 <= j < |rest| && rest[j].departure == LastDeparture(rest);
      assert lines[i + 1] == rest[i] && lines[j + 1] == rest[j];
      forall k | 0 <= k < |lines| ensures FirstArrival(lines) <= lines[k].arrival && lines[k].departure <= LastDeparture(lines) {
        if k > 0 { assert lines[k] == rest[k - 1]; }
      }
    }
  }

  lemma SpanIsPositive(lines: seq<Line>)
    requires lines != [] && Storable(lines)
    ensures FirstArrival(lines) < LastDeparture(lines)
  {
    FirstToLast(lines);
    assert lines[0].Storable();
  }

  /** When a reservation may be confirmed. */
  predicate Confirmable(s: Store, tenant: int, id: int, now: int) {
    Found(s, tenant, id) && s.reservations[id].status.AwaitingPayment? && now <= s.reservations[id].holdExpiry
  }

  /** The tables after the mutation inside `confirm`. */
  ghost predicate AfterConfirm(s: Store, t: Store, id: nat)
    requires id < |s.reservations|
  {
    && s.reservations[id].lines != [] && AfterSettling(s, t, id, Selling, Converted)
    && t.bookings == s.bookings + [BookingOf(s.reservations[id], id)]
    && t.outbox == s.outbox + [OutboxRow(ReservationConverted, id), OutboxRow(BookingConfirmed, |s.bookings|)]
  }

  lemma ReadyConfirms(u: Store, tenant: int, id: nat, now: int)
    requires Ready(u, id) && Confirmable(u, tenant, id, now)
    requires FreshConvertKeys(u.records, tenant, id, 1) && !Booked(u, id)
    ensures var r := ConfirmBody(u, tenant, id, now);
      && r.Ok? && AfterConfirm(u, r.value.store, id) && AllGood(r.value.store.slots)
      && RecordsAdded(u.records, r.value.store.records, tenant, ConvertScope)
      && OwnConvertKeys(u.records, r.value.store.records, tenant, id, 1)
      && r.value.response == BookingRef(|u.bookings|)
  {
    var r := u.reservations[id];
    ConvertLinesExact(u, id, r.tenant, r.property, r.lines, 1);
    var sold := ConvertLines(u, id, r.tenant, r.property, r.lines, 1).value;
    SpanIsPositive(r.lines);
    var row := r.(status := Converted);
    assert sold.reservations[id := row][id] == row;
    assert ConvertReservation(u, tenant, id, now).Ok?;
    assert u.outbox + [OutboxRow(ReservationConverted, id)] + [OutboxRow(BookingConfirmed, |u.bookings|)]
        == u.outbox + [OutboxRow(ReservationConverted, id), OutboxRow(BookingConfirmed, |u.bookings|)];
  }

  /** An unconverted reservation has neither a booking nor a record of a converted line. */
  lemma UnsettledIsFresh(s: Store, id: nat)
    requires Guarded(s) && Matched(s) && id < |s.reservations| && s.reservations[id].status.Unsettled()
    ensures FreshConvertKeys(s.records, s.reservations[id].tenant, id, 1) && !Booked(s, id)
  {
  }

  /**
   Selling an awaiting reservation that is not overdue always succeeds: neither the inventory,
   nor a stale key, nor the one-booking-per-reservation constraint can get in the way.
   */
  lemma ConfirmBodyExact(s: Store, u: Store, tenant: int, id: int, now: int, outer: RecordId, payload: Payload)
    requires Inv(s) && outer !in s.records && outer.scope == ConfirmScope
    requires u == s.(records := s.records[outer := InProgress(payload)])
    ensures var r := ConfirmBody(u, tenant, id, now);
      && (r.Ok? <==> Confirmable(s, tenant, id, now))
      && (r.Ok? ==>
            && SoundRow(s.slots, s.reservations[id])
            && AfterConfirm(s, r.value.store, id) && AllGood(r.value.store.slots)
            && RecordsAdded(u.records, r.value.store.records, tenant, ConvertScope)
            && OwnConvertKeys(u.records, r.value.store.records, tenant, id, 1)
            && r.value.response == BookingRef(|s.bookings|))
  {
    if Confirmable(s, tenant, id, now) {
      UnsettledIsReady(s, id);
      UnsettledIsFresh(s, id);
      ReadyConfirms(u, tenant, id, now);
    }
  }

  function BookingOf(r: Reservation, id: nat): Booking
    requires r.lines != []
  {
    Booking(r.tenant, r.property, id, Confirmed, FirstArrival(r.lines), LastDeparture(r.lines), FanOut(r.lines, 0))
  }
}
