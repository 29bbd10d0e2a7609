/**
 Every operation keeps the ledger invariant, so it holds after every run.
 */
module LedgerRuns {
  import opened Outcomes
  import opened Slots
  import opened Store
  import opened Text
  import opened Reservations
  import opened Lines
  import opened Ledger
  import opened Effects

  // ---------------------------------------------------------------- counters

  /** Settling moves a reservation's units between the books exactly as it moves the counters. */
  lemma SettlingConserves(s: Store, t: Store, id: nat, kind: Kind, status: Status)
    requires Conserved(s) && id < |s.reservations| && s.reservations[id].status.Unsettled()
    requires AfterSettling(s, t, id, kind, status)
    requires (kind.Releasing? && (status.Expired? || status.Cancelled?)) || (kind.Selling? && status.Converted?)
    requires ValidLines(s.reservations[id])
    requires t.bookings == s.bookings + if kind.Selling? then [BookingOf(s.reservations[id], id)] else []
    ensures Conserved(t)
  {
    forall k
      ensures BookedUnits(t.bookings, k) == Total(t.reservations, SoldBook, k)
      ensures k in t.slots ==> t.slots[k].reserved == Total(t.reservations, HoldBook, k)
      ensures k in t.slots ==> t.slots[k].sold == Total(t.reservations, SoldBook, k) + SalesTotal(t.sales, k)
    {
      SettlingTotals(s.reservations, id, kind, status, k);
      BookingsAfterSettling(s.bookings, t.bookings, s.reservations[id], id, kind, k);
      if k in t.slots { SettlingCounters(s, t, id, kind, status, k); }
    }
  }

  /** What settling does to the totals over the reservations. */
  lemma SettlingTotals(rs: seq<Reservation>, id: nat, kind: Kind, status: Status, k: SlotKey)
    requires id < |rs| && rs[id].status.Unsettled()
    requires (kind.Releasing? && (status.Expired? || status.Cancelled?)) || (kind.Selling? && status.Converted?)
    ensures var r, after := rs[id], rs[id := rs[id].(status := status)];
      var units := Units(r.lines, r.tenant, r.property, k);
      && Total(after, HoldBook, k) == Total(rs, HoldBook, k) - units
      && Total(after, SoldBook, k) == Total(rs, SoldBook, k) + if kind.Selling? then units else 0
  {
    var q := rs[id].(status := status);
    TotalUpdate(rs, id, q, HoldBook, k);
    TotalUpdate(rs, id, q, SoldBook, k);
  }

  /** What it does to the counters of a row. */
  lemma SettlingCounters(s: Store, t: Store, id: nat, kind: Kind, status: Status, k: SlotKey)
    requires id < |s.reservations| && AfterSettling(s, t, id, kind, status) && !kind.Holding? && k in s.slots
    ensures var r := s.reservations[id];
      var units := Units(r.lines, r.tenant, r.property, k);
      && k in t.slots && t.slots[k].reserved == s.slots[k].reserved - units
      && t.slots[k].sold == s.slots[k].sold + if kind.Selling? then units else 0
  {
  }

  lemma BookingsAfterSettling(before: seq<Booking>, after: seq<Booking>, r: Reservation, id: nat, kind: Kind, k: SlotKey)
    requires ValidLines(r)
    requires after == before + if kind.Selling? then [BookingOf(r, id)] else []
    ensures BookedUnits(after, k) ==
            BookedUnits(before, k) + if kind.Selling? then Units(r.lines, r.tenant, r.property, k) else 0
  {
    if kind.Selling? {
      assert after[..|before|] == before && after[|before|] == BookingOf(r, id);
      BookedUnitsOf(r, id, k);
    } else {
      assert after == before;
    }
  }

  lemma ReservingConserves(s: Store, t: Store, row: Reservation)
    requires Conserved(s) && row.status.Held? && t.sales == s.sales
    requires t.slots == Shifted(s.slots, Holding, row.tenant, row.property, row.lines)
    requires t.reservations == s.reservations + [row] && t.bookings == s.bookings
    ensures Conserved(t)
  {
    forall k ensures BookedUnits(t.bookings, k) == Total(t.reservations, SoldBook, k) {
      TotalAppend(s.reservations, row, SoldBook, k);
    }
    forall k | k in t.slots
      ensures t.slots[k].reserved == Total(t.reservations, HoldBook, k)
      ensures t.slots[k].sold == Total(t.reservations, SoldBook, k) + SalesTotal(t.sales, k)
    {
      TotalAppend(s.reservations, row, HoldBook, k);
      TotalAppend(s.reservations, row, SoldBook, k);
    }
  }

  lemma SellingConserves(s: Store, t: Store, w: Window, quantity: int)
    requires Conserved(s) && t.reservations == s.reservations && t.bookings == s.bookings
    requires t.sales == s.sales + [Sale(w, quantity)]
    requires t.slots == Changed(s.slots, w, Consume(Sold, quantity))
    ensures Conserved(t)
  {
    forall k | k in t.slots
      ensures t.slots[k].reserved == Total(t.reservations, HoldBook, k)
      ensures t.slots[k].sold == Total(t.reservations, SoldBook, k) + SalesTotal(t.sales, k)
    {
      assert t.sales[..|s.sales|] == s.sales;
    }
  }

  lemma CoveredIsOpen(slots: SlotTable, w: Window, k: SlotKey)
    requires Open(slots, w)
    ensures w.Covers(k) ==> k in slots
  {
    assert k == SlotKey(k.cell, k.night);
  }

  lemma {:induction false} NothingOnUnopenedNight(slots: SlotTable, rs: seq<Reservation>, k: SlotKey, book: Book)
    requires k !in slots && forall i :: 0 <= i < |rs| ==> SoundRow(slots, rs[i])
    ensures Total(rs, book, k) == 0
    decreases |rs|
  {
    if rs != [] {
      var r := rs[|rs| - 1];
      NothingOnUnopenedNight(slots, rs[..|rs| - 1], k, book);
      NoUnits(slots, r.lines, r.tenant, r.property, k);
    }
  }

  lemma {:induction false} NoUnits(slots: SlotTable, lines: seq<Line>, tenant: int, property: int, k: SlotKey)
    requires k !in slots && AllOpen(slots, tenant, property, lines)
    ensures Units(lines, tenant, property, k) == 0
  {
    if lines != [] {
      CoveredIsOpen(slots, lines[0].Stay(tenant, property), k);
      forall i | 0 <= i < |lines[1..]| ensures Open(slots, lines[1..][i].Stay(tenant, property)) {
        assert lines[1..][i] == lines[i + 1];
      }
      NoUnits(slots, lines[1..], tenant, property, k);
    }
  }

  lemma {:induction false} NoSales(slots: SlotTable, sales: seq<Sale>, k: SlotKey)
    requires k !in slots && forall i :: 0 <= i < |sales| ==> Open(slots, sales[i].window)
    ensures SalesTotal(sales, k) == 0
    decreases |sales|
  {
    if sales != [] {
      NoSales(slots, sales[..|sales| - 1], k);
      CoveredIsOpen(slots, sales[|sales| - 1].window, k);
    }
  }

  lemma OpeningConserves(s: Store, w: Window, total: int)
    requires Sound(s) && Conserved(s) && OpenHorizon(s.slots, w, total).Ok? && AllGood(s.slots)
    ensures var t := s.(slots := OpenHorizon(s.slots, w, total).value); Conserved(t) && AllGood(t.slots)
  {
    var slots := OpenHorizon(s.slots, w, total).value;
    forall k | k in slots && k !in s.slots
      ensures Total(s.reservations, HoldBook, k) == Total(s.reservations, SoldBook, k) == SalesTotal(s.sales, k) == 0
    {
      NothingOnUnopenedNight(s.slots, s.reservations, k, HoldBook);
      NothingOnUnopenedNight(s.slots, s.reservations, k, SoldBook);
      NoSales(s.slots, s.sales, k);
    }
  }

  // ---------------------------------------------------------------- the other tables

  /** Rows stay sound while slots are only added. */
  lemma SoundKept(s: Store, t: Store)
    requires Sound(s) && s.slots.Keys <= t.slots.Keys
    requires forall i :: 0 <= i < |t.sales| ==>
      (i < |s.sales| && t.sales[i] == s.sales[i]) || Open(t.slots, t.sales[i].window)
    requires forall i :: 0 <= i < |t.reservations| ==>
      (i < |s.reservations| && t.reservations[i].(status := Draft) == s.reservations[i].(status := Draft) &&
       !t.reservations[i].status.Draft?)
      || SoundRow(t.slots, t.reservations[i])
    ensures Sound(t)
  {
    forall i | 0 <= i < |t.reservations| ensures SoundRow(t.slots, t.reservations[i]) {
      if i < |s.reservations| && t.reservations[i].(status := Draft) == s.reservations[i].(status := Draft) {
        assert SoundRow(s.slots, s.reservations[i]);
        assert t.reservations[i].lines == s.reservations[i].lines;
      }
    }
  }

  /** A completed record that, if nested, has its owner. */
  ghost predicate OwnedRecord(t: Store, i: RecordId)
    requires i in t.records
  {
    && t.records[i].Completed?
    && match i.scope
       case HoldScope =>
         exists key, m: nat :: i.key == LineKey(key, m) && RecordId(i.tenant, ReserveScope, key) in t.records
       case ConvertScope =>
         exists id: nat, m: nat :: i.key == ConvertKey(id, m) && id < |t.reservations| &&
                                   t.reservations[id].status.Converted?
       case _ => true
  }

  /** New hold records come with their owner, new conversion records with their conversion. */
  lemma GuardedKept(s: Store, t: Store)
    requires Guarded(s) && |s.reservations| <= |t.reservations|
    requires forall i :: 0 <= i < |s.reservations| && s.reservations[i].status.Converted? ==>
      t.reservations[i].status.Converted?
    requires forall i :: i in s.records ==> i in t.records && t.records[i] == s.records[i]
    requires forall i :: i in t.records && i !in s.records ==> OwnedRecord(t, i)
    ensures Guarded(t)
  {
    forall tenant, key, n: nat | RecordId(tenant, HoldScope, LineKey(key, n)) in t.records
      ensures RecordId(tenant, ReserveScope, key) in t.records
    {
      var i := RecordId(tenant, HoldScope, LineKey(key, n));
      if i !in s.records {
        var key', m: nat :| i.key == LineKey(key', m) && RecordId(tenant, ReserveScope, key') in t.records;
        LineKeyInjective(key, n, key', m);
      }
    }
    forall tenant, id: nat, n: nat | RecordId(tenant, ConvertScope, ConvertKey(id, n)) in t.records
      ensures id < |t.reservations| && t.reservations[id].status.Converted?
    {
      var i := RecordId(tenant, ConvertScope, ConvertKey(id, n));
      if i !in s.records {
        var id': nat, m: nat :| i.key == ConvertKey(id', m) && id' < |t.reservations| &&
                                t.reservations[id'].status.Converted?;
        ConvertKeyInjective(id, n, id', m);
      }
    }
  }

  /** One reservation settled without converting, or still unsettled: bookings stay matched. */
  lemma MatchedKept(s: Store, t: Store)
    requires Matched(s) && t.bookings == s.bookings && |s.reservations| <= |t.reservations|
    requires forall i :: 0 <= i < |s.reservations| && s.reservations[i].status.Converted? ==>
      t.reservations[i] == s.reservations[i]
    requires forall i :: 0 <= i < |t.reservations| && t.reservations[i].status.Converted? ==>
      i < |s.reservations| && s.reservations[i].status.Converted?
    ensures Matched(t)
  {
    forall i | 0 <= i < |t.reservations| && t.reservations[i].status.Converted? ensures Booked(t, i) {
      assert Booked(s, i);
    }
  }

  // ---------------------------------------------------------------- each operation

  lemma ReserveKeepsInv(s: Store, req: ReserveRequest, key: string, now: int)
    requires Inv(s)
    ensures Inv(Next(s, ReserveLines(req, key), now))
  {
    var r := Reserve(s, req, key, now);
    if r.Ok? && RecordId(req.tenant, ReserveScope, key) !in s.records {
      ReserveExact(s, req, key, now);
      ReservedKeepsInv(s, r.value.store, req, key, now);
    }
  }

  lemma ReservedKeepsInv(s: Store, t: Store, req: ReserveRequest, key: string, now: int)
    requires Inv(s) && AfterReserve(s, t, req, key, now) && AllGood(t.slots)
    requires req.lines != [] && req.Storable() && AllOpen(s.slots, req.tenant, req.property, req.lines)
    ensures Inv(t)
  {
    ReservingConserves(s, t, Reservation(req.tenant, req.property, Held, now + req.holdMinutes, req.lines));
    SoundKept(s, t);
    GuardedKept(s, t);
    MatchedKept(s, t);
  }

  lemma ExpireKeepsInv(s: Store, id: int, now: int)
    requires Inv(s)
    ensures Inv(Next(s, ExpireHold(id), now))
  {
    if 0 <= id < |s.reservations| && s.reservations[id].status.Unsettled() {
      ReleaseExact(s, id, ToExpired);
      SettledKeepsInv(s, Next(s, ExpireHold(id), now), id, Expired);
    }
  }

  /** Inv after an unsettled reservation was released, whatever unrelated records came with it. */
  lemma SettledKeepsInv(s: Store, t: Store, id: nat, status: Status)
    requires Inv(s) && id < |s.reservations| && s.reservations[id].status.Unsettled()
    requires status.Expired? || status.Cancelled?
    requires AfterSettling(s, t, id, Releasing, status) && AllGood(t.slots)
    requires t.bookings == s.bookings
    requires t.outbox == s.outbox + (if status.Expired? then [OutboxRow(ReservationExpired, id)] else [])
    requires forall i :: i in s.records ==> i in t.records && t.records[i] == s.records[i]
    requires forall i :: i in t.records && i !in s.records ==> t.records[i].Completed? && i.scope == CancelScope
    ensures Inv(t)
  {
    SettlingConserves(s, t, id, Releasing, status);
    SoundKept(s, t);
    GuardedKept(s, t);
    MatchedKept(s, t);
    SettledKeepsPublished(s, t, id, status);
  }

  lemma SettledKeepsPublished(s: Store, t: Store, id: nat, status: Status)
    requires Published(s) && id < |s.reservations| && s.reservations[id].status.Unsettled()
    requires status.Expired? || status.Cancelled?
    requires t.reservations == s.reservations[id := s.reservations[id].(status := status)] && t.bookings == s.bookings
    requires t.outbox == s.outbox + (if status.Expired? then [OutboxRow(ReservationExpired, id)] else [])
    ensures Published(t)
  {
  }

  lemma CancelKeepsInv(s: Store, tenant: int, id: int, key: string, now: int)
    requires Inv(s)
    ensures Inv(Next(s, CancelHold(tenant, id, key), now))
  {
    if RecordId(tenant, CancelScope, key) !in s.records && Found(s, tenant, id) {
      CancelExact(s, tenant, id, key);
      var t := Next(s, CancelHold(tenant, id, key), now);
      if s.reservations[id].status.Unsettled() {
        SettledKeepsInv(s, t, id, Cancelled);
      } else {
        OnlyRecordsKeepInv(s, t);
      }
    }
  }

  /** A step that only adds a completed record of its own. */
  lemma OnlyRecordsKeepInv(s: Store, t: Store)
    requires Inv(s) && t == s.(records := t.records)
    requires forall i :: i in s.records ==> i in t.records && t.records[i] == s.records[i]
    requires forall i :: i in t.records && i !in s.records ==> t.records[i].Completed? && i.scope == CancelScope
    ensures Inv(t)
  {
    GuardedKept(s, t);
  }

  /** A held reservation stays in the same books while it awaits payment. */
  lemma AskPaymentConserves(s: Store, t: Store, id: nat)
    requires Conserved(s) && id < |s.reservations| && s.reservations[id].status.Held?
    requires t == s.(reservations := s.reservations[id := s.reservations[id].(status := AwaitingPayment)])
    ensures Conserved(t)
  {
    forall k
      ensures Total(t.reservations, HoldBook, k) == Total(s.reservations, HoldBook, k)
      ensures Total(t.reservations, SoldBook, k) == Total(s.reservations, SoldBook, k)
    {
      TotalUpdate(s.reservations, id, s.reservations[id].(status := AwaitingPayment), HoldBook, k);
      TotalUpdate(s.reservations, id, s.reservations[id].(status := AwaitingPayment), SoldBook, k);
    }
  }

  lemma AskPaymentExact(s: Store, tenant: int, id: int, now: int)
    ensures var t := Next(s, AskPayment(tenant, id), now);
      t == s || (0 <= id < |s.reservations| && s.reservations[id].status.Held? &&
                 t == s.(reservations := s.reservations[id := s.reservations[id].(status := AwaitingPayment)]))
  {
    assert s.outbox + [] == s.outbox;
  }

  lemma AskPaymentKeepsInv(s: Store, tenant: int, id: int, now: int)
    requires Inv(s)
    ensures Inv(Next(s, AskPayment(tenant, id), now))
  {
    var t := Next(s, AskPayment(tenant, id), now);
    AskPaymentExact(s, tenant, id, now);
    if t != s {
      AskPaymentConserves(s, t, id);
      SoundKept(s, t);
      GuardedKept(s, t);
      MatchedKept(s, t);
    }
  }

  lemma ConfirmKeepsInv(s: Store, tenant: int, id: int, key: string, now: int)
    requires Inv(s)
    ensures Inv(Next(s, ConfirmBooking(tenant, id, key), now))
  {
    if RecordId(tenant, ConfirmScope, key) !in s.records && Confirmable(s, tenant, id, now) {
      ConfirmExact(s, tenant, id, key, now);
      ConfirmedKeepsInv(s, Next(s, ConfirmBooking(tenant, id, key), now), tenant, id, key);
    } else if RecordId(tenant, ConfirmScope, key) !in s.records {
      ConfirmExact(s, tenant, id, key, now);
    }
  }

  lemma ConfirmedKeepsInv(s: Store, t: Store, tenant: int, id: nat, key: string)
    requires Inv(s) && id < |s.reservations| && s.reservations[id].status.AwaitingPayment?
    requires AfterConfirm(s, t, id) && AllGood(t.slots) && ConfirmRecords(s.records, t.records, tenant, id, key)
    ensures Inv(t)
  {
    SettlingConserves(s, t, id, Selling, Converted);
    SoundKept(s, t);
    GuardedKept(s, t);
    ConfirmKeepsMatched(s, t, id);
    ConfirmKeepsPublished(s, t, id);
  }

  lemma ConfirmKeepsPublished(s: Store, t: Store, id: nat)
    requires Published(s) && id < |s.reservations| && s.reservations[id].status.AwaitingPayment?
    requires t.reservations == s.reservations[id := s.reservations[id].(status := Converted)]
    requires |t.bookings| == |s.bookings| + 1
    requires t.outbox == s.outbox + [OutboxRow(ReservationConverted, id), OutboxRow(BookingConfirmed, |s.bookings|)]
    ensures Published(t)
  {
  }

  lemma ConfirmKeepsMatched(s: Store, t: Store, id: nat)
    requires Matched(s) && id < |s.reservations| && s.reservations[id].status.AwaitingPayment?
    requires s.reservations[id].lines != []
    requires t.reservations == s.reservations[id := s.reservations[id].(status := Converted)]
    requires t.bookings == s.bookings + [BookingOf(s.reservations[id], id)]
    ensures Matched(t)
  {
    forall i | 0 <= i < |t.reservations| && t.reservations[i].status.Converted? ensures Booked(t, i) {
      if i == id {
        assert t.bookings[|s.bookings|].reservation == id;
      } else {
        assert Booked(s, i);
        var b :| 0 <= b < |s.bookings| && s.bookings[b].reservation == i;
        assert t.bookings[b].reservation == i;
      }
    }
  }

  lemma SaleKeepsInv(s: Store, w: Window, quantity: int, key: string, now: int)
    requires Inv(s)
    ensures Inv(Next(s, DirectSale(w, quantity, key), now))
  {
    if Sell(s, w, quantity, key).Ok? && RecordId(w.cell.tenant, SellScope, key) !in s.records {
      var t := Sell(s, w, quantity, key).value.store;
      SoldIsApplied(s, w, quantity, key);
      SellingConserves(s, t, w, quantity);
      SoldKeepsInv(s, t, w, quantity);
    }
  }

  lemma SoldKeepsInv(s: Store, t: Store, w: Window, quantity: int)
    requires Inv(s) && Conserved(t) && AllGood(t.slots) && t.slots.Keys == s.slots.Keys
    requires Open(s.slots, w) && t.sales == s.sales + [Sale(w, quantity)]
    requires t.reservations == s.reservations && t.bookings == s.bookings && t.outbox == s.outbox
    requires forall i :: i in s.records ==> i in t.records && t.records[i] == s.records[i]
    requires forall i :: i in t.records && i !in s.records ==> t.records[i].Completed? && i.scope.SellScope?
    ensures Inv(t)
  {
    SoundKept(s, t);
    GuardedKept(s, t);
  }

  /** A step that only touches slots, and takes none away. */
  lemma SlotsKeepInv(s: Store, t: Store)
    requires Inv(s) && Conserved(t) && AllGood(t.slots) && s.slots.Keys <= t.slots.Keys
    requires t.records == s.records && t.reservations == s.reservations && t.bookings == s.bookings
    requires t.sales == s.sales && t.outbox == s.outbox
    ensures Inv(t)
  {
    SoundKept(s, t);
  }

  lemma HorizonKeepsInv(s: Store, w: Window, total: int, now: int)
    requires Inv(s)
    ensures Inv(Next(s, InitializeHorizon(w, total), now))
  {
    if OpenHorizon(s.slots, w, total).Ok? {
      OpeningConserves(s, w, total);
      SlotsKeepInv(s, Next(s, InitializeHorizon(w, total), now));
    }
  }

  lemma AdjustingConserves(s: Store, w: Window, delta: int)
    requires Conserved(s) && AllGood(s.slots) && Apply(s.slots, w, OutOfService(delta)).Ok?
    ensures var t := s.(slots := Apply(s.slots, w, OutOfService(delta)).value); Conserved(t) && AllGood(t.slots)
  {
    ApplyKeepsGood(s.slots, w, OutOfService(delta));
  }

  lemma AdjustKeepsInv(s: Store, w: Window, delta: int, now: int)
    requires Inv(s)
    ensures Inv(Next(s, AdjustOutOfService(w, delta), now))
  {
    if Apply(s.slots, w, OutOfService(delta)).Ok? {
      AdjustingConserves(s, w, delta);
      SlotsKeepInv(s, Next(s, AdjustOutOfService(w, delta), now));
    }
  }

  lemma NextKeepsInv(s: Store, op: Operation, now: int)
    requires Inv(s)
    ensures Inv(Next(s, op, now))
  {
    match op
    case InitializeHorizon(w, total) => HorizonKeepsInv(s, w, total, now);
    case AdjustOutOfService(w, delta) => AdjustKeepsInv(s, w, delta, now);
    case DirectSale(w, quantity, key) => SaleKeepsInv(s, w, quantity, key, now);
    case ReserveLines(req, key) => ReserveKeepsInv(s, req, key, now);
    case AskPayment(tenant, id) => AskPaymentKeepsInv(s, tenant, id, now);
    case CancelHold(tenant, id, key) => CancelKeepsInv(s, tenant, id, key, now);
    case ExpireHold(id) => ExpireKeepsInv(s, id, now);
    case ConfirmBooking(tenant, id, key) => ConfirmKeepsInv(s, tenant, id, key, now);
  }

  /** The ledger invariant holds after every run from the empty tables. */
  lemma {:induction false} RunKeepsInv(run: seq<Event>)
    ensures Inv(Execute(EMPTY, run))
  {
    if run != [] {
      RunKeepsInv(run[..|run| - 1]);
      NextKeepsInv(Execute(EMPTY, run[..|run| - 1]), run[|run| - 1].op, run[|run| - 1].now);
    }
  }
}
