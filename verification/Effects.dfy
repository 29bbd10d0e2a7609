/**
 When the operations that settle or advance one reservation succeed, and the whole effect they have.
 */
module Effects {
  import opened Outcomes
  import opened Slots
  import opened Store
  import opened Text
  import opened Reservations
  import opened Lines
  import opened Ledger

  /** Expiring never fails on a reservation that exists: an unsettled one gives back exactly its units,
      a settled one is left alone. */
  lemma ExpireExact(s: Store, id: int)
    requires Inv(s)
    ensures Expire(s, id).Ok? <==> 0 <= id < |s.reservations|
    ensures 0 <= id < |s.reservations| ==>
      var t := Expire(s, id).value.store;
      if s.reservations[id].status.Unsettled() then
        AfterSettling(s, t, id, Releasing, Expired) && t.records == s.records && t.bookings == s.bookings &&
        t.outbox == s.outbox + [OutboxRow(ReservationExpired, id)]
      else t == s
  {
    if 0 <= id < |s.reservations| && s.reservations[id].status.Unsettled() { ReleaseExact(s, id, ToExpired); }
  }

  lemma CancelReady(s: Store, tenant: int, id: int, key: string)
    requires Ready(s, id) && Found(s, tenant, id) && RecordId(tenant, CancelScope, key) !in s.records
    ensures Cancel(s, tenant, id, key).Ok?
    ensures var t := Cancel(s, tenant, id, key).value.store;
      && AfterSettling(s, t, id, Releasing, Cancelled) && AllGood(t.slots)
      && t.bookings == s.bookings && t.outbox == s.outbox
      && t.records == s.records[RecordId(tenant, CancelScope, key) := Completed(ReservationPayload(id), ReservationRef(id))]
  {
    var u := s.(records := s.records[RecordId(tenant, CancelScope, key) := InProgress(ReservationPayload(id))]);
    assert s.outbox + [] == s.outbox;
    ReadyReleases(u, id, ToCancelled);
  }

  /** A first cancel succeeds exactly for a reservation of the tenant: held units come back, and what is
      settled stays as it is.  No draft outlives the transaction that made it. */
  lemma CancelExact(s: Store, tenant: int, id: int, key: string)
    requires Inv(s) && RecordId(tenant, CancelScope, key) !in s.records
    ensures Cancel(s, tenant, id, key).Ok? <==> Found(s, tenant, id)
    ensures Found(s, tenant, id) ==>
      var t, r := Cancel(s, tenant, id, key).value.store, s.reservations[id];
      && (r.status.Unsettled() ==> AfterSettling(s, t, id, Releasing, Cancelled))
      && (!r.status.Unsettled() ==> t.slots == s.slots && t.reservations == s.reservations)
      && AllGood(t.slots) && t.bookings == s.bookings && t.sales == s.sales && t.outbox == s.outbox
      && t.records == s.records[RecordId(tenant, CancelScope, key) := Completed(ReservationPayload(id), ReservationRef(id))]
  {
    if Found(s, tenant, id) {
      assert SoundRow(s.slots, s.reservations[id]);
      if s.reservations[id].status.Unsettled() {
        UnsettledIsReady(s, id);
        CancelReady(s, tenant, id, key);
      }
    }
  }

  /** The old records as they were, the request's own, and new ones for the converted lines. */
  ghost predicate ConfirmRecords(before: map<RecordId, Record>, after: map<RecordId, Record>, tenant: int, id: nat, key: string) {
    && (forall i :: i in before ==> i in after && after[i] == before[i])
    && (forall i :: i in after && i !in before ==> after[i].Completed?)
    && (forall i :: i in after && i !in before ==>
          i == RecordId(tenant, ConfirmScope, key) || (i.scope.ConvertScope? && exists m: nat :: i.key == ConvertKey(id, m)))
  }

  /** A first confirmation succeeds exactly while the reservation is awaiting payment and not overdue; it
      sells exactly what was held and books it. */
  lemma ConfirmExact(s: Store, tenant: int, id: int, key: string, now: int)
    requires Inv(s) && RecordId(tenant, ConfirmScope, key) !in s.records
    ensures Confirm(s, tenant, id, key, now).Ok? <==> Confirmable(s, tenant, id, now)
    ensures Confirmable(s, tenant, id, now) ==>
      var t := Confirm(s, tenant, id, key, now).value.store;
      && AfterConfirm(s, t, id) && AllGood(t.slots) && ConfirmRecords(s.records, t.records, tenant, id, key)
      && Confirm(s, tenant, id, key, now).value.response == BookingRef(|s.bookings|)
  {
    var outer, payload := RecordId(tenant, ConfirmScope, key), ReservationPayload(id);
    ConfirmBodyExact(s, s.(records := s.records[outer := InProgress(payload)]), tenant, id, now, outer, payload);
  }

  /** Payment can be asked for exactly while a reservation is held and not past its expiry, and that
      moves nothing but its status. */
  lemma RequestPaymentExact(s: Store, tenant: int, id: int, now: int)
    ensures var r := RequestPayment(s, tenant, id, now);
      && (r.Ok? <==> Found(s, tenant, id) && s.reservations[id].status.Held? && now <= s.reservations[id].holdExpiry)
      && (r.Ok? ==>
            && r.value.store.reservations == s.reservations[id := s.reservations[id].(status := AwaitingPayment)]
            && r.value.store.slots == s.slots && r.value.store.records == s.records
            && r.value.store.bookings == s.bookings && r.value.store.sales == s.sales
            && r.value.store.outbox == s.outbox)
  {
    assert s.outbox + [] == s.outbox;
  }

  /** A first direct sale succeeds exactly when every night has the quantity to spare and no row would
      break a constraint; the sold count of exactly those nights grows by the quantity. */
  lemma SellExact(s: Store, w: Window, quantity: int, key: string)
    requires Inv(s) && RecordId(w.cell.tenant, SellScope, key) !in s.records
    ensures Sell(s, w, quantity, key).Ok? <==>
      Open(s.slots, w) && forall k :: k in s.slots && w.Covers(k) ==>
        s.slots[k].Remaining() >= quantity && s.slots[k].sold + quantity >= 0
    ensures Sell(s, w, quantity, key).Ok? ==>
      var t := Sell(s, w, quantity, key).value.store;
      && t.slots.Keys == s.slots.Keys && t.sales == s.sales + [Sale(w, quantity)]
      && forall k :: k in s.slots ==>
           t.slots[k] == s.slots[k].(sold := s.slots[k].sold + if w.Covers(k) then quantity else 0)
  {
    SoldWithin(s.slots, w, quantity);
    var applied := Apply(s.slots, w, Consume(Sold, quantity));
    assert Sell(s, w, quantity, key).Ok? <==> applied.Ok?;
    if applied.Ok? { SoldIsApplied(s, w, quantity, key); }
  }

  /** When the sold count of a window can move by a quantity. */
  lemma SoldWithin(slots: SlotTable, w: Window, quantity: int)
    requires AllGood(slots)
    ensures Apply(slots, w, Consume(Sold, quantity)).Ok? <==>
      Open(slots, w) && forall k :: k in slots && w.Covers(k) ==>
        slots[k].Remaining() >= quantity && slots[k].sold + quantity >= 0
  {
    var c := Consume(Sold, quantity);
    forall k | k in slots && w.Covers(k)
      ensures Changed(slots, w, c)[k] == c.On(slots[k]) && c.On(slots[k]).sold == slots[k].sold + quantity
      ensures c.Allows(slots[k]) ==> (c.On(slots[k]).Good() <==> slots[k].sold + quantity >= 0)
    {
    }
  }

  /** What a first sale does to the tables. */
  lemma SoldIsApplied(s: Store, w: Window, quantity: int, key: string)
    requires AllGood(s.slots) && RecordId(w.cell.tenant, SellScope, key) !in s.records && Sell(s, w, quantity, key).Ok?
    ensures var t := Sell(s, w, quantity, key).value.store;
      && t.slots == Changed(s.slots, w, Consume(Sold, quantity)) && t.slots.Keys == s.slots.Keys && AllGood(t.slots)
      && Open(s.slots, w) && t.sales == s.sales + [Sale(w, quantity)]
      && t.reservations == s.reservations && t.bookings == s.bookings && t.outbox == s.outbox
      && t.records == s.records[RecordId(w.cell.tenant, SellScope, key) :=
           Completed(WindowPayload(w, quantity), WindowDone(w.end - w.start))]
  {
    assert Apply(s.slots, w, Consume(Sold, quantity)).Ok?;
    ApplyKeepsGood(s.slots, w, Consume(Sold, quantity));
  }

  // ---------------------------------------------------------------- violations answered as a missing record

  /** A reserve is answered with a missing record exactly when it is a first one, priced and with lines,
      whose rows the table refuses: a line without nights or units, or a hold that ends before it begins. */
  lemma ReserveHidesExactly(s: Store, req: ReserveRequest, key: string, now: int)
    requires Inv(s)
    ensures Reserve(s, req, key, now) == Err(DoesNotExist) <==>
      RecordId(req.tenant, ReserveScope, key) !in s.records && req.lines != [] && req.quoted && !req.Storable()
  {
    if RecordId(req.tenant, ReserveScope, key) !in s.records && req.lines != [] && req.quoted && req.Storable() {
      FirstReserveHasFreshKeys(s, req.tenant, key);
      StorableRaises(s, req, key, now);
    }
  }

  lemma StorableRaises(s: Store, req: ReserveRequest, key: string, now: int)
    requires AllGood(s.slots) && FreshLineKeys(s.records, req.tenant, key, 1)
    requires RecordId(req.tenant, ReserveScope, key) !in s.records
    requires req.lines != [] && req.quoted && req.Storable()
    ensures var r := Reserve(s, req, key, now); r.Err? ==> r.error == InsufficientAvailability
  {
    BodyRaises(s.(records := s.records[RecordId(req.tenant, ReserveScope, key) := InProgress(req.Payload())]), req, key, now);
  }

  lemma BodyRaises(u: Store, req: ReserveRequest, key: string, now: int)
    requires AllGood(u.slots) && FreshLineKeys(u.records, req.tenant, key, 1) && req.quoted && req.Storable()
    ensures var r := ReserveBody(u, req, key, now); r.Err? ==> r.error == InsufficientAvailability
  {
    var row := Reservation(req.tenant, req.property, Draft, now + req.holdMinutes, req.lines);
    var v := u.(reservations := u.reservations + [row]);
    HoldLinesExact(v, req.tenant, req.property, req.lines, key, 1);
    HoldLinesRaises(v, req.tenant, req.property, req.lines, key, 1);
  }

  /** Holding lines fails for want of availability only. */
  lemma {:induction false} HoldLinesRaises(s: Store, tenant: int, property: int, lines: seq<Line>, key: string, n: nat)
    requires AllGood(s.slots) && Storable(lines) && FreshLineKeys(s.records, tenant, key, n)
    ensures var r := HoldLines(s, tenant, property, lines, key, n); r.Err? ==> r.error == InsufficientAvailability
    decreases lines
  {
    if lines != [] {
      var line := lines[0];
      HoldOne(s.slots, tenant, property, line);
      var first := Hold(s, line.Stay(tenant, property), line.quantity, LineKey(key, n));
      if first.Ok? {
        var t := first.value.store;
        assert lines[..1] == [line];
        FreshAfterOne(s.records, t.records, tenant, key, n);
        HoldLinesRaises(t, tenant, property, lines[1..], key, n + 1);
      }
    }
  }

  /** A direct sale is answered so exactly when it is a first one that passes its check on every night
      and would leave some night with less than nothing sold. */
  lemma SellHidesExactly(s: Store, w: Window, quantity: int, key: string)
    requires Inv(s)
    ensures Sell(s, w, quantity, key) == Err(DoesNotExist) <==>
      && RecordId(w.cell.tenant, SellScope, key) !in s.records && Open(s.slots, w)
      && (forall k :: k in s.slots && w.Covers(k) ==> s.slots[k].Remaining() >= quantity)
      && (exists k :: k in s.slots && w.Covers(k) && s.slots[k].sold + quantity < 0)
  {
    if RecordId(w.cell.tenant, SellScope, key) !in s.records { SellExact(s, w, quantity, key); }
  }

  /** A first cancel or confirm is answered so exactly when there is no such reservation of the tenant:
      neither ever hides a violation. */
  lemma CancelHidesExactly(s: Store, tenant: int, id: int, key: string)
    requires Inv(s)
    ensures Cancel(s, tenant, id, key) == Err(DoesNotExist) <==>
      RecordId(tenant, CancelScope, key) !in s.records && !Found(s, tenant, id)
  {
    if RecordId(tenant, CancelScope, key) !in s.records { CancelExact(s, tenant, id, key); }
  }

  lemma ConfirmHidesExactly(s: Store, tenant: int, id: int, key: string, now: int)
    requires Inv(s)
    ensures Confirm(s, tenant, id, key, now) == Err(DoesNotExist) <==>
      RecordId(tenant, ConfirmScope, key) !in s.records && !Found(s, tenant, id)
  {
    if RecordId(tenant, ConfirmScope, key) !in s.records {
      ConfirmExact(s, tenant, id, key, now);
      if !Confirmable(s, tenant, id, now) { ConfirmRaises(s, tenant, id, key, now); }
    }
  }

  /** What a first confirm raises. */
  lemma ConfirmRaises(s: Store, tenant: int, id: int, key: string, now: int)
    requires RecordId(tenant, ConfirmScope, key) !in s.records && !Confirmable(s, tenant, id, now)
    ensures Confirm(s, tenant, id, key, now) == Err(if Found(s, tenant, id) then TransitionNotAllowed else DoesNotExist)
  {
    var u := s.(records := s.records[RecordId(tenant, ConfirmScope, key) := InProgress(ReservationPayload(id))]);
    assert ConfirmBody(u, tenant, id, now) == Err(if Found(s, tenant, id) then TransitionNotAllowed else DoesNotExist);
  }
}
