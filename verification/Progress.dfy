/**
 What never goes back: idempotency records and settled reservations are final, the identity of a
 reservation never changes, and a reservation converts only while its hold is alive.
 */
module Progress {
  import opened Outcomes
  import opened Slots
  import opened Store
  import opened Text
  import opened Reservations
  import opened Lines
  import opened Ledger
  import opened Effects
  import opened LedgerRuns

  /** The idempotency record an operation is guarded by, if any. */
  function GuardOf(op: Operation): Option<RecordId> {
    match op
    case DirectSale(w, _, key) => Some(RecordId(w.cell.tenant, SellScope, key))
    case ReserveLines(req, key) => Some(RecordId(req.tenant, ReserveScope, key))
    case CancelHold(tenant, _, key) => Some(RecordId(tenant, CancelScope, key))
    case ConfirmBooking(tenant, _, key) => Some(RecordId(tenant, ConfirmScope, key))
    case _ => None
  }

  /** The request that record covers. */
  function PayloadOf(op: Operation): Payload {
    match op
    case DirectSale(w, quantity, _) => WindowPayload(w, quantity)
    case ReserveLines(req, _) => req.Payload()
    case CancelHold(_, id, _) => ReservationPayload(id)
    case ConfirmBooking(_, id, _) => ReservationPayload(id)
    case _ => ReservationPayload(0)
  }

  /** Rows keep everything but their status; settled rows keep that too. */
  ghost predicate RowsAdvance(s: Store, t: Store, now: int) {
    && |s.reservations| <= |t.reservations|
    && (forall i :: 0 <= i < |s.reservations| ==> RowAdvances(s.reservations[i], t.reservations[i], now))
  }

  ghost predicate RowAdvances(r: Reservation, q: Reservation, now: int) {
    && q == r.(status := q.status)
    && (q != r ==>
          r.status.Unsettled() &&
          (q.status.Converted? ==> r.status.AwaitingPayment? && now <= r.holdExpiry))
  }

  /** Records are never changed or dropped; new ones belong to the operation. */
  ghost predicate RecordsAdvance(s: Store, t: Store, op: Operation) {
    && (forall id :: id in s.records ==> id in t.records && t.records[id] == s.records[id])
    && (forall id :: id in t.records && id !in s.records ==>
          id.scope.HoldScope? || id.scope.ConvertScope? || GuardOf(op) == Some(id))
  }

  lemma NextAdvances(s: Store, op: Operation, now: int)
    requires Inv(s)
    ensures RowsAdvance(s, Next(s, op, now), now) && RecordsAdvance(s, Next(s, op, now), op)
  {
    match op
    case ReserveLines(req, key) => ReserveAdvances(s, req, key, now);
    case AskPayment(tenant, id) => AskPaymentAdvances(s, tenant, id, now);
    case ExpireHold(id) => ExpireAdvances(s, id, now);
    case CancelHold(tenant, id, key) => CancelAdvances(s, tenant, id, key, now);
    case ConfirmBooking(tenant, id, key) => ConfirmAdvances(s, tenant, id, key, now);
    case DirectSale(w, quantity, key) => SaleAdvances(s, w, quantity, key, now);
    case _ => SlotsOnlyAdvance(s, op, now);
  }

  lemma SlotsOnlyAdvance(s: Store, op: Operation, now: int)
    requires op.InitializeHorizon? || op.AdjustOutOfService?
    ensures RowsAdvance(s, Next(s, op, now), now) && RecordsAdvance(s, Next(s, op, now), op)
  {
    var t := Next(s, op, now);
    assert t.reservations == s.reservations && t.records == s.records;
  }

  lemma SaleAdvances(s: Store, w: Window, quantity: int, key: string, now: int)
    ensures var op := DirectSale(w, quantity, key);
      RowsAdvance(s, Next(s, op, now), now) && RecordsAdvance(s, Next(s, op, now), op)
  {
    assert Next(s, DirectSale(w, quantity, key), now).reservations == s.reservations;
  }

  lemma AskPaymentAdvances(s: Store, tenant: int, id: int, now: int)
    ensures var op := AskPayment(tenant, id);
      RowsAdvance(s, Next(s, op, now), now) && RecordsAdvance(s, Next(s, op, now), op)
  {
    AskPaymentExact(s, tenant, id, now);
  }

  lemma ReserveAdvances(s: Store, req: ReserveRequest, key: string, now: int)
    requires Inv(s)
    ensures var op := ReserveLines(req, key);
      RowsAdvance(s, Next(s, op, now), now) && RecordsAdvance(s, Next(s, op, now), op)
  {
    if RecordId(req.tenant, ReserveScope, key) !in s.records && Reserve(s, req, key, now).Ok? {
      ReserveExact(s, req, key, now);
      var t := Next(s, ReserveLines(req, key), now);
      assert forall i :: 0 <= i < |s.reservations| ==> t.reservations[i] == s.reservations[i];
    }
  }

  lemma ExpireAdvances(s: Store, id: int, now: int)
    requires Inv(s)
    ensures var op := ExpireHold(id);
      RowsAdvance(s, Next(s, op, now), now) && RecordsAdvance(s, Next(s, op, now), op)
  {
    if 0 <= id < |s.reservations| && s.reservations[id].status.Unsettled() {
      ReleaseExact(s, id, ToExpired);
    }
  }

  /** Settling one reservation in an allowed way moves no other row. */
  lemma SettlingAdvances(s: Store, t: Store, id: nat, kind: Kind, status: Status, now: int)
    requires id < |s.reservations| && s.reservations[id].status.Unsettled() && AfterSettling(s, t, id, kind, status)
    requires status.Converted? ==> s.reservations[id].status.AwaitingPayment? && now <= s.reservations[id].holdExpiry
    ensures RowsAdvance(s, t, now)
  {
  }

  lemma CancelAdvances(s: Store, tenant: int, id: int, key: string, now: int)
    requires Inv(s)
    ensures var op := CancelHold(tenant, id, key);
      RowsAdvance(s, Next(s, op, now), now) && RecordsAdvance(s, Next(s, op, now), op)
  {
    if RecordId(tenant, CancelScope, key) !in s.records {
      CancelExact(s, tenant, id, key);
      if Found(s, tenant, id) && s.reservations[id].status.Unsettled() {
        SettlingAdvances(s, Next(s, CancelHold(tenant, id, key), now), id, Releasing, Cancelled, now);
      }
    }
  }

  lemma ConfirmAdvances(s: Store, tenant: int, id: int, key: string, now: int)
    requires Inv(s)
    ensures var op := ConfirmBooking(tenant, id, key);
      RowsAdvance(s, Next(s, op, now), now) && RecordsAdvance(s, Next(s, op, now), op)
  {
    if RecordId(tenant, ConfirmScope, key) !in s.records {
      ConfirmExact(s, tenant, id, key, now);
      if Confirmable(s, tenant, id, now) {
        SettlingAdvances(s, Next(s, ConfirmBooking(tenant, id, key), now), id, Selling, Converted, now);
      }
    }
  }

  // ---------------------------------------------------------------- over runs

  /** The clock of a run never goes back, and starts no earlier than `start`. */
  ghost predicate Clocked(run: seq<Event>, start: int) {
    forall i :: 0 <= i < |run| ==> start <= run[i].now && forall j :: i <= j < |run| ==> run[i].now <= run[j].now
  }

  lemma {:induction false} InvAlongRun(s: Store, run: seq<Event>)
    requires Inv(s)
    ensures Inv(Execute(s, run))
    decreases |run|
  {
    if run != [] {
      InvAlongRun(s, run[..|run| - 1]);
      NextKeepsInv(Execute(s, run[..|run| - 1]), run[|run| - 1].op, run[|run| - 1].now);
    }
  }

  /** Settled states are absorbing: over any further run the row stays exactly as it is. */
  lemma {:induction false} SettledIsFinal(s: Store, run: seq<Event>, id: nat)
    requires Inv(s) && id < |s.reservations| && !s.reservations[id].status.Unsettled()
    ensures var t := Execute(s, run); id < |t.reservations| && t.reservations[id] == s.reservations[id]
    decreases |run|
  {
    if run != [] {
      var front, last := run[..|run| - 1], run[|run| - 1];
      SettledIsFinal(s, front, id);
      InvAlongRun(s, front);
      NextAdvances(Execute(s, front), last.op, last.now);
      assert RowAdvances(Execute(s, front).reservations[id], Execute(s, run).reservations[id], last.now);
    }
  }

  /**
   An overdue hold never converts: over every further run whose clock does not go back, it stays
   what it was or is expired or cancelled.
   */
  lemma {:induction false} OverdueNeverConverts(s: Store, now: int, run: seq<Event>, id: nat)
    requires Inv(s) && id < |s.reservations| && Overdue(s.reservations[id], now) && Clocked(run, now)
    ensures var t := Execute(s, run);
      && id < |t.reservations| && !t.reservations[id].status.Converted?
      && t.reservations[id].holdExpiry == s.reservations[id].holdExpiry
    decreases |run|
  {
    if run != [] {
      var front, last := run[..|run| - 1], run[|run| - 1];
      OverdueNeverConverts(s, now, front, id);
      InvAlongRun(s, front);
      NextAdvances(Execute(s, front), last.op, last.now);
      assert RowAdvances(Execute(s, front).reservations[id], Execute(s, run).reservations[id], last.now);
    }
  }

  lemma {:induction false} RecordsAreFinal(s: Store, run: seq<Event>, id: RecordId)
    requires Inv(s) && id in s.records
    ensures id in Execute(s, run).records && Execute(s, run).records[id] == s.records[id]
    decreases |run|
  {
    if run != [] {
      var front, last := run[..|run| - 1], run[|run| - 1];
      RecordsAreFinal(s, front, id);
      InvAlongRun(s, front);
      NextAdvances(Execute(s, front), last.op, last.now);
    }
  }

  /** A successful keyed operation leaves its record with the response it gave. */
  lemma SuccessIsRecorded(s: Store, op: Operation, now: int)
    requires Inv(s) && GuardOf(op).Some? && Perform(s, op, now).Ok?
    ensures var id, t := GuardOf(op).value, Next(s, op, now);
      id in t.records && t.records[id] == Completed(PayloadOf(op), Perform(s, op, now).value.response)
  {
  }

  /**
   Nested idempotency over runs: once a keyed operation has succeeded, then after any further run
   the same request answers with the same response and changes nothing, and a different request
   under the same key is refused and changes nothing.
   */
  lemma RetriesHaveOneEffect(s: Store, op: Operation, now: int, run: seq<Event>, again: Operation, later: int)
    requires Inv(s) && GuardOf(op).Some? && Perform(s, op, now).Ok?
    requires GuardOf(again) == GuardOf(op)
    requires again.ReserveLines? ==> again.req.lines != []
    ensures var t := Execute(Next(s, op, now), run);
      && Next(t, again, later) == t
      && (PayloadOf(again) == PayloadOf(op) ==>
            Perform(t, again, later) == Ok(Step(t, Perform(s, op, now).value.response)))
      && (PayloadOf(again) != PayloadOf(op) ==> Perform(t, again, later) == Err(KeyConflict))
  {
    SuccessIsRecorded(s, op, now);
    NextKeepsInv(s, op, now);
    RecordsAreFinal(Next(s, op, now), run, GuardOf(op).value);
  }

  /** What a retry may answer: the first response if it is the same request, otherwise a conflict; and it
      changes nothing either way. */
  ghost predicate Repeats(t: Store, again: Operation, later: int, same: bool, first: Response) {
    && Next(t, again, later) == t
    && Perform(t, again, later) == if same then Ok(Step(t, first)) else Err(KeyConflict)
  }

  /** Two `reserve` requests under one key are the same request exactly when property, guest, party and
      every line agree. */
  lemma ReserveRetries(s: Store, req: ReserveRequest, key: string, now: int, run: seq<Event>, other: ReserveRequest, later: int)
    requires Inv(s) && Perform(s, ReserveLines(req, key), now).Ok?
    requires other.tenant == req.tenant && other.lines != []
    ensures Repeats(Execute(Next(s, ReserveLines(req, key), now), run), ReserveLines(other, key), later,
                    other.property == req.property && other.guest == req.guest && other.parties == req.parties &&
                      other.lines == req.lines,
                    Perform(s, ReserveLines(req, key), now).value.response)
  {
    RetriesHaveOneEffect(s, ReserveLines(req, key), now, run, ReserveLines(other, key), later);
  }

  /** Two direct sales are the same when property, room type, nights and quantity agree. */
  lemma SaleRetries(s: Store, w: Window, quantity: int, key: string, now: int, run: seq<Event>,
                    other: Window, otherQuantity: int, later: int)
    requires Inv(s) && Perform(s, DirectSale(w, quantity, key), now).Ok? && other.cell.tenant == w.cell.tenant
    ensures Repeats(Execute(Next(s, DirectSale(w, quantity, key), now), run), DirectSale(other, otherQuantity, key), later,
                    other.cell.property == w.cell.property && other.cell.roomType == w.cell.roomType &&
                      other.start == w.start && other.end == w.end && otherQuantity == quantity,
                    Perform(s, DirectSale(w, quantity, key), now).value.response)
  {
    RetriesHaveOneEffect(s, DirectSale(w, quantity, key), now, run, DirectSale(other, otherQuantity, key), later);
  }

  /** Two cancellations, or two confirmations, are the same when they name the same reservation. */
  lemma CancelRetries(s: Store, tenant: int, id: int, key: string, now: int, run: seq<Event>, other: int, later: int)
    requires Inv(s) && Perform(s, CancelHold(tenant, id, key), now).Ok?
    ensures Repeats(Execute(Next(s, CancelHold(tenant, id, key), now), run), CancelHold(tenant, other, key), later,
                    other == id, Perform(s, CancelHold(tenant, id, key), now).value.response)
  {
    RetriesHaveOneEffect(s, CancelHold(tenant, id, key), now, run, CancelHold(tenant, other, key), later);
  }

  lemma ConfirmRetries(s: Store, tenant: int, id: int, key: string, now: int, run: seq<Event>, other: int, later: int)
    requires Inv(s) && Perform(s, ConfirmBooking(tenant, id, key), now).Ok?
    ensures Repeats(Execute(Next(s, ConfirmBooking(tenant, id, key), now), run), ConfirmBooking(tenant, other, key), later,
                    other == id, Perform(s, ConfirmBooking(tenant, id, key), now).value.response)
  {
    RetriesHaveOneEffect(s, ConfirmBooking(tenant, id, key), now, run, ConfirmBooking(tenant, other, key), later);
  }

  /** The same for the guarded window calls on their own, while the record of the first is there. */
  lemma HoldRetries(s: Store, w: Window, quantity: int, key: string, later: Store, other: Window, otherQuantity: int)
    requires RecordId(w.cell.tenant, HoldScope, key) !in s.records && Hold(s, w, quantity, key).Ok?
    requires other.cell.tenant == w.cell.tenant
    requires var id, t := RecordId(w.cell.tenant, HoldScope, key), Hold(s, w, quantity, key).value.store;
      id in later.records && later.records[id] == t.records[id]
    ensures Hold(later, other, otherQuantity, key) ==
      if other == w && otherQuantity == quantity then Ok(Step(later, WindowDone(w.end - w.start))) else Err(KeyConflict)
  {
  }

  lemma ConvertHoldRetries(s: Store, w: Window, quantity: int, key: string, later: Store, other: Window, otherQuantity: int)
    requires RecordId(w.cell.tenant, ConvertScope, key) !in s.records && ConvertHold(s, w, quantity, key).Ok?
    requires other.cell.tenant == w.cell.tenant
    requires var id, t := RecordId(w.cell.tenant, ConvertScope, key), ConvertHold(s, w, quantity, key).value.store;
      id in later.records && later.records[id] == t.records[id]
    ensures ConvertHold(later, other, otherQuantity, key) ==
      if other == w && otherQuantity == quantity then Ok(Step(later, WindowDone(w.end - w.start))) else Err(KeyConflict)
  {
  }

  // ---------------------------------------------------------------- the sweep

  /** The ids `sweep_expired_holds` collects: unsettled reservations strictly past their expiry. */
  function OverdueIds(rs: seq<Reservation>, now: int): (ids: seq<nat>)
    ensures forall id :: id in ids <==> 0 <= id < |rs| && Overdue(rs[id], now)
  {
    if rs == [] then []
    else
      var last := |rs| - 1;
      OverdueIds(rs[..last], now) + if Overdue(rs[last], now) then [last] else []
  }

  predicate Ascending(ids: seq<nat>) {
    forall a, b :: 0 <= a < b < |ids| ==> ids[a] < ids[b]
  }

  /** Each overdue reservation is collected once. */
  lemma {:induction false} OverdueOnce(rs: seq<Reservation>, now: int)
    ensures Ascending(OverdueIds(rs, now))
    decreases |rs|
  {
    if rs != [] {
      var front := OverdueIds(rs[..|rs| - 1], now);
      OverdueOnce(rs[..|rs| - 1], now);
      assert Ascending(front);
      forall a | 0 <= a < |front| ensures front[a] < |rs| - 1 { assert front[a] in front; }
      assert OverdueIds(rs, now) == front || OverdueIds(rs, now) == front + [|rs| - 1];
    }
  }

  /** One sweep pass, each expiry its own transaction. */
  ghost function Sweep(s: Store, ids: seq<nat>): Store {
    if ids == [] then s else Next(Sweep(s, ids[..|ids| - 1]), ExpireHold(ids[|ids| - 1]), 0)
  }

  function AfterSweep(r: Reservation, swept: bool): Reservation {
    if swept then r.(status := Expired) else r
  }

  /** The rows after a sweep of these ids. */
  ghost predicate Swept(s: Store, t: Store, ids: seq<nat>) {
    && |t.reservations| == |s.reservations|
    && forall i :: 0 <= i < |s.reservations| ==>
         t.reservations[i] == AfterSweep(s.reservations[i], i in ids && s.reservations[i].status.Unsettled())
  }

  /** One more id swept. */
  lemma SweepOne(t: Store, id: nat)
    requires Inv(t) && id < |t.reservations|
    ensures Next(t, ExpireHold(id), 0).reservations ==
            t.reservations[id := AfterSweep(t.reservations[id], t.reservations[id].status.Unsettled())]
  {
    ExpireExact(t, id);
  }

  lemma SweptNext(s: Store, t: Store, u: Store, ids: seq<nat>, id: nat)
    requires Swept(s, t, ids) && id < |t.reservations|
    requires u.reservations == t.reservations[id := AfterSweep(t.reservations[id], t.reservations[id].status.Unsettled())]
    ensures Swept(s, u, ids + [id])
  {
  }

  lemma {:induction false} SweepExpires(s: Store, ids: seq<nat>)
    requires Inv(s) && forall j :: 0 <= j < |ids| ==> ids[j] < |s.reservations|
    ensures Inv(Sweep(s, ids)) && Swept(s, Sweep(s, ids), ids)
    decreases |ids|
  {
    if ids != [] {
      var front, last := ids[..|ids| - 1], ids[|ids| - 1];
      assert ids == front + [last] && ids[|ids| - 1] < |s.reservations|;
      SweepExpires(s, front);
      var t := Sweep(s, front);
      NextKeepsInv(t, ExpireHold(last), 0);
      SweepOne(t, last);
      SweptNext(s, t, Sweep(s, ids), front, last);
    }
  }

  /** An uninterrupted sweep expires exactly the overdue reservations, and leaves none. */
  lemma SweepLeavesNoneOverdue(s: Store, now: int)
    requires Inv(s)
    ensures var t := Sweep(s, OverdueIds(s.reservations, now));
      && Inv(t) && |t.reservations| == |s.reservations|
      && (forall i :: 0 <= i < |t.reservations| ==> !Overdue(t.reservations[i], now))
      && (forall i :: 0 <= i < |t.reservations| ==>
            t.reservations[i] == AfterSweep(s.reservations[i], Overdue(s.reservations[i], now)))
  {
    var ids := OverdueIds(s.reservations, now);
    assert forall j :: 0 <= j < |ids| ==> ids[j] in ids;
    SweepExpires(s, ids);
  }

  /**
   However other transactions interleave with a sweep that collected its ids at time `now`: when it
   comes to expire one of them, the reservation's expiry is still strictly before `now`.
   */
  lemma {:induction false} SweepExpiresOnlyOverdue(s: Store, now: int, run: seq<Event>, id: nat)
    requires Inv(s) && id in OverdueIds(s.reservations, now)
    ensures var t := Execute(s, run);
      && id < |t.reservations| && t.reservations[id].holdExpiry < now
      && (t.reservations[id].status.Unsettled() <==> Overdue(t.reservations[id], now))
    decreases |run|
  {
    if run != [] {
      var front, last := run[..|run| - 1], run[|run| - 1];
      SweepExpiresOnlyOverdue(s, now, front, id);
      InvAlongRun(s, front);
      NextAdvances(Execute(s, front), last.op, last.now);
      assert RowAdvances(Execute(s, front).reservations[id], Execute(s, run).reservations[id], last.now);
    }
  }
}
