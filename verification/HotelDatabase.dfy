/**
 The reservation pipeline step by step: rows are locked, checked and rewritten one after the other,
 and a failing transaction puts back what it had changed.  Every method is tied to the function
 that says what it does to the tables as a whole.
 */
module HotelDatabase {
  import opened Outcomes
  import opened Slots
  import opened Store
  import opened Text
  import opened Reservations
  import opened Lines
  import opened Ledger
  import opened LedgerRuns
  import opened Progress

  /** The transaction did what was expected of it, or raised and changed nothing. */
  ghost predicate Answers(expected: Result<Step>, before: Store, after: Store, r: Result<Response>) {
    match expected
    case Ok(step) => after == step.store && r == Ok(step.response)
    case Err(e) => after == before && r == Err(e)
  }

  /** The repository call did to the rows what `Apply` says, or raised and left them alone. */
  ghost predicate WindowChanged(before: SlotTable, after: SlotTable, w: Window, c: Change, r: Result<()>) {
    match Apply(before, w, c)
    case Ok(t) => r.Ok? && after == t
    case Err(e) => r == Err(e) && after == before
  }

  /** The same for a step inside a transaction: on an exception the caller rolls back. */
  ghost predicate Advances(expected: Result<Store>, after: Store, r: Result<()>) {
    match expected
    case Ok(store) => after == store && r.Ok?
    case Err(e) => r == Err(e)
  }

  /** What a guarded call raises when its mutation raised `e`. */
  function Raised(e: Error): Error {
    if e.IntegrityError? then DoesNotExist else e
  }

  /** Nights of the window that have a row. */
  function RowCount(slots: SlotTable, w: Window): nat
    decreases w.end - w.start
  {
    if w.end <= w.start then 0
    else RowCount(slots, w.Until(w.end - 1)) + if SlotKey(w.cell, w.end - 1) in slots then 1 else 0
  }

  ghost function NightsWithRow(slots: SlotTable, w: Window): set<int> {
    set n | w.start <= n < w.end && SlotKey(w.cell, n) in slots
  }

  lemma LastNight(slots: SlotTable, w: Window)
    requires w.start < w.end
    ensures NightsWithRow(slots, w) == NightsWithRow(slots, w.Until(w.end - 1))
      + if SlotKey(w.cell, w.end - 1) in slots then {w.end - 1} else {}
  {
  }

  /** Each night with a row counts once. */
  lemma {:induction false} RowsCounted(slots: SlotTable, w: Window)
    ensures RowCount(slots, w) == |NightsWithRow(slots, w)|
    decreases w.end - w.start
  {
    if w.start < w.end {
      RowsCounted(slots, w.Until(w.end - 1));
      LastNight(slots, w);
      assert w.end - 1 !in NightsWithRow(slots, w.Until(w.end - 1));
    } else {
      assert NightsWithRow(slots, w) == {};
    }
  }

  /** How many nights a window has. */
  function NightCount(w: Window): nat {
    if w.end < w.start then 0 else w.end - w.start
  }

  /** One more row of the window changed. */
  lemma ChangedNext(slots: SlotTable, w: Window, d: int, c: Change)
    requires w.start <= d
    ensures var key := SlotKey(w.cell, d);
      Changed(slots, w.Until(d + 1), c) ==
        if key in slots then Changed(slots, w.Until(d), c)[key := c.On(slots[key])] else Changed(slots, w.Until(d), c)
    ensures SlotKey(w.cell, d) in slots ==> Changed(slots, w.Until(d), c)[SlotKey(w.cell, d)] == slots[SlotKey(w.cell, d)]
  {
    var key := SlotKey(w.cell, d);
    forall k | k in slots ensures w.Until(d + 1).Covers(k) <==> w.Until(d).Covers(k) || k == key {
      assert k == SlotKey(k.cell, k.night);
    }
  }

  /** The nights before d changed and the next row updated: either the constraints let it through, and one
      more night is done, or the call as a whole is refused. */
  lemma RowUpdated(slots: SlotTable, w: Window, d: int, c: Change, before: SlotTable)
    requires w.start <= d < w.end && SlotKey(w.cell, d) in slots
    requires before == Changed(slots, w.Until(d), c) && AllGood(before)
    ensures var key := SlotKey(w.cell, d);
      && key in before && before[key] == slots[key]
      && (c.On(slots[key]).Good() ==>
            before[key := c.On(slots[key])] == Changed(slots, w.Until(d + 1), c) && AllGood(before[key := c.On(slots[key])]))
      && (!c.On(slots[key]).Good() ==> !GoodWithin(Changed(slots, w, c), w))
  {
    ChangedNext(slots, w, d, c);
    var key := SlotKey(w.cell, d);
    assert w.Covers(key) && Changed(slots, w, c)[key] == c.On(slots[key]);
  }

  /** An empty row for each of the nights. */
  ghost function Inserted(slots: SlotTable, cell: Cell, nights: seq<int>, total: int): SlotTable {
    if nights == [] then slots
    else Inserted(slots, cell, nights[..|nights| - 1], total)[SlotKey(cell, nights[|nights| - 1]) := Slot(total, 0, 0, 0, 0)]
  }

  lemma {:induction false} InsertedRows(slots: SlotTable, cell: Cell, nights: seq<int>, total: int)
    ensures var t := Inserted(slots, cell, nights, total);
      && (forall k :: k in t <==> k in slots || (k.cell == cell && k.night in nights))
      && (forall k :: k in t ==> t[k] == if k.cell == cell && k.night in nights then Slot(total, 0, 0, 0, 0) else slots[k])
  {
    if nights != [] { InsertedRows(slots, cell, nights[..|nights| - 1], total); }
  }

  lemma InsertedOpens(slots: SlotTable, w: Window, nights: seq<int>, total: int)
    requires forall n :: n in nights <==> w.start <= n < w.end && SlotKey(w.cell, n) !in slots
    ensures Inserted(slots, w.cell, nights, total) == Opened(slots, w, total)
    ensures AllGood(slots) && total >= 0 ==> AllGood(Opened(slots, w, total))
  {
    InsertedRows(slots, w.cell, nights, total);
    forall k | w.Covers(k) && k !in slots ensures k.night in nights { assert k == SlotKey(w.cell, k.night); }
  }

  /** A release never breaks a constraint, and where there is nothing to give back it changes nothing. */
  lemma ReleasedRow(slots: SlotTable, key: SlotKey, counter: Counter, quantity: int)
    requires AllGood(slots) && key in slots
    ensures var row, c := slots[key], Release(counter, quantity);
      && c.On(row).Good()
      && ((if quantity < row.Counted(counter) then quantity else row.Counted(counter)) <= 0 ==> slots[key := c.On(row)] == slots)
  {
  }

  /** Where every night is done, the call has succeeded. */
  lemma AllUpdated(slots: SlotTable, w: Window, d: int, c: Change, after: SlotTable)
    requires w.start <= d && w.end <= d && (d <= w.end || d == w.start)
    requires after == Changed(slots, w.Until(d), c) && AllGood(after)
    ensures after == Changed(slots, w, c) && GoodWithin(Changed(slots, w, c), w)
  {
  }

  class Database {
    var slots: SlotTable
    var records: map<RecordId, Record>
    var reservations: seq<Reservation>
    var bookings: seq<Booking>
    var sales: seq<Sale>
    var outbox: seq<OutboxRow>

    /** Stored rows satisfy the CHECK constraints. */
    ghost predicate Valid()
      reads this
    {
      AllGood(slots)
    }

    constructor ()
      ensures Valid() && Tables() == EMPTY
    {
      slots, records, reservations, bookings, sales, outbox := map[], map[], [], [], [], [];
    }

    function Tables(): Store
      reads this
    {
      Store(slots, records, reservations, bookings, sales, outbox)
    }

    method Restore(saved: Store)
      modifies this
      ensures Tables() == saved
    {
      slots, records, reservations := saved.slots, saved.records, saved.reservations;
      bookings, sales, outbox := saved.bookings, saved.sales, saved.outbox;
    }

    // ---------------------------------------------------------------- slot repository

    /** Lock the rows of the window in date order; every night must have one. */
    method LockWindow(w: Window) returns (locked: Result<map<int, Slot>>)
      ensures locked.Ok? <==> Open(slots, w)
      ensures locked.Err? ==> locked.error == InsufficientAvailability
      ensures locked.Ok? ==> forall d :: d in locked.value <==> w.start <= d < w.end
      ensures locked.Ok? ==> forall d :: w.start <= d < w.end ==> locked.value[d] == slots[SlotKey(w.cell, d)]
    {
      var rows: map<int, Slot> := map[];
      var missing := false;
      var d := w.start;
      while d < w.end
        invariant w.start <= d && (d <= w.end || d == w.start)
        invariant missing <==> exists n :: w.start <= n < d && SlotKey(w.cell, n) !in slots
        invariant forall n :: n in rows <==> w.start <= n < d && SlotKey(w.cell, n) in slots
        invariant forall n :: n in rows ==> rows[n] == slots[SlotKey(w.cell, n)]
      {
        var key := SlotKey(w.cell, d);
        if key in slots { rows := rows[d := slots[key]]; } else { missing := true; }
        d := d + 1;
      }
      locked := if missing then Err(InsufficientAvailability) else Ok(rows);
    }

    /** Some locked row fails the check. */
    method AnyShortfall(w: Window, locked: map<int, Slot>, c: Change) returns (short: bool)
      requires Open(slots, w)
      requires forall d :: d in locked <==> w.start <= d < w.end
      requires forall d :: d in locked ==> locked[d] == slots[SlotKey(w.cell, d)]
      ensures short <==> !AllAllowed(slots, w, c)
    {
      short := false;
      var d := w.start;
      while d < w.end
        invariant w.start <= d && (d <= w.end || d == w.start)
        invariant short <==> exists n :: w.start <= n < d && !c.Allows(locked[n])
      {
        if !c.Allows(locked[d]) { short := true; }
        d := d + 1;
      }
      if short {
        var n :| w.start <= n < d && !c.Allows(locked[n]);
        assert w.Covers(SlotKey(w.cell, n));
      } else {
        forall k | k in slots && w.Covers(k) ensures c.Allows(slots[k]) {
          assert k == SlotKey(w.cell, k.night) && k.night in locked;
        }
      }
    }

    /** One UPDATE of one row; the CHECK constraints may refuse it. */
    method UpdateRow(key: SlotKey, row: Slot) returns (ok: bool)
      requires key in slots
      modifies this`slots
      ensures ok == row.Good()
      ensures slots == if ok then old(slots)[key := row] else old(slots)
    {
      ok := row.Good();
      if ok { slots := slots[key := row]; }
    }

    method ConsumeWindow(w: Window, quantity: int, counter: Counter) returns (r: Result<()>)
      requires Valid()
      modifies this`slots
      ensures Valid() && WindowChanged(old(slots), slots, w, Consume(counter, quantity), r)
    {
      ghost var c := Consume(counter, quantity);
      var saved := slots;
      var locked :- LockWindow(w);
      var short := AnyShortfall(w, locked, Consume(counter, quantity));
      if short { return Err(InsufficientAvailability); }
      var d := w.start;
      while d < w.end
        invariant w.start <= d && (d <= w.end || d == w.start)
        invariant slots == Changed(saved, w.Until(d), c) && AllGood(slots)
      {
        var key := SlotKey(w.cell, d);
        RowUpdated(saved, w, d, c, slots);
        var row := slots[key];
        var consumed := match counter
                        case Sold => row.(sold := row.sold + quantity)
                        case Reserved => row.(reserved := row.reserved + quantity);
        assert consumed == c.On(row);
        var ok := UpdateRow(key, consumed);
        if !ok {
          slots := saved;
          return Err(IntegrityError);
        }
        d := d + 1;
      }
      AllUpdated(saved, w, d, c, slots);
      return Ok(());
    }

    method ReleaseWindow(w: Window, quantity: int, counter: Counter) returns (r: Result<()>)
      requires Valid()
      modifies this`slots
      ensures Valid() && WindowChanged(old(slots), slots, w, Release(counter, quantity), r)
    {
      ghost var c := Release(counter, quantity);
      var saved := slots;
      var locked :- LockWindow(w);
      var d := w.start;
      while d < w.end
        invariant w.start <= d && (d <= w.end || d == w.start)
        invariant slots == Changed(saved, w.Until(d), c) && AllGood(slots)
      {
        var key := SlotKey(w.cell, d);
        RowUpdated(saved, w, d, c, slots);
        var row := locked[d];
        assert row == slots[key];
        var held := match counter case Sold => row.sold case Reserved => row.reserved;
        var actual := if quantity < held then quantity else held;
        ReleasedRow(slots, key, counter, quantity);
        if actual > 0 {
          var released := match counter
                          case Sold => row.(sold := row.sold - actual)
                          case Reserved => row.(reserved := row.reserved - actual);
          assert released == c.On(row);
          var ok := UpdateRow(key, released);
          assert ok;
        }
        d := d + 1;
      }
      AllUpdated(saved, w, d, c, slots);
      return Ok(());
    }

    method ConvertReservedToSold(w: Window, quantity: int) returns (r: Result<()>)
      requires Valid()
      modifies this`slots
      ensures Valid() && WindowChanged(old(slots), slots, w, Change.Convert(quantity), r)
    {
      ghost var c := Change.Convert(quantity);
      var saved := slots;
      var locked :- LockWindow(w);
      var short := AnyShortfall(w, locked, Change.Convert(quantity));
      if short { return Err(InsufficientAvailability); }
      var d := w.start;
      while d < w.end
        invariant w.start <= d && (d <= w.end || d == w.start)
        invariant slots == Changed(saved, w.Until(d), c) && AllGood(slots)
      {
        var key := SlotKey(w.cell, d);
        RowUpdated(saved, w, d, c, slots);
        var row := slots[key];
        var converted := row.(reserved := row.reserved - quantity, sold := row.sold + quantity);
        assert converted == c.On(row);
        var ok := UpdateRow(key, converted);
        if !ok {
          slots := saved;
          return Err(IntegrityError);
        }
        d := d + 1;
      }
      AllUpdated(saved, w, d, c, slots);
      return Ok(());
    }

    /** Nights without a row are skipped; the answer is the number of rows adjusted. */
    method AdjustOutOfServiceWindow(w: Window, delta: int) returns (r: Result<int>)
      requires Valid()
      modifies this`slots
      ensures Valid()
      ensures match Apply(old(slots), w, OutOfService(delta))
        case Ok(t) => slots == t && r == Ok(RowCount(old(slots), w))
        case Err(e) => r == Err(e) && slots == old(slots)
    {
      ghost var c := OutOfService(delta);
      var saved := slots;
      var count := 0;
      var d := w.start;
      while d < w.end
        invariant w.start <= d && (d <= w.end || d == w.start)
        invariant slots == Changed(saved, w.Until(d), c) && AllGood(slots)
        invariant count == RowCount(saved, w.Until(d))
      {
        var key := SlotKey(w.cell, d);
        if key in slots {
          RowUpdated(saved, w, d, c, slots);
          var row := slots[key];
          var adjusted := row.(outOfService := row.outOfService + delta);
          assert adjusted == c.On(row);
          var ok := UpdateRow(key, adjusted);
          if !ok {
            slots := saved;
            return Err(IntegrityError);
          }
          count := count + 1;
        } else {
          ChangedNext(saved, w, d, c);
        }
        d := d + 1;
      }
      AllUpdated(saved, w, d, c, slots);
      if w.end < w.start { assert count == 0; } else { assert w.Until(d) == w; }
      return Ok(count);
    }

    /** The nights of the window that have no row yet. */
    method MissingNights(w: Window) returns (missing: seq<int>)
      ensures forall n :: n in missing <==> w.start <= n < w.end && SlotKey(w.cell, n) !in slots
      ensures |missing| == NightCount(w) - RowCount(slots, w)
    {
      missing := [];
      var d := w.start;
      while d < w.end
        invariant w.start <= d && (d <= w.end || d == w.start)
        invariant forall n :: n in missing <==> w.start <= n < d && SlotKey(w.cell, n) !in slots
        invariant |missing| + RowCount(slots, w.Until(d)) == d - w.start
      {
        if SlotKey(w.cell, d) !in slots { missing := missing + [d]; }
        d := d + 1;
      }
      if w.start <= w.end { assert w.Until(d) == w; }
    }

    /** Rows for the missing nights of the horizon only; the answer is how many were new. */
    method InitializeHorizon(w: Window, total: int) returns (r: Result<int>)
      requires Valid()
      modifies this`slots
      ensures Valid()
      ensures match OpenHorizon(old(slots), w, total)
        case Ok(t) => slots == t && r == Ok(NightCount(w) - RowCount(old(slots), w))
        case Err(e) => r == Err(e) && slots == old(slots)
    {
      var missing := MissingNights(w);
      if missing == [] { return Ok(0); }
      assert missing[0] in missing && SlotKey(w.cell, missing[0]) !in slots;
      if total < 0 { return Err(IntegrityError); }
      var saved := slots;
      var i := 0;
      while i < |missing|
        invariant 0 <= i <= |missing| && slots == Inserted(saved, w.cell, missing[..i], total)
      {
        assert missing[..i + 1][..i] == missing[..i];
        slots := slots[SlotKey(w.cell, missing[i]) := Slot(total, 0, 0, 0, 0)];
        i := i + 1;
      }
      assert missing[..i] == missing;
      InsertedOpens(saved, w, missing, total);
      return Ok(|missing|);
    }

    /** The unlocked preview of a consumption. */
    method IsSellable(w: Window, quantity: int) returns (sellable: bool)
      ensures sellable <==> Sellable(slots, w, quantity)
    {
      sellable := true;
      var d := w.start;
      while d < w.end
        invariant w.start <= d && (d <= w.end || d == w.start)
        invariant sellable <==> Sellable(slots, w.Until(d), quantity)
      {
        var key := SlotKey(w.cell, d);
        var remaining := if key in slots then slots[key].Remaining() else 0;
        if remaining < quantity { sellable := false; }
        d := d + 1;
      }
    }

    // ---------------------------------------------------------------- idempotency

    /** Answer from an existing record, or open a new one. */
    method Begin(id: RecordId, payload: Payload) returns (found: Option<Result<Response>>)
      modifies this`records
      ensures id in old(records) ==> records == old(records) && found.Some?
      ensures id in old(records) ==>
        Answers(Replay(old(Tables()), old(records)[id], payload), old(Tables()), Tables(), found.value)
      ensures id !in old(records) ==> found.None? && records == old(records)[id := InProgress(payload)]
    {
      if id !in records {
        records := records[id := InProgress(payload)];
        return None;
      }
      var record := records[id];
      if record.InProgress? { return Some(Err(KeyInProgress)); }
      if record.payload != payload { return Some(Err(KeyConflict)); }
      return Some(Ok(record.response));
    }

    method Sell(w: Window, quantity: int, key: string) returns (r: Result<Response>)
      requires Valid()
      modifies this
      ensures Valid() && Answers(Reservations.Sell(old(Tables()), w, quantity, key), old(Tables()), Tables(), r)
    {
      var saved, id, payload := Tables(), RecordId(w.cell.tenant, SellScope, key), WindowPayload(w, quantity);
      var found := Begin(id, payload);
      if found.Some? { return found.value; }
      var sold := ConsumeWindow(w, quantity, Sold);
      if sold.Err? {
        Restore(saved);
        return Err(Raised(sold.error));
      }
      sales := sales + [Sale(w, quantity)];
      records := records[id := Completed(payload, WindowDone(w.end - w.start))];
      return Ok(WindowDone(w.end - w.start));
    }

    method Hold(w: Window, quantity: int, key: string) returns (r: Result<Response>)
      requires Valid()
      modifies this
      ensures Valid() && Answers(Reservations.Hold(old(Tables()), w, quantity, key), old(Tables()), Tables(), r)
    {
      var saved, id, payload := Tables(), RecordId(w.cell.tenant, HoldScope, key), WindowPayload(w, quantity);
      var found := Begin(id, payload);
      if found.Some? { return found.value; }
      var held := ConsumeWindow(w, quantity, Reserved);
      if held.Err? {
        Restore(saved);
        return Err(Raised(held.error));
      }
      records := records[id := Completed(payload, WindowDone(w.end - w.start))];
      return Ok(WindowDone(w.end - w.start));
    }

    method ConvertHoldToSold(w: Window, quantity: int, key: string) returns (r: Result<Response>)
      requires Valid()
      modifies this
      ensures Valid() && Answers(ConvertHold(old(Tables()), w, quantity, key), old(Tables()), Tables(), r)
    {
      var saved, id, payload := Tables(), RecordId(w.cell.tenant, ConvertScope, key), WindowPayload(w, quantity);
      var found := Begin(id, payload);
      if found.Some? { return found.value; }
      var sold := ConvertReservedToSold(w, quantity);
      if sold.Err? {
        Restore(saved);
        return Err(Raised(sold.error));
      }
      records := records[id := Completed(payload, WindowDone(w.end - w.start))];
      return Ok(WindowDone(w.end - w.start));
    }

    // ---------------------------------------------------------------- reservations

    /** The status moves along a declared transition and its event is recorded with it. */
    method RunTransition(id: nat, t: Transition) returns (r: Result<()>)
      requires id < |reservations|
      modifies this`reservations, this`outbox
      ensures Advances(Move(old(Tables()), id, t), Tables(), r)
      ensures r.Err? ==> Tables() == old(Tables())
    {
      var target := t.From(reservations[id].status);
      if target.None? { return Err(TransitionNotAllowed); }
      reservations := reservations[id := reservations[id].(status := target.value)];
      match t.Event() {
        case None => assert outbox + [] == outbox;
        case Some(name) => outbox := outbox + [OutboxRow(name, id)];
      }
      return Ok(());
    }

    method Reserve(req: ReserveRequest, key: string, now: int) returns (r: Result<Response>)
      requires Valid()
      modifies this
      ensures Valid() && Answers(Reservations.Reserve(old(Tables()), req, key, now), old(Tables()), Tables(), r)
    {
      if req.lines == [] { return Err(InvalidRequest); }
      var saved, record := Tables(), RecordId(req.tenant, ReserveScope, key);
      var found := Begin(record, req.Payload());
      if found.Some? { return found.value; }
      var body := ReserveRows(req, key, now);
      if body.Err? {
        Restore(saved);
        return Err(Raised(body.error));
      }
      records := records[record := Completed(req.Payload(), body.value)];
      return body;
    }

    /** Hold every line, each under its own key. */
    method HoldAll(tenant: int, property: int, lines: seq<Line>, key: string) returns (r: Result<()>)
      requires Valid()
      modifies this
      ensures Valid() && Advances(HoldLines(old(Tables()), tenant, property, lines, key, 1), Tables(), r)
    {
      ghost var start := Tables();
      var i := 0;
      while i < |lines|
        invariant 0 <= i <= |lines| && Valid()
        invariant HoldLines(start, tenant, property, lines, key, 1)
               == HoldLines(Tables(), tenant, property, lines[i..], key, i + 1)
      {
        var held := Hold(lines[i].Stay(tenant, property), lines[i].quantity, LineKey(key, i + 1));
        if held.Err? { return Err(held.error); }
        assert lines[i..][1..] == lines[i + 1..];
        i := i + 1;
      }
      assert lines[i..] == [];
      return Ok(());
    }

    /** The mutation inside `reserve`: rows, one hold per line, and the transition to held. */
    method ReserveRows(req: ReserveRequest, key: string, now: int) returns (r: Result<Response>)
      requires Valid()
      modifies this
      ensures match ReserveBody(old(Tables()), req, key, now)
        case Ok(step) => Valid() && Tables() == step.store && r == Ok(step.response)
        case Err(e) => r == Err(e)
    {
      if !req.quoted { return Err(QuoteRejected); }
      if !req.Storable() { return Err(IntegrityError); }
      var id := |reservations|;
      reservations := reservations + [Reservation(req.tenant, req.property, Draft, now + req.holdMinutes, req.lines)];
      var held :- HoldAll(req.tenant, req.property, req.lines, key);
      var moved :- RunTransition(id, ToHeld);
      return Ok(ReservationRef(id));
    }

    /** Give back every line's hold, one window after the other. */
    method ReleaseAll(tenant: int, property: int, lines: seq<Line>) returns (r: Result<()>)
      requires Valid()
      modifies this`slots
      ensures Valid() && Advances(ReleaseLines(old(Tables()), tenant, property, lines), Tables(), r)
    {
      ghost var start := Tables();
      var i := 0;
      while i < |lines|
        invariant 0 <= i <= |lines| && Valid()
        invariant ReleaseLines(start, tenant, property, lines)
               == ReleaseLines(Tables(), tenant, property, lines[i..])
      {
        var released :- ReleaseWindow(lines[i].Stay(tenant, property), lines[i].quantity, Reserved);
        assert lines[i..][1..] == lines[i + 1..];
        i := i + 1;
      }
      assert lines[i..] == [];
      return Ok(());
    }

    method Expire(id: int) returns (r: Result<Response>)
      requires Valid()
      modifies this
      ensures Valid() && Answers(Reservations.Expire(old(Tables()), id), old(Tables()), Tables(), r)
    {
      if !(0 <= id < |reservations|) { return Err(DoesNotExist); }
      var saved, row := Tables(), reservations[id];
      if !row.status.Unsettled() { return Ok(ReservationRef(id)); }
      var released := ReleaseAll(row.tenant, row.property, row.lines);
      if released.Err? {
        Restore(saved);
        return Err(released.error);
      }
      var moved := RunTransition(id, ToExpired);
      return Ok(ReservationRef(id));
    }

    method Cancel(tenant: int, id: int, key: string) returns (r: Result<Response>)
      requires Valid()
      modifies this
      ensures Valid() && Answers(Reservations.Cancel(old(Tables()), tenant, id, key), old(Tables()), Tables(), r)
    {
      var saved, record, payload := Tables(), RecordId(tenant, CancelScope, key), ReservationPayload(id);
      var found := Begin(record, payload);
      if found.Some? { return found.value; }
      if !Found(Tables(), tenant, id) {
        Restore(saved);
        return Err(DoesNotExist);
      }
      var row := reservations[id];
      if row.status.Unsettled() {
        var released := ReleaseAll(row.tenant, row.property, row.lines);
        if released.Err? {
          Restore(saved);
          return Err(Raised(released.error));
        }
        var moved := RunTransition(id, ToCancelled);
      } else if row.status.Draft? {
        var moved := RunTransition(id, ToCancelled);
      }
      records := records[record := Completed(payload, ReservationRef(id))];
      return Ok(ReservationRef(id));
    }

    method RequestPayment(tenant: int, id: int, now: int) returns (r: Result<Response>)
      requires Valid()
      modifies this
      ensures Valid() && Answers(Reservations.RequestPayment(old(Tables()), tenant, id, now), old(Tables()), Tables(), r)
    {
      if !Found(Tables(), tenant, id) { return Err(DoesNotExist); }
      if Overdue(reservations[id], now) { return Err(TransitionNotAllowed); }
      var moved :- RunTransition(id, ToAwaitingPayment);
      return Ok(ReservationRef(id));
    }

    /** Sell every line's hold, then move the reservation to converted. */
    method Convert(tenant: int, id: int, now: int) returns (r: Result<()>)
      requires Valid()
      modifies this
      ensures Valid() && Advances(ConvertReservation(old(Tables()), tenant, id, now), Tables(), r)
    {
      if !Found(Tables(), tenant, id) { return Err(DoesNotExist); }
      var row := reservations[id];
      if Overdue(row, now) { return Err(TransitionNotAllowed); }
      if !row.status.AwaitingPayment? { return Err(TransitionNotAllowed); }
      ghost var start := Tables();
      var i := 0;
      while i < |row.lines|
        invariant 0 <= i <= |row.lines| && Valid()
        invariant ConvertLines(start, id, row.tenant, row.property, row.lines, 1)
               == ConvertLines(Tables(), id, row.tenant, row.property, row.lines[i..], i + 1)
      {
        var line := row.lines[i];
        var sold := ConvertHoldToSold(line.Stay(row.tenant, row.property), line.quantity, ConvertKey(id, i + 1));
        if sold.Err? { return Err(sold.error); }
        assert row.lines[i..][1..] == row.lines[i + 1..];
        i := i + 1;
      }
      assert row.lines[i..] == [];
      r := RunTransition(id, ToConverted);
    }

    // ---------------------------------------------------------------- bookings

    method Confirm(tenant: int, id: int, key: string, now: int) returns (r: Result<Response>)
      requires Valid()
      modifies this
      ensures Valid() && Answers(Reservations.Confirm(old(Tables()), tenant, id, key, now), old(Tables()), Tables(), r)
    {
      var saved, record, payload := Tables(), RecordId(tenant, ConfirmScope, key), ReservationPayload(id);
      var found := Begin(record, payload);
      if found.Some? { return found.value; }
      var body := ConfirmRows(tenant, id, now);
      if body.Err? {
        Restore(saved);
        return Err(Raised(body.error));
      }
      records := records[record := Completed(payload, body.value)];
      return body;
    }

    /** The mutation inside `confirm`: conversion, booking, line fan-out, confirmation. */
    method ConfirmRows(tenant: int, id: int, now: int) returns (r: Result<Response>)
      requires Valid()
      modifies this
      ensures match ConfirmBody(old(Tables()), tenant, id, now)
        case Ok(step) => Valid() && Tables() == step.store && r == Ok(step.response)
        case Err(e) => r == Err(e)
    {
      var converted :- Convert(tenant, id, now);
      var row := reservations[id];
      if row.lines == [] { return Err(InvalidRequest); }
      var arrival, departure := FirstArrival(row.lines), LastDeparture(row.lines);
      if Booked(Tables(), id) || departure <= arrival { return Err(IntegrityError); }
      var booking := |bookings|;
      var lines := FanOutLines(row.lines);
      bookings := bookings + [Booking(row.tenant, row.property, id, PendingPayment, arrival, departure, lines)];
      bookings := bookings[booking := bookings[booking].(status := Confirmed)];
      outbox := outbox + [OutboxRow(BookingConfirmed, booking)];
      return Ok(BookingRef(booking));
    }

    /** `quantity` booking lines per reservation line, numbered consecutively from one. */
    method FanOutLines(lines: seq<Line>) returns (bookingLines: seq<BookingLine>)
      ensures bookingLines == FanOut(lines, 0)
    {
      var lineNo := 0;
      bookingLines := [];
      var i := 0;
      while i < |lines|
        invariant 0 <= i <= |lines| && lineNo >= 0
        invariant bookingLines + FanOut(lines[i..], lineNo) == FanOut(lines, 0)
      {
        var line, count := lines[i], 0;
        ghost var before, base := bookingLines, lineNo;
        while count < line.quantity
          invariant 0 <= count && (count <= line.quantity || count == 0) && lineNo == base + count
          invariant bookingLines == before + Copies(line, count, base)
        {
          lineNo := lineNo + 1;
          bookingLines := bookingLines + [BookingLine(lineNo, line.roomType, line.arrival, line.departure)];
          OneMoreCopy(line, count, base);
          count := count + 1;
        }
        assert Copies(line, count, base) == Copies(line, line.quantity, base);
        FanOutStep(lines, i, before, base);
        i := i + 1;
      }
      assert lines[i..] == [] && bookingLines + [] == bookingLines;
    }

    // ---------------------------------------------------------------- the sweep

    /** Expire every overdue reservation, each in its own transaction. */
    method SweepExpiredHolds(now: int) returns (r: Result<nat>)
      requires Valid()
      modifies this
      ensures Valid()
      ensures old(Inv(Tables())) ==>
        var ids := OverdueIds(old(reservations), now);
        r == Ok(|ids|) && Tables() == Sweep(old(Tables()), ids)
    {
      var ids := OverdueIds(reservations, now);
      ghost var start := Tables();
      assert forall j :: 0 <= j < |ids| ==> ids[j] in ids;
      var expired := 0;
      while expired < |ids|
        invariant 0 <= expired <= |ids| && Valid()
        invariant Inv(start) ==> Tables() == Sweep(start, ids[..expired])
      {
        if Inv(start) { SweepStep(start, ids, expired); }
        var done := Expire(ids[expired]);
        if done.Err? { return Err(done.error); }
        expired := expired + 1;
      }
      assert ids[..expired] == ids;
      return Ok(expired);
    }
  }

  lemma OneMoreCopy(line: Line, count: nat, n: nat)
    ensures Copies(line, count + 1, n) ==
            Copies(line, count, n) + [BookingLine(n + count + 1, line.roomType, line.arrival, line.departure)]
  {
  }

  lemma FanOutStep(lines: seq<Line>, i: nat, before: seq<BookingLine>, n: nat)
    requires i < |lines|
    ensures var quantity := if lines[i].quantity > 0 then lines[i].quantity else 0;
      before + FanOut(lines[i..], n)
        == before + Copies(lines[i], lines[i].quantity, n) + FanOut(lines[i + 1..], n + quantity)
  {
    assert lines[i..][1..] == lines[i + 1..];
  }

  /** In a ledger that satisfies its invariant, the next expiry of a sweep never raises. */
  lemma SweepStep(s: Store, ids: seq<nat>, n: nat)
    requires Inv(s) && n < |ids| && forall j :: 0 <= j < |ids| ==> ids[j] < |s.reservations|
    ensures var r := Reservations.Expire(Sweep(s, ids[..n]), ids[n]);
      r.Ok? && Sweep(s, ids[..n + 1]) == r.value.store
  {
    assert ids[..n + 1][..n] == ids[..n];
    SweepExpires(s, ids[..n]);
    var t := Sweep(s, ids[..n]);
    if t.reservations[ids[n]].status.Unsettled() { ReleaseExact(t, ids[n], ToExpired); }
  }
}
