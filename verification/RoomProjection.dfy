/**
 The room-state projection: folding `room.state_changed` events into the out-of-service counters.
 Every transition of a room writes its event, so the counters follow the rooms.
 */
module RoomProjection {
  import opened Outcomes
  import opened Slots
  import RoomFloor

  type Room = RoomFloor.Room
  type StateChange = RoomFloor.StateChange
  type Floor = RoomFloor.Floor

  /** The nights from the day an event is folded on. */
  datatype Horizon = Horizon(today: int, days: int)
  {
    predicate Covers(night: int) {
      today <= night < today + days
    }
  }

  /** An event, and the horizon of the day it is folded on. */
  datatype Fold = FoldOn(change: StateChange, horizon: Horizon)

  /** The changes of the booking side. */
  type Booking = c: Change | c.NeedsEveryNight() witness Change.Convert(0)

  /** What happens to the slot table: folds, new rows, and everything the booking side does to it. */
  datatype Happening =
    | Folded(fold: Fold)
    | Extended(w: Window, total: int)
    | Booked(w: Window, change: Booking)

  function CellOf(room: Room): Cell {
    Cell(room.tenant, room.property, room.roomType)
  }

  function One(b: bool): int {
    if b then 1 else 0
  }

  /** Only a change across the sellable boundary counts. */
  function Shift(c: StateChange): int {
    One(c.to.Unsellable()) - One(c.from.Unsellable())
  }

  /** One event: the whole window, or nothing and an error. */
  ghost function FoldChange(slots: SlotTable, rooms: seq<Room>, f: Fold): Result<SlotTable> {
    if Shift(f.change) == 0 || f.change.room >= |rooms| then Ok(slots)
    else Apply(slots, Window(CellOf(rooms[f.change.room]), f.horizon.today, f.horizon.today + f.horizon.days),
               OutOfService(Shift(f.change)))
  }

  ghost function FoldChanges(slots: SlotTable, rooms: seq<Room>, fs: seq<Fold>): Result<SlotTable> {
    if fs == [] then Ok(slots)
    else
      var before :- FoldChanges(slots, rooms, fs[..|fs| - 1]);
      FoldChange(before, rooms, fs[|fs| - 1])
  }

  ghost function Happen(slots: SlotTable, rooms: seq<Room>, e: Happening): Result<SlotTable> {
    match e
    case Folded(f) => FoldChange(slots, rooms, f)
    case Extended(w, total) => OpenHorizon(slots, w, total)
    case Booked(w, c) => Apply(slots, w, c)
  }

  /** One thing after the other, none of them refused. */
  ghost function History(slots: SlotTable, rooms: seq<Room>, hs: seq<Happening>): Result<SlotTable> {
    if hs == [] then Ok(slots)
    else
      var before :- History(slots, rooms, hs[..|hs| - 1]);
      Happen(before, rooms, hs[|hs| - 1])
  }

  /** What one fold adds to the counter of a row. */
  function Moved(rooms: seq<Room>, f: Fold, k: SlotKey): int {
    if f.change.room < |rooms| && CellOf(rooms[f.change.room]) == k.cell && f.horizon.Covers(k.night) then Shift(f.change)
    else 0
  }

  /** How many rooms the folds take out of a row, less those they bring back. */
  function TakenOut(rooms: seq<Room>, fs: seq<Fold>, k: SlotKey): int {
    if fs == [] then 0 else TakenOut(rooms, fs[..|fs| - 1], k) + Moved(rooms, fs[|fs| - 1], k)
  }

  function Adjusted(slot: Slot, delta: int): Slot {
    slot.(outOfService := slot.outOfService + delta)
  }

  /** The rows as the first n folds leave them satisfy the constraints. */
  ghost predicate Fits(slots: SlotTable, rooms: seq<Room>, fs: seq<Fold>, n: nat)
    requires n <= |fs|
  {
    forall k :: k in slots ==> Adjusted(slots[k], TakenOut(rooms, fs[..n], k)).Good()
  }

  ghost predicate AllFit(slots: SlotTable, rooms: seq<Room>, fs: seq<Fold>) {
    forall n: nat :: n <= |fs| ==> Fits(slots, rooms, fs, n)
  }

  ghost predicate Follows(slots: SlotTable, rooms: seq<Room>, fs: seq<Fold>, t: SlotTable) {
    t.Keys == slots.Keys && forall k :: k in slots ==> t[k] == Adjusted(slots[k], TakenOut(rooms, fs, k))
  }

  /** Folding succeeds exactly when no prefix breaks a constraint, and then every row has moved by what
      its rooms have on the days whose horizon reached it. */
  lemma {:induction false} FoldChangesExact(slots: SlotTable, rooms: seq<Room>, fs: seq<Fold>)
    requires AllGood(slots)
    ensures FoldChanges(slots, rooms, fs).Ok? <==> AllFit(slots, rooms, fs)
    ensures FoldChanges(slots, rooms, fs).Ok? ==> Follows(slots, rooms, fs, FoldChanges(slots, rooms, fs).value)
    ensures FoldChanges(slots, rooms, fs).Ok? ==> AllGood(FoldChanges(slots, rooms, fs).value)
    decreases |fs|
  {
    assert fs[..|fs|] == fs;
    if fs == [] {
      assert forall k :: TakenOut(rooms, fs[..0], k) == 0;
    } else {
      var front := fs[..|fs| - 1];
      FoldChangesExact(slots, rooms, front);
      PrefixesFit(slots, rooms, fs);
      if FoldChanges(slots, rooms, front).Ok? {
        LastFits(slots, rooms, fs, FoldChanges(slots, rooms, front).value);
      }
    }
  }

  lemma PrefixesFit(slots: SlotTable, rooms: seq<Room>, fs: seq<Fold>)
    requires fs != []
    ensures AllFit(slots, rooms, fs) <==> AllFit(slots, rooms, fs[..|fs| - 1]) && Fits(slots, rooms, fs, |fs|)
  {
    var front := fs[..|fs| - 1];
    forall n: nat | n <= |fs| - 1 ensures Fits(slots, rooms, fs, n) == Fits(slots, rooms, front, n) {
      assert front[..n] == fs[..n];
    }
  }

  lemma LastFits(slots: SlotTable, rooms: seq<Room>, fs: seq<Fold>, before: SlotTable)
    requires fs != [] && AllGood(before) && Follows(slots, rooms, fs[..|fs| - 1], before)
    ensures var r := FoldChange(before, rooms, fs[|fs| - 1]);
      && (r.Ok? <==> Fits(slots, rooms, fs, |fs|))
      && (r.Ok? ==> Follows(slots, rooms, fs, r.value) && AllGood(r.value))
  {
    var last := fs[|fs| - 1];
    assert fs[..|fs|] == fs;
    FoldChangeMoves(before, rooms, last);
    if Shift(last.change) != 0 && last.change.room < |rooms| {
      var w := Window(CellOf(rooms[last.change.room]), last.horizon.today, last.horizon.today + last.horizon.days);
      var c := OutOfService(Shift(last.change));
      forall k | k in slots ensures Adjusted(slots[k], TakenOut(rooms, fs, k)) == Changed(before, w, c)[k] { }
      if Fits(slots, rooms, fs, |fs|) { assert GoodWithin(Changed(before, w, c), w); }
    }
  }

  /** What a fold that succeeds does to every row. */
  lemma FoldChangeMoves(slots: SlotTable, rooms: seq<Room>, f: Fold)
    ensures var r := FoldChange(slots, rooms, f);
      r.Ok? ==> r.value.Keys == slots.Keys && forall k :: k in slots ==> r.value[k] == Adjusted(slots[k], Moved(rooms, f, k))
  {
  }

  /** Out of service or out of order. */
  predicate IsOut(state: RoomFloor.RoomState) {
    state == RoomFloor.OutOfService || state == RoomFloor.OutOfOrder
  }

  /** The rows an event is about: the room's type, in its property and tenant, from the day it is folded on. */
  predicate Reaches(room: Room, h: Horizon, k: SlotKey) {
    && k.cell.tenant == room.tenant && k.cell.property == room.property && k.cell.roomType == room.roomType
    && h.today <= k.night < h.today + h.days
  }

  /** One event in terms of the rows: nothing, unless the room goes out or comes back; then one unit more or
      less on every row it is about, refused when a row would come to less than nothing or more than its total. */
  lemma FoldInTables(slots: SlotTable, rooms: seq<Room>, f: Fold)
    requires AllGood(slots)
    ensures var r, c := FoldChange(slots, rooms, f), f.change;
      if c.room >= |rooms| || IsOut(c.from) == IsOut(c.to) then r == Ok(slots)
      else
        var delta := if IsOut(c.to) then 1 else -1;
        && (r.Ok? <==> forall k :: k in slots && Reaches(rooms[c.room], f.horizon, k) ==>
              && slots[k].outOfService + delta >= 0
              && slots[k].sold + slots[k].reserved + slots[k].blocked + slots[k].outOfService + delta <= slots[k].total)
        && (r.Err? ==> r.error == IntegrityError)
        && (r.Ok? ==> r.value.Keys == slots.Keys && forall k :: k in slots ==>
              r.value[k] == slots[k].(outOfService :=
                slots[k].outOfService + if Reaches(rooms[c.room], f.horizon, k) then delta else 0))
  {
    if f.change.room < |rooms| {
      var w := Window(CellOf(rooms[f.change.room]), f.horizon.today, f.horizon.today + f.horizon.days);
      var c := OutOfService(Shift(f.change));
      forall k | k in slots && w.Covers(k) ensures Changed(slots, w, c)[k] == c.On(slots[k]) { }
      assert forall k: SlotKey :: w.Covers(k) <==> Reaches(rooms[f.change.room], f.horizon, k);
    }
  }

  // ---------------------------------------------------------------- folds among everything else

  function FoldsOf(hs: seq<Happening>): seq<Fold> {
    if hs == [] then []
    else
      var front, last := FoldsOf(hs[..|hs| - 1]), hs[|hs| - 1];
      if last.Folded? then front + [last.fold] else front
  }

  lemma HappenMoves(slots: SlotTable, rooms: seq<Room>, e: Happening)
    requires Happen(slots, rooms, e).Ok?
    ensures var t := Happen(slots, rooms, e).value;
      && slots.Keys <= t.Keys
      && (forall k :: k in slots ==>
            t[k].outOfService == slots[k].outOfService + if e.Folded? then Moved(rooms, e.fold, k) else 0)
      && (forall k :: k in t && k !in slots ==> e.Extended? && e.w.Covers(k) && t[k].outOfService == 0)
      && (AllGood(slots) ==> AllGood(t))
      && (e.Booked? ==> forall k :: k in t ==> t[k] == if e.w.Covers(k) then e.change.On(slots[k]) else slots[k])
  {
    if e.Folded? { FoldChangeMoves(slots, rooms, e.fold); }
  }

  /** Whatever else happens to the table meanwhile, a row's counter moves by the folds that reach it. */
  lemma {:induction false} CountersMove(slots: SlotTable, rooms: seq<Room>, hs: seq<Happening>)
    requires AllGood(slots) && History(slots, rooms, hs).Ok?
    ensures var t := History(slots, rooms, hs).value;
      && AllGood(t) && slots.Keys <= t.Keys
      && forall k :: k in slots ==> t[k].outOfService == slots[k].outOfService + TakenOut(rooms, FoldsOf(hs), k)
    decreases |hs|
  {
    if hs != [] {
      CountersMove(slots, rooms, hs[..|hs| - 1]);
      HappenMoves(History(slots, rooms, hs[..|hs| - 1]).value, rooms, hs[|hs| - 1]);
    }
  }

  lemma {:induction false} HistorySplit(slots: SlotTable, rooms: seq<Room>, a: seq<Happening>, b: seq<Happening>)
    ensures History(slots, rooms, a + b) ==
      if History(slots, rooms, a).Err? then History(slots, rooms, a) else History(History(slots, rooms, a).value, rooms, b)
    decreases |b|
  {
    if b == [] {
      assert a + b == a;
    } else {
      assert (a + b)[..|a + b| - 1] == a + b[..|b| - 1];
      HistorySplit(slots, rooms, a, b[..|b| - 1]);
    }
  }

  /** A row opened meanwhile starts with all rooms in service: what was folded before never reaches it. */
  lemma OpenedLater(slots: SlotTable, rooms: seq<Room>, before: seq<Happening>, w: Window, total: int,
                    after: seq<Happening>, k: SlotKey)
    requires AllGood(slots) && History(slots, rooms, before + [Extended(w, total)] + after).Ok?
    requires History(slots, rooms, before).Ok? ==> k !in History(slots, rooms, before).value
    requires w.Covers(k)
    ensures var t := History(slots, rooms, before + [Extended(w, total)] + after).value;
      k in t && t[k].outOfService == TakenOut(rooms, FoldsOf(after), k)
  {
    var opening := Extended(w, total);
    HistorySplit(slots, rooms, before + [opening], after);
    HistorySplit(slots, rooms, before, [opening]);
    CountersMove(slots, rooms, before);
    var mid := History(slots, rooms, before).value;
    assert [opening][..0] == [];
    assert History(mid, rooms, [opening]) == Happen(mid, rooms, opening);
    assert k == SlotKey(w.cell, k.night);
    HappenMoves(mid, rooms, opening);
    CountersMove(Happen(mid, rooms, opening).value, rooms, after);
  }

  lemma {:induction false} NewRowsInService(slots: SlotTable, rooms: seq<Room>, hs: seq<Happening>)
    requires History(slots, rooms, hs).Ok? && FoldsOf(hs) == []
    ensures var t := History(slots, rooms, hs).value;
      forall k :: k in t && k !in slots ==> t[k].outOfService == 0
    decreases |hs|
  {
    if hs != [] {
      NewRowsInService(slots, rooms, hs[..|hs| - 1]);
      HappenMoves(History(slots, rooms, hs[..|hs| - 1]).value, rooms, hs[|hs| - 1]);
    }
  }

  // ---------------------------------------------------------------- taken out, then brought back

  /** One and the same room leaves the sellable rooms and comes back. */
  predicate OutAndBack(rooms: seq<Room>, out: Fold, back: Fold) {
    out.change.room == back.change.room < |rooms| && Shift(out.change) == 1 && Shift(back.change) == -1
  }

  /**
   Bringing a room back is refused exactly when the horizon of that day holds a row that did not exist
   when the room was taken out, or that was beyond the horizon of that day and has no other room out.
   */
  lemma RestoreExactly(slots: SlotTable, rooms: seq<Room>, out: Fold, between: seq<Happening>, back: Fold)
    requires AllGood(slots) && OutAndBack(rooms, out, back) && FoldsOf(between) == []
    requires FoldChange(slots, rooms, out).Ok? && History(FoldChange(slots, rooms, out).value, rooms, between).Ok?
    ensures var now := History(FoldChange(slots, rooms, out).value, rooms, between).value;
      FoldChange(now, rooms, back).Ok? <==>
        forall k :: k in now && k.cell == CellOf(rooms[back.change.room]) && back.horizon.Covers(k.night) ==>
          k in slots && (out.horizon.Covers(k.night) || slots[k].outOfService >= 1)
  {
    var mid := FoldChange(slots, rooms, out).value;
    HappenMoves(slots, rooms, Folded(out));
    CountersMove(mid, rooms, between);
    NewRowsInService(mid, rooms, between);
    var now := History(mid, rooms, between).value;
    BackExactly(now, rooms, back);
    forall k | k in now && k.cell == CellOf(rooms[back.change.room])
      ensures now[k].outOfService >= 1 <==> k in slots && (out.horizon.Covers(k.night) || slots[k].outOfService >= 1)
    {
    }
  }

  /** Bringing a room back needs a room out on every row of the horizon. */
  lemma BackExactly(slots: SlotTable, rooms: seq<Room>, back: Fold)
    requires AllGood(slots) && back.change.room < |rooms| && Shift(back.change) == -1
    ensures FoldChange(slots, rooms, back).Ok? <==>
      forall k :: k in slots && k.cell == CellOf(rooms[back.change.room]) && back.horizon.Covers(k.night) ==>
        slots[k].outOfService >= 1
  {
    var w := Window(CellOf(rooms[back.change.room]), back.horizon.today, back.horizon.today + back.horizon.days);
    var c := OutOfService(-1);
    forall k | k in slots && w.Covers(k)
      ensures Changed(slots, w, c)[k] == Adjusted(slots[k], -1) && (Adjusted(slots[k], -1).Good() <==> slots[k].outOfService >= 1)
    {
    }
  }

  /** The cell has rows for just the nights [first, last). */
  ghost predicate Spans(slots: SlotTable, cell: Cell, first: int, last: int) {
    forall n :: SlotKey(cell, n) in slots <==> first <= n < last
  }

  function Least(a: int, b: int): int {
    if a < b then a else b
  }

  /**
   In days: with rows for [first, last) then and [first, later) now, and no other room out, bringing the
   room back succeeds exactly when the horizon of today reaches no further into the rows than that of
   the day it was taken out did, or reaches no row at all.
   */
  lemma RestoreByDays(slots: SlotTable, rooms: seq<Room>, out: Fold, between: seq<Happening>, back: Fold,
                      first: int, last: int, later: int)
    requires AllGood(slots) && OutAndBack(rooms, out, back) && FoldsOf(between) == []
    requires FoldChange(slots, rooms, out).Ok? && History(FoldChange(slots, rooms, out).value, rooms, between).Ok?
    requires first <= out.horizon.today <= back.horizon.today && out.horizon.days == back.horizon.days >= 1
    requires Spans(slots, CellOf(rooms[out.change.room]), first, last)
    requires Spans(History(FoldChange(slots, rooms, out).value, rooms, between).value, CellOf(rooms[out.change.room]), first, later)
    requires forall k :: k in slots && k.cell == CellOf(rooms[out.change.room]) ==> slots[k].outOfService == 0
    ensures FoldChange(History(FoldChange(slots, rooms, out).value, rooms, between).value, rooms, back).Ok? <==>
      || later <= back.horizon.today
      || Least(back.horizon.today + back.horizon.days, later) <= Least(out.horizon.today + out.horizon.days, last)
  {
    var cell := CellOf(rooms[out.change.room]);
    var now := History(FoldChange(slots, rooms, out).value, rooms, between).value;
    RestoreExactly(slots, rooms, out, between, back);
    var reached := Least(back.horizon.today + back.horizon.days, later);
    if FoldChange(now, rooms, back).Ok? {
      if back.horizon.today < later { assert SlotKey(cell, reached - 1) in now; }
    } else {
      var k :| k in now && k.cell == cell && back.horizon.Covers(k.night)
        && !(k in slots && (out.horizon.Covers(k.night) || slots[k].outOfService >= 1));
      assert k == SlotKey(cell, k.night);
    }
  }

  // ---------------------------------------------------------------- events against rooms

  /** How many rooms of a cell the changes take out of sale, less those they bring back. */
  function Net(rooms: seq<Room>, cs: seq<StateChange>, cell: Cell): int {
    if cs == [] then 0
    else
      var last := cs[|cs| - 1];
      Net(rooms, cs[..|cs| - 1], cell) + if last.room < |rooms| && CellOf(rooms[last.room]) == cell then Shift(last) else 0
  }

  /** Rooms of a cell that may not be sold. */
  function Unsellable(rooms: seq<Room>, cell: Cell): nat {
    if rooms == [] then 0
    else
      var last := rooms[|rooms| - 1];
      Unsellable(rooms[..|rooms| - 1], cell) + if CellOf(last) == cell && last.state.Unsellable() then 1 else 0
  }

  /** Room r, if any, has changed state and written its event; nothing else about the rooms' states has changed. */
  ghost predicate Turned(f: Floor, g: Floor, r: nat) {
    && r < |f.rooms| == |g.rooms|
    && CellOf(g.rooms[r]) == CellOf(f.rooms[r])
    && g.changes == f.changes + [RoomFloor.StateChange(r, f.rooms[r].state, g.rooms[r].state)]
    && forall q :: 0 <= q < |f.rooms| && q != r ==> g.rooms[q] == f.rooms[q]
  }

  /** Every operation on the floor turns one room with its event, or none. */
  lemma NextTurns(f: Floor, op: RoomFloor.Operation)
    ensures var g := RoomFloor.Next(f, op);
      (g.changes == f.changes && g.rooms == f.rooms) || exists r :: Turned(f, g, r)
  {
    var g := RoomFloor.Next(f, op);
    match op
    case Allocating(tenant, line) =>
      if RoomFloor.AllocateLine(f, tenant, line).Ok? {
        RoomFloor.BestIsLeast(f, tenant, line, |f.rooms|);
        assert Turned(f, g, RoomFloor.Best(f, tenant, line, |f.rooms|).value);
      }
    case CheckingOut(line, today) =>
      if RoomFloor.CheckOut(f, line, today).Ok? { assert Turned(f, g, f.lines[line].room.value); }
    case Starting(k) => if g != f { assert Turned(f, g, f.tasks[k].room); }
    case Completing(k) => if g != f { assert Turned(f, g, f.tasks[k].room); }
    case Inspecting(k, _) => if g != f { assert Turned(f, g, f.tasks[k].room); }
    case Turning(r, _) => if g != f { assert Turned(f, g, r); }
    case _ =>
  }

  lemma {:induction false} UnsellableUpdate(rooms: seq<Room>, r: nat, room: Room, cell: Cell)
    requires r < |rooms| && CellOf(room) == CellOf(rooms[r])
    ensures Unsellable(rooms[r := room], cell) == Unsellable(rooms, cell) +
      if CellOf(room) == cell then One(room.state.Unsellable()) - One(rooms[r].state.Unsellable()) else 0
  {
    var n := |rooms| - 1;
    if r < n {
      assert rooms[r := room][..n] == rooms[..n][r := room];
      UnsellableUpdate(rooms[..n], r, room, cell);
    } else {
      assert rooms[r := room][..n] == rooms[..n];
    }
  }

  ghost predicate SameCells(f: Floor, g: Floor) {
    |f.rooms| == |g.rooms| && forall r :: 0 <= r < |f.rooms| ==> CellOf(g.rooms[r]) == CellOf(f.rooms[r])
  }

  lemma {:induction false} NetSameCells(a: seq<Room>, b: seq<Room>, cs: seq<StateChange>, cell: Cell)
    requires |a| == |b| && forall r :: 0 <= r < |a| ==> CellOf(a[r]) == CellOf(b[r])
    ensures Net(a, cs, cell) == Net(b, cs, cell)
  {
    if cs != [] { NetSameCells(a, b, cs[..|cs| - 1], cell); }
  }

  /** The events so far take out exactly as many rooms as are now out. */
  ghost predicate Accounted(f: Floor, g: Floor, cell: Cell) {
    SameCells(f, g) && Net(f.rooms, g.changes, cell) - Net(f.rooms, f.changes, cell)
      == Unsellable(g.rooms, cell) - Unsellable(f.rooms, cell)
  }

  lemma TurnedAccounts(f: Floor, g: Floor, r: nat, cell: Cell)
    requires Turned(f, g, r)
    ensures Accounted(f, g, cell)
  {
    assert g.rooms == f.rooms[r := g.rooms[r]];
    UnsellableUpdate(f.rooms, r, g.rooms[r], cell);
    assert g.changes[..|f.changes|] == f.changes;
  }

  lemma {:induction false} RunAccounts(f: Floor, run: seq<RoomFloor.Operation>, cell: Cell)
    ensures Accounted(f, RoomFloor.Execute(f, run), cell)
    ensures f.changes <= RoomFloor.Execute(f, run).changes
    decreases |run|
  {
    if run != [] {
      var front, op := run[..|run| - 1], run[|run| - 1];
      RunAccounts(f, front, cell);
      var e := RoomFloor.Execute(f, front);
      var g := RoomFloor.Next(e, op);
      NextTurns(e, op);
      if r :| Turned(e, g, r) { TurnedAccounts(e, g, r, cell); }
      NetSameCells(f.rooms, e.rooms, g.changes, cell);
      NetSameCells(f.rooms, e.rooms, e.changes, cell);
    }
  }

  /** The folds that reach a row are those of positions a to b - 1. */
  predicate Covering(fs: seq<Fold>, night: int, a: nat, b: nat) {
    forall i: nat :: i < |fs| ==> (fs[i].horizon.Covers(night) <==> a <= i < b)
  }

  function ChangesOf(fs: seq<Fold>): (cs: seq<StateChange>)
    ensures |cs| == |fs|
  {
    seq(|fs|, i requires 0 <= i < |fs| => fs[i].change)
  }

  lemma {:induction false} TakenOutBetween(rooms: seq<Room>, fs: seq<Fold>, k: SlotKey, a: nat, b: nat, n: nat)
    requires a <= b <= |fs| && n <= |fs| && Covering(fs, k.night, a, b)
    ensures var m := if n < a then a else if n > b then b else n;
      TakenOut(rooms, fs[..n], k) == Net(rooms, ChangesOf(fs)[..m], k.cell) - Net(rooms, ChangesOf(fs)[..a], k.cell)
  {
    if n > 0 {
      TakenOutBetween(rooms, fs, k, a, b, n - 1);
      assert fs[..n][..n - 1] == fs[..n - 1];
      assert fs[n - 1].horizon.Covers(k.night) <==> a <= n - 1 < b;
      if a < n <= b { assert ChangesOf(fs)[..n][..n - 1] == ChangesOf(fs)[..n - 1]; }
    }
  }

  /** Days do not go back and the horizon stays as long. */
  predicate DayByDay(fs: seq<Fold>) {
    forall i, j :: 0 <= i < j < |fs| ==>
      fs[i].horizon.today <= fs[j].horizon.today && fs[i].horizon.days == fs[j].horizon.days
  }

  lemma CoveringBetween(fs: seq<Fold>, night: int, i: nat, j: nat, n: nat)
    requires DayByDay(fs) && i <= j <= n < |fs| && fs[i].horizon.Covers(night) && fs[n].horizon.Covers(night)
    ensures fs[j].horizon.Covers(night)
  {
  }

  /** Then the folds that reach a night follow one another. */
  lemma {:induction false} CoveringTogether(fs: seq<Fold>, night: int) returns (a: nat, b: nat)
    requires DayByDay(fs)
    ensures a <= b <= |fs| && Covering(fs, night, a, b)
  {
    if fs == [] {
      a, b := 0, 0;
    } else {
      var n := |fs| - 1;
      a, b := CoveringTogether(fs[..n], night);
      assert forall i: nat :: i < n ==> (fs[..n][i].horizon.Covers(night) <==> a <= i < b);
      if fs[n].horizon.Covers(night) {
        if a == b { a := n; } else { CoveringBetween(fs, night, b - 1, b, n); }
        b := n + 1;
      }
    }
  }

  lemma {:induction false} ChangesGrow(f: Floor, run: seq<RoomFloor.Operation>, i: nat)
    requires i <= |run|
    ensures RoomFloor.Execute(f, run[..i]).changes <= RoomFloor.Execute(f, run).changes
    decreases |run|
  {
    if i == |run| {
      assert run[..i] == run;
    } else {
      var front := run[..|run| - 1];
      assert front[..i] == run[..i];
      ChangesGrow(f, front, i);
      NextTurns(RoomFloor.Execute(f, front), run[|run| - 1]);
    }
  }

  /** A run has had its first n events after some number of operations. */
  lemma {:induction false} EventsSoFar(f: Floor, run: seq<RoomFloor.Operation>, n: nat) returns (i: nat)
    requires f.changes == [] && n <= |RoomFloor.Execute(f, run).changes|
    ensures i <= |run| && |RoomFloor.Execute(f, run[..i]).changes| == n
    decreases |run|
  {
    if n == |RoomFloor.Execute(f, run).changes| {
      i := |run|;
      assert run[..i] == run;
    } else {
      var front := run[..|run| - 1];
      NextTurns(RoomFloor.Execute(f, front), run[|run| - 1]);
      i := EventsSoFar(f, front, n);
      assert front[..i] == run[..i];
    }
  }

  lemma CountersFollowWithin(f: Floor, run: seq<RoomFloor.Operation>, i: nat, j: nat, fs: seq<Fold>, k: SlotKey)
    requires i <= |run| && j <= |run| && f.changes == [] && ChangesOf(fs) == RoomFloor.Execute(f, run).changes
    requires |RoomFloor.Execute(f, run[..i]).changes| <= |RoomFloor.Execute(f, run[..j]).changes|
    requires Covering(fs, k.night, |RoomFloor.Execute(f, run[..i]).changes|, |RoomFloor.Execute(f, run[..j]).changes|)
    ensures TakenOut(f.rooms, fs, k) == Unsellable(RoomFloor.Execute(f, run[..j]).rooms, k.cell)
                                      - Unsellable(RoomFloor.Execute(f, run[..i]).rooms, k.cell)
  {
    var a, b := RoomFloor.Execute(f, run[..i]), RoomFloor.Execute(f, run[..j]);
    ChangesGrow(f, run, i);
    ChangesGrow(f, run, j);
    RunAccounts(f, run[..i], k.cell);
    RunAccounts(f, run[..j], k.cell);
    assert fs[..|fs|] == fs && ChangesOf(fs)[..|a.changes|] == a.changes && ChangesOf(fs)[..|b.changes|] == b.changes;
    TakenOutBetween(f.rooms, fs, k, |a.changes|, |b.changes|, |fs|);
  }

  /** The stretch of the run whose events were folded while the horizon reached a row. */
  lemma StretchOf(f: Floor, run: seq<RoomFloor.Operation>, fs: seq<Fold>, k: SlotKey) returns (i: nat, j: nat)
    requires f.changes == [] && ChangesOf(fs) == RoomFloor.Execute(f, run).changes && DayByDay(fs)
    ensures i <= |run| && j <= |run|
    ensures var a, b := RoomFloor.Execute(f, run[..i]), RoomFloor.Execute(f, run[..j]);
      && Covering(fs, k.night, |a.changes|, |b.changes|)
      && TakenOut(f.rooms, fs, k) == Unsellable(b.rooms, k.cell) - Unsellable(a.rooms, k.cell)
  {
    var first, end := CoveringTogether(fs, k.night);
    i := EventsSoFar(f, run, first);
    j := EventsSoFar(f, run, end);
    CountersFollowWithin(f, run, i, j, fs, k);
  }

  /**
   All events of any run of the floor folded in order, on whatever days and among whatever else happens
   to the table.  A row's counter has moved by exactly the change in the number of its rooms that may not
   be sold over one stretch of the run: from the first event folded while the horizon reached the row to
   the last.
   */
  lemma CountersFollowRooms(f: Floor, run: seq<RoomFloor.Operation>, slots: SlotTable, hs: seq<Happening>, k: SlotKey)
    returns (i: nat, j: nat)
    requires AllGood(slots) && History(slots, f.rooms, hs).Ok? && k in slots && f.changes == []
    requires ChangesOf(FoldsOf(hs)) == RoomFloor.Execute(f, run).changes && DayByDay(FoldsOf(hs))
    ensures i <= |run| && j <= |run| && k in History(slots, f.rooms, hs).value
    ensures var a, b := RoomFloor.Execute(f, run[..i]), RoomFloor.Execute(f, run[..j]);
      && Covering(FoldsOf(hs), k.night, |a.changes|, |b.changes|)
      && History(slots, f.rooms, hs).value[k].outOfService
           == slots[k].outOfService + Unsellable(b.rooms, k.cell) - Unsellable(a.rooms, k.cell)
  {
    CountersMove(slots, f.rooms, hs);
    i, j := StretchOf(f, run, FoldsOf(hs), k);
  }

  // ---------------------------------------------------------------- linked chains

  /** The state the changes leave a room in. */
  function StateAfter(start: RoomFloor.RoomState, cs: seq<StateChange>, r: nat): RoomFloor.RoomState {
    if cs == [] then start
    else if cs[|cs| - 1].room == r then cs[|cs| - 1].to
    else StateAfter(start, cs[..|cs| - 1], r)
  }

  /** Each change starts where the room's previous change ended. */
  ghost predicate Linked(rooms: seq<Room>, cs: seq<StateChange>) {
    forall i :: 0 <= i < |cs| ==>
      cs[i].room < |rooms| && cs[i].from == StateAfter(rooms[cs[i].room].state, cs[..i], cs[i].room)
  }

  lemma {:induction false} ChangesAreLinked(f: Floor, run: seq<RoomFloor.Operation>)
    requires f.changes == []
    ensures var g := RoomFloor.Execute(f, run);
      && Linked(f.rooms, g.changes) && |g.rooms| == |f.rooms|
      && forall r :: 0 <= r < |f.rooms| ==> g.rooms[r].state == StateAfter(f.rooms[r].state, g.changes, r)
    decreases |run|
  {
    if run != [] {
      var front, op := run[..|run| - 1], run[|run| - 1];
      ChangesAreLinked(f, front);
      var e := RoomFloor.Execute(f, front);
      var g := RoomFloor.Next(e, op);
      NextTurns(e, op);
      if r :| Turned(e, g, r) {
        assert g.changes[..|e.changes|] == e.changes;
        forall i | 0 <= i < |e.changes| ensures g.changes[..i] == e.changes[..i] { }
      }
    }
  }
}
