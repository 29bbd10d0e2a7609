/**
 The room-state projector as it runs: a batch read once, then one transaction per event that applies it
 and moves the checkpoint, stopping at the first event that fails.
 */
module Projectors {
  import opened Outcomes
  import opened Slots
  import opened EventLog
  import opened KeyOrder
  import opened RoomProjection
  import HotelDatabase
  import RoomFloor

  /** The folds of the given events, the n-th of them on the day the clock showed. */
  function FoldsOn(changes: seq<StateChange>, ids: seq<nat>, day: nat -> int, days: int): (fs: seq<Fold>)
    requires forall a :: 0 <= a < |ids| ==> ids[a] < |changes|
    ensures |fs| == |ids|
  {
    seq(|ids|, i requires 0 <= i < |ids| => FoldOn(changes[ids[i]], Horizon(day(i), days)))
  }

  /** The table after the given events are folded. */
  ghost predicate FoldedTo(start: SlotTable, rooms: seq<Room>, changes: seq<StateChange>, ids: seq<nat>,
                           day: nat -> int, days: int, slots: SlotTable)
  {
    (forall a :: 0 <= a < |ids| ==> ids[a] < |changes|) &&
    FoldChanges(start, rooms, FoldsOn(changes, ids, day, days)) == Ok(slots)
  }

  /** The batch ended after n events: with the next one failing, or complete. */
  ghost predicate EndedAt(slots: SlotTable, rooms: seq<Room>, changes: seq<StateChange>, batch: seq<nat>, n: nat,
                          day: nat -> int, days: int, failed: bool)
  {
    && n <= |batch|
    && (n < |batch| ==> failed && batch[n] < |changes|)
    && (n < |batch| ==> FoldChange(slots, rooms, FoldOn(changes[batch[n]], Horizon(day(n), days))).Err?)
    && (n == |batch| > 0 ==> !failed)
  }

  /** One event is folded, or raises and leaves the table alone. */
  ghost predicate FoldedOrNot(before: SlotTable, rooms: seq<Room>, f: Fold, after: SlotTable, r: Result<()>) {
    match FoldChange(before, rooms, f)
    case Ok(slots) => r.Ok? && after == slots
    case Err(e) => r == Err(e) && after == before
  }

  /** One more event folded. */
  lemma FoldOneMore(start: SlotTable, rooms: seq<Room>, changes: seq<StateChange>, batch: seq<nat>, n: nat,
                    day: nat -> int, days: int, before: SlotTable, after: SlotTable, r: Result<()>)
    requires n < |batch| && batch[n] < |changes| && FoldedTo(start, rooms, changes, batch[..n], day, days, before)
    requires FoldedOrNot(before, rooms, FoldOn(changes[batch[n]], Horizon(day(n), days)), after, r)
    ensures r.Ok? ==> FoldedTo(start, rooms, changes, batch[..n + 1], day, days, after)
    ensures r.Err? ==> FoldedTo(start, rooms, changes, batch[..n], day, days, after)
    ensures r.Err? ==> FoldChange(after, rooms, FoldOn(changes[batch[n]], Horizon(day(n), days))).Err?
  {
    assert forall a :: 0 <= a < n ==> batch[..n][a] == batch[a];
    var fs := FoldsOn(changes, batch[..n + 1], day, days);
    assert fs[..n] == FoldsOn(changes, batch[..n], day, days);
  }

  /** Every row of the start has moved by the folds since. */
  ghost predicate Counted(start: SlotTable, slots: SlotTable, rooms: seq<Room>, folds: seq<Fold>) {
    start.Keys <= slots.Keys &&
    forall k :: k in start ==> slots[k].outOfService == start[k].outOfService + TakenOut(rooms, folds, k)
  }

  /** It stays so under whatever else the database does to the table, a fold included. */
  lemma CountedStays(start: SlotTable, slots: SlotTable, rooms: seq<Room>, folds: seq<Fold>, e: Happening)
    requires Counted(start, slots, rooms, folds) && Happen(slots, rooms, e).Ok?
    ensures Counted(start, Happen(slots, rooms, e).value, rooms, if e.Folded? then folds + [e.fold] else folds)
  {
    HappenMoves(slots, rooms, e);
    if e.Folded? { assert (folds + [e.fold])[..|folds|] == folds; }
  }

  lemma {:induction false} CountedFolds(start: SlotTable, slots: SlotTable, rooms: seq<Room>, folds: seq<Fold>, more: seq<Fold>)
    requires Counted(start, slots, rooms, folds) && FoldChanges(slots, rooms, more).Ok?
    ensures Counted(start, FoldChanges(slots, rooms, more).value, rooms, folds + more)
    decreases |more|
  {
    if more == [] {
      assert folds + more == folds;
    } else {
      var front, last := more[..|more| - 1], more[|more| - 1];
      CountedFolds(start, slots, rooms, folds, front);
      CountedStays(start, FoldChanges(slots, rooms, front).value, rooms, folds + front, Folded(last));
      assert folds + more == folds + front + [last];
    }
  }

  /** The folds made are those of the events folded. */
  ghost predicate Match(changes: seq<StateChange>, folded: seq<nat>, folds: seq<Fold>) {
    |folds| == |folded| && forall i :: 0 <= i < |folded| ==> folded[i] < |changes| && folds[i].change == changes[folded[i]]
  }

  /** What a batch leaves behind. */
  lemma BatchKeeps(start: SlotTable, before: SlotTable, after: SlotTable, rooms: seq<Room>, changes: seq<StateChange>,
                   folded: seq<nat>, folds: seq<Fold>, ids: seq<nat>, day: nat -> int, days: int)
    requires Match(changes, folded, folds) && Counted(start, before, rooms, folds)
    requires FoldedTo(before, rooms, changes, ids, day, days, after)
    ensures Match(changes, folded + ids, folds + FoldsOn(changes, ids, day, days))
    ensures Counted(start, after, rooms, folds + FoldsOn(changes, ids, day, days))
  {
    CountedFolds(start, before, rooms, folds, FoldsOn(changes, ids, day, days));
  }

  class RoomStateProjector {
    const db: HotelDatabase.Database
    const rooms: seq<Room>
    var times: seq<int>
    var changes: seq<StateChange>
    var checkpoint: Option<Key>
    var failed: bool
    ghost var folded: seq<nat>
    ghost var folds: seq<Fold>
    ghost var start: SlotTable

    constructor (db: HotelDatabase.Database, rooms: seq<Room>)
      ensures this.db == db && this.rooms == rooms && Log() == Begin(1) && folds == [] && start == db.slots && Valid()
    {
      this.db, this.rooms := db, rooms;
      times, changes, checkpoint, failed := [], [], None, false;
      folded, folds, start := [], [], db.slots;
      BeginReached();
    }

    /** What has happened is a run of the event log, and the table has moved by the folds made. */
    ghost predicate Valid()
      reads this, db
    {
      && |changes| == |times| && Match(changes, folded, folds)
      && Reached(Log())
      && Counted(start, db.slots, rooms, folds)
    }

    ghost function Log(): System
      reads this
    {
      System(times, checkpoint, folded, [[]])
    }

    /** An event arrives. */
    method Publish(at: int, change: StateChange)
      requires Valid()
      modifies this`times, this`changes
      ensures Valid() && Log() == Step(old(Log()), Append(at)) && changes == old(changes) + [change]
    {
      AppendReached(Log(), at);
      times, changes := times + [at], changes + [change];
    }

    /** One event: a change that does not cross the sellable boundary, or of an unknown room, is passed over. */
    method ApplyChange(change: StateChange, h: Horizon) returns (r: Result<()>)
      requires db.Valid()
      modifies db`slots
      ensures db.Valid()
      ensures FoldedOrNot(old(db.slots), rooms, FoldOn(change, h), db.slots, r)
    {
      var was, isNow := change.from.Unsellable(), change.to.Unsellable();
      if was == isNow || change.room >= |rooms| { return Ok(()); }
      var w := Window(CellOf(rooms[change.room]), h.today, h.today + h.days);
      var adjusted := db.AdjustOutOfServiceWindow(w, if isNow then 1 else -1);
      return if adjusted.Err? then Err(adjusted.error) else Ok(());
    }

    /**
     Exactly the longest foldable beginning of the batch is folded, each event on the day the clock then
     shows, and the checkpoint ends at its last event; an event that fails is not passed over.
     */
    method ProcessBatch(day: nat -> int, days: int, size: nat) returns (processed: nat)
      requires Valid() && db.Valid()
      modifies this`checkpoint, this`failed, this`folded, this`folds, db`slots
      ensures Valid() && db.Valid()
      ensures var batch := Batch(times, old(checkpoint), size);
        && EndedAt(db.slots, rooms, changes, batch, processed, day, days, failed)
        && FoldedTo(old(db.slots), rooms, changes, batch[..processed], day, days, db.slots)
        && folds == old(folds) + FoldsOn(changes, batch[..processed], day, days)
      ensures Log() == AfterBatch(old(Log()), size, processed)
    {
      var batch := Batch(times, checkpoint, size);
      ghost var before := db.slots;
      processed := FoldEvents(batch, day, days);
      BatchReached(old(Log()), size, processed);
      BatchKeeps(start, before, db.slots, rooms, changes, folded, folds, batch[..processed], day, days);
      folded, folds := folded + batch[..processed], folds + FoldsOn(changes, batch[..processed], day, days);
    }

    /** One transaction an event, up to the first that fails. */
    method FoldEvents(batch: seq<nat>, day: nat -> int, days: int) returns (processed: nat)
      requires |changes| == |times| && db.Valid() && Within(times, batch)
      modifies this`checkpoint, this`failed, db`slots
      ensures db.Valid() && EndedAt(db.slots, rooms, changes, batch, processed, day, days, failed)
      ensures FoldedTo(old(db.slots), rooms, changes, batch[..processed], day, days, db.slots)
      ensures checkpoint == if processed == 0 then old(checkpoint) else Some(KeyOf(times, batch[processed - 1]))
    {
      processed := 0;
      while processed < |batch|
        invariant processed <= |batch| && db.Valid()
        invariant FoldedTo(old(db.slots), rooms, changes, batch[..processed], day, days, db.slots)
        invariant checkpoint == if processed == 0 then old(checkpoint) else Some(KeyOf(times, batch[processed - 1]))
        invariant processed > 0 ==> !failed
      {
        ghost var before := db.slots;
        var applied := ApplyChange(changes[batch[processed]], Horizon(day(processed), days));
        FoldOneMore(old(db.slots), rooms, changes, batch, processed, day, days, before, db.slots, applied);
        if applied.Err? {
          failed := true;
          return;
        }
        checkpoint, failed := Some(KeyOf(times, batch[processed])), false;
        processed := processed + 1;
      }
    }

    /**
     From the rooms to the table: the projector has read the events of a run of the floor, in the order
     they occurred, and folded as many as there are.  Then the counter of every row there was at the start
     has moved by the change in the number of rooms that may not be sold, over the stretch of the run whose
     events were folded while the horizon reached the row.
     */
    lemma CaughtUp(f: RoomFloor.Floor, floorRun: seq<RoomFloor.Operation>, k: SlotKey) returns (i: nat, j: nat)
      requires Valid() && rooms == f.rooms && f.changes == [] && changes == RoomFloor.Execute(f, floorRun).changes
      requires InOrder(times) && |folded| == |times| && DayByDay(folds) && k in start
      ensures i <= |floorRun| && j <= |floorRun| && k in db.slots
      ensures var a, b := RoomFloor.Execute(f, floorRun[..i]), RoomFloor.Execute(f, floorRun[..j]);
        && Covering(folds, k.night, |a.changes|, |b.changes|)
        && db.slots[k].outOfService == start[k].outOfService + Unsellable(b.rooms, k.cell) - Unsellable(a.rooms, k.cell)
    {
      ReachedIsPrefix(Log());
      assert ChangesOf(folds) == changes;
      i, j := StretchOf(f, floorRun, folds, k);
    }

    /** Batches in which no event fails catch up. */
    lemma BatchesCatchUp(size: nat, n: nat)
      requires Valid() && InOrder(times) && n * size >= |times| - |folded|
      ensures var t := Rounds(Log(), size, n);
        |t.folded| == |times| && forall i :: 0 <= i < |times| ==> t.folded[i] == i
    {
      RoundsFoldEverything(Log(), size, n);
      ReachedIsPrefix(Log());
      BatchIsFull(Log(), 0);
    }
  }
}
