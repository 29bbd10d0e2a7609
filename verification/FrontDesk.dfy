/**
 The allocation and housekeeping services as they run: each call changes the tables in place and a
 failing call puts back what it had changed.  Every method is tied to the function of the same
 operation in `RoomFloor`.
 */
module FrontDesk {
  import opened Outcomes
  import RoomFloor
  import opened RoomFloorInvariant
  import opened AllocationLocks

  type Floor = RoomFloor.Floor

  /** What a call answers and leaves behind is what the specification says; on success it answers with
      the row it has written. */
  ghost predicate Answers(expected: Result<Floor>, before: Floor, after: Floor, r: Result<nat>, row: int) {
    match expected
    case Ok(floor) => after == floor && r.Ok? && r.value == row
    case Err(e) => after == before && r == Err(e)
  }

  /** Sorted by the key, as scores were read. */
  ghost predicate InOrder(prior: set<nat>, order: seq<nat>) {
    forall a, b :: 0 <= a < b < |order| ==> !Ahead(prior, order[b], order[a])
  }

  lemma InsertedOnce(order: seq<nat>, at: nat, id: nat)
    requires at <= |order|
    ensures multiset(order[..at] + [id] + order[at..]) == multiset(order) + multiset{id}
  {
    assert order == order[..at] + order[at..];
  }

  class Desk {
    var rooms: seq<RoomFloor.Room>
    var lines: seq<RoomFloor.StayLine>
    var tasks: seq<RoomFloor.Task>
    var inspections: seq<RoomFloor.Inspection>
    var records: seq<RoomFloor.AllocationRecord>
    var changes: seq<RoomFloor.StateChange>

    constructor (rooms: seq<RoomFloor.Room>)
      requires forall r :: 0 <= r < |rooms| ==> rooms[r].state.VacantClean?
      ensures State() == RoomFloor.Floor(rooms, [], [], [], [], []) && Joint(State())
    {
      this.rooms, lines, tasks, inspections, records, changes := rooms, [], [], [], [], [];
      new;
      OpeningIsJoint(State());
    }

    function State(): Floor
      reads this
    {
      RoomFloor.Floor(rooms, lines, tasks, inspections, records, changes)
    }

    /** Roll back to an earlier state. */
    method Restore(saved: Floor)
      modifies this
      ensures State() == saved
    {
      rooms, lines, tasks := saved.rooms, saved.lines, saved.tasks;
      inspections, records, changes := saved.inspections, saved.records, saved.changes;
    }

    // ---------------------------------------------------------------- state machines

    /** The room's state, and the event of its change. */
    method TurnRoom(r: nat, t: RoomFloor.RoomTransition) returns (done: Result<()>)
      requires r < |rooms|
      modifies this`rooms, this`changes
      ensures match RoomFloor.Turn(old(State()), r, t)
        case Ok(floor) => State() == floor && done.Ok?
        case Err(e) => State() == old(State()) && done == Err(e)
    {
      var before := rooms[r].state;
      if before != t.Source() { return Err(TransitionNotAllowed); }
      rooms := rooms[r := rooms[r].(state := t.Target())];
      changes := changes + [RoomFloor.StateChange(r, before, t.Target())];
      return Ok(());
    }

    method MoveTask(k: nat, t: RoomFloor.TaskTransition) returns (done: Result<()>)
      requires k < |tasks|
      modifies this`tasks
      ensures match RoomFloor.MoveTask(old(State()), k, t)
        case Ok(floor) => State() == floor && done.Ok?
        case Err(e) => State() == old(State()) && done == Err(e)
    {
      var target := t.From(tasks[k].status);
      if target.None? { return Err(TransitionNotAllowed); }
      tasks := tasks[k := tasks[k].(status := target.value)];
      return Ok(());
    }

    // ---------------------------------------------------------------- allocation

    /** The unlocked read of the rooms that would do. */
    method CandidateRooms(tenant: int, line: nat) returns (ids: seq<nat>)
      requires line < |lines|
      ensures ids == CandidateIds(State(), Request(tenant, line), |rooms|)
    {
      ids := [];
      var r := 0;
      while r < |rooms|
        invariant 0 <= r <= |rooms| && ids == CandidateIds(State(), Request(tenant, line), r)
      {
        if RoomFloor.Candidate(State(), tenant, line, r) { ids := ids + [r]; }
        r := r + 1;
      }
    }

    /** One of the first n lines, other than this one, gave the same guest this room. */
    ghost predicate SharedWith(line: nat, n: nat, r: nat)
      requires line < |lines| && n <= |lines|
      reads this
    {
      exists j :: 0 <= j < n && j != line && lines[j].guest == lines[line].guest && lines[j].room == Some(r)
    }

    /** Rooms the guest had on other lines. */
    method PriorRooms(line: nat, ids: seq<nat>) returns (prior: set<nat>)
      requires line < |lines|
      ensures forall r :: r in prior <==> r in ids && RoomFloor.StayedBefore(State(), line, r)
    {
      prior := {};
      if lines[line].guest.None? { return; }
      var i := 0;
      while i < |lines|
        invariant 0 <= i <= |lines|
        invariant forall r :: r in prior <==> r in ids && SharedWith(line, i, r)
      {
        if i != line && lines[i].guest == lines[line].guest && lines[i].room.Some? && lines[i].room.value in ids {
          prior := prior + {lines[i].room.value};
        }
        i := i + 1;
      }
    }

    /** Where a room goes: after all it does not precede. */
    static method Position(order: seq<nat>, prior: set<nat>, id: nat) returns (at: nat)
      requires InOrder(prior, order)
      ensures at <= |order|
      ensures forall a :: 0 <= a < at ==> !Ahead(prior, id, order[a])
      ensures forall a :: at <= a < |order| ==> Ahead(prior, id, order[a])
    {
      at := |order|;
      while at > 0 && Ahead(prior, id, order[at - 1])
        invariant at <= |order|
        invariant forall a :: at <= a < |order| ==> Ahead(prior, id, order[a])
      {
        at := at - 1;
      }
      forall a | 0 <= a < at ensures !Ahead(prior, id, order[a]) {
        assert a < at - 1 ==> !Ahead(prior, order[at - 1], order[a]);
      }
    }

    /** The candidates by sort key: stay continuity first, then the lower id. */
    static method OrderedRoomIds(ids: seq<nat>, prior: set<nat>) returns (order: seq<nat>)
      ensures multiset(order) == multiset(ids) && InOrder(prior, order)
    {
      order := [];
      for i := 0 to |ids|
        invariant multiset(order) == multiset(ids[..i]) && InOrder(prior, order)
      {
        var at := Position(order, prior, ids[i]);
        InsertedOnce(order, at, ids[i]);
        assert ids[..i + 1] == ids[..i] + [ids[i]];
        order := order[..at] + [ids[i]] + order[at..];
      }
      assert ids[..|ids|] == ids;
    }

    /** Lock the rooms in ascending order, keep those found vacant and clean. */
    method LockRooms(ids: seq<nat>) returns (vacant: set<nat>)
      requires forall r :: r in ids ==> r < |rooms|
      ensures forall r :: r in vacant <==> r in ids && r < |rooms| && rooms[r].state.VacantClean?
    {
      vacant := {};
      for i := 0 to |ids|
        invariant forall r :: r in vacant <==> r in ids[..i] && r < |rooms| && rooms[r].state.VacantClean?
      {
        assert ids[i] in ids && ids[..i + 1] == ids[..i] + [ids[i]];
        if rooms[ids[i]].state.VacantClean? { vacant := vacant + {ids[i]}; }
      }
      assert ids[..|ids|] == ids;
    }

    /** The first in order that was found vacant. */
    static method FirstVacant(order: seq<nat>, prior: set<nat>, vacant: set<nat>) returns (room: Option<nat>)
      requires forall r :: r in vacant ==> r in order
      requires InOrder(prior, order)
      ensures room.Some? ==> Chosen(prior, vacant, room.value)
      ensures room.None? ==> vacant == {}
    {
      for i := 0 to |order|
        invariant forall j :: 0 <= j < i ==> order[j] !in vacant
      {
        if order[i] in vacant {
          forall q | q in vacant && q != order[i] ensures Ahead(prior, order[i], q) {
            var j :| 0 <= j < |order| && order[j] == q;
            assert !Ahead(prior, order[j], order[i]);
          }
          return Some(order[i]);
        }
      }
      return None;
    }

    /** Candidates, scores, locks in ascending order, first vacant in score order. */
    method ChooseRoom(tenant: int, line: nat) returns (room: Option<nat>)
      requires line < |lines|
      ensures room == RoomFloor.Best(State(), tenant, line, |rooms|)
    {
      var ids := CandidateRooms(tenant, line);
      var prior := PriorRooms(line, ids);
      CandidateIdsExact(State(), Request(tenant, line), |rooms|);
      var vacant := LockRooms(ids);
      var order := OrderedRoomIds(ids, prior);
      forall r | r in vacant ensures r in order { assert r in multiset(ids) && r in multiset(order); }
      room := FirstVacant(order, prior, vacant);
      ChosenIsBest(State(), Request(tenant, line), prior, vacant);
      RoomFloor.BestIsLeast(State(), tenant, line, |rooms|);
    }

    method HasRecord(line: nat) returns (found: bool)
      ensures found <==> exists i :: 0 <= i < |records| && records[i].line == line
    {
      for i := 0 to |records|
        invariant forall j :: 0 <= j < i ==> records[j].line != line
      {
        if records[i].line == line { return true; }
      }
      return false;
    }

    method AllocateLine(tenant: int, line: int) returns (r: Result<nat>)
      modifies this
      ensures Answers(RoomFloor.AllocateLine(old(State()), tenant, line), old(State()), State(), r, |old(records)|)
    {
      if !(0 <= line < |lines|) { return Err(DoesNotExist); }
      if !lines[line].status.Confirmed? || lines[line].room.Some? { return Err(InvalidRequest); }
      var choice := ChooseRoom(tenant, line);
      if choice.None? { return Err(InsufficientAvailability); }
      RoomFloor.BestIsLeast(State(), tenant, line, |rooms|);
      var room, saved := choice.value, State();
      rooms := rooms[room := rooms[room].(line := Some(line))];
      var turned := TurnRoom(room, RoomFloor.Allocate);
      assert turned.Ok?;
      lines := lines[line := lines[line].(room := Some(room), status := RoomFloor.CheckedIn)];
      var taken := HasRecord(line);
      if taken {
        Restore(saved);
        return Err(IntegrityError);
      }
      records := records + [RoomFloor.AllocationRecord(line, room)];
      return Ok(|records| - 1);
    }

    // ---------------------------------------------------------------- housekeeping

    method HasDeparture(room: nat, date: int) returns (found: bool)
      ensures found <==> RoomFloor.DepartureTaken(State(), room, date)
    {
      for k := 0 to |tasks|
        invariant forall j :: 0 <= j < k ==> !(tasks[j].room == room && tasks[j].date == date)
      {
        if tasks[k].room == room && tasks[k].date == date { return true; }
      }
      return false;
    }

    method CheckOut(line: int, today: int) returns (r: Result<nat>)
      modifies this
      ensures Answers(RoomFloor.CheckOut(old(State()), line, today), old(State()), State(), r, |old(tasks)|)
    {
      if !(0 <= line < |lines|) { return Err(DoesNotExist); }
      if !lines[line].status.CheckedIn? { return Err(InvalidRequest); }
      if lines[line].room.None? || lines[line].room.value >= |rooms| { return Err(InvalidRequest); }
      var saved, room := State(), lines[line].room.value;
      var turned := TurnRoom(room, RoomFloor.Checkout);
      if turned.Err? { return Err(turned.error); }
      lines := lines[line := lines[line].(status := RoomFloor.CheckedOut)];
      var taken := HasDeparture(room, today);
      if taken {
        Restore(saved);
        return Err(IntegrityError);
      }
      tasks := tasks + [RoomFloor.Task(room, line, today, RoomFloor.Planned)];
      return Ok(|tasks| - 1);
    }

    method Assign(k: int) returns (r: Result<nat>)
      modifies this
      ensures Answers(RoomFloor.AssignTask(old(State()), k), old(State()), State(), r, k)
    {
      if !(0 <= k < |tasks|) { return Err(DoesNotExist); }
      var moved := MoveTask(k, RoomFloor.Assign);
      return if moved.Err? then Err(moved.error) else Ok(k);
    }

    /** The room first, then its task, which was checked first and so can follow. */
    method StepTask(k: int, rt: RoomFloor.RoomTransition, tt: RoomFloor.TaskTransition) returns (r: Result<nat>)
      modifies this
      ensures Answers(RoomFloor.TaskStep(old(State()), k, rt, tt), old(State()), State(), r, k)
    {
      if !(0 <= k < |tasks|) || tasks[k].room >= |rooms| { return Err(DoesNotExist); }
      if tt.From(tasks[k].status).None? { return Err(InvalidRequest); }
      var turned := TurnRoom(tasks[k].room, rt);
      if turned.Err? { return Err(turned.error); }
      var moved := MoveTask(k, tt);
      assert moved.Ok?;
      return Ok(k);
    }

    method StartCleaning(k: int) returns (r: Result<nat>)
      modifies this
      ensures Answers(RoomFloor.Perform(old(State()), RoomFloor.Starting(k)), old(State()), State(), r, k)
    {
      r := StepTask(k, RoomFloor.Clean, RoomFloor.StartCleaning);
    }

    method CompleteCleaning(k: int) returns (r: Result<nat>)
      modifies this
      ensures Answers(RoomFloor.Perform(old(State()), RoomFloor.Completing(k)), old(State()), State(), r, k)
    {
      r := StepTask(k, RoomFloor.CompleteCleaning, RoomFloor.FinishCleaning);
    }

    method HasInspection(k: nat) returns (found: bool)
      ensures found <==> RoomFloor.InspectionExists(State(), k)
    {
      for i := 0 to |inspections|
        invariant forall j :: 0 <= j < i ==> inspections[j].task != k
      {
        if inspections[i].task == k { return true; }
      }
      return false;
    }

    method Inspect(k: int, passed: bool) returns (r: Result<nat>)
      modifies this
      ensures Answers(RoomFloor.Inspect(old(State()), k, passed), old(State()), State(), r, k)
    {
      if !(0 <= k < |tasks|) { return Err(DoesNotExist); }
      if !tasks[k].status.QualityCheck? { return Err(InvalidRequest); }
      var taken := HasInspection(k);
      if taken { return Err(IntegrityError); }
      var saved := State();
      inspections := inspections + [RoomFloor.Inspection(k, passed)];
      if passed {
        r := StepTask(k, RoomFloor.Approve, RoomFloor.PassInspection);
      } else {
        r := StepTask(k, RoomFloor.Reject, RoomFloor.FailInspection);
      }
      if r.Err? { Restore(saved); }
    }
  }
}
