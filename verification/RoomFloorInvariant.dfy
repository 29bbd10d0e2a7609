/**
 The joint invariant of rooms, booking lines and tasks over all runs, and what follows from it.
 */
module RoomFloorInvariant {
  import opened Outcomes
  import opened RoomFloor

  // ---------------------------------------------------------------- the joint invariant

  /** A checked-in line and its room point at each other, and the room is occupied. */
  ghost predicate LineOk(f: Floor, i: nat)
    requires i < |f.lines|
  {
    var line := f.lines[i];
    match line.status
    case Confirmed => line.room.None?
    case CheckedIn => line.room.Some? && line.room.value < |f.rooms| && HasGuest(f, line.room.value, i)
    case CheckedOut => line.room.Some? && line.room.value < |f.rooms|
  }

  ghost predicate HasGuest(f: Floor, r: nat, i: nat)
    requires r < |f.rooms|
  {
    f.rooms[r].state.Occupied() && f.rooms[r].line == Some(i)
  }

  /** An occupied room has its checked-in line; a dirty or inspected one has its task. */
  ghost predicate RoomOk(f: Floor, r: nat)
    requires r < |f.rooms|
  {
    var room := f.rooms[r];
    && (room.state.Occupied() ==>
          room.line.Some? && room.line.value < |f.lines| &&
          f.lines[room.line.value].status.CheckedIn? && f.lines[room.line.value].room == Some(r))
    && (room.state.VacantDirty? ==> exists k: nat :: OpenTaskOf(f, k, r))
    && (room.state.Inspected? ==> exists k: nat :: OpenTaskOf(f, k, r))
  }

  ghost predicate OpenTaskOf(f: Floor, k: nat, r: nat) {
    k < |f.tasks| && f.tasks[k].room == r && f.tasks[k].status.Open()
  }

  /** The room state that goes with an open task. */
  function StateOf(status: TaskStatus): RoomState
    requires status.Open()
  {
    match status
    case InProgress => Cleaning
    case QualityCheck => Inspected
    case _ => VacantDirty
  }

  ghost predicate TaskOk(f: Floor, k: nat)
    requires k < |f.tasks|
  {
    var task := f.tasks[k];
    task.room < |f.rooms| && (task.status.Open() ==> f.rooms[task.room].state == StateOf(task.status))
  }

  ghost predicate RoomsOk(f: Floor) {
    forall r :: 0 <= r < |f.rooms| ==> RoomOk(f, r)
  }

  ghost predicate LinesOk(f: Floor) {
    forall i :: 0 <= i < |f.lines| ==> LineOk(f, i)
  }

  /** Every open task fits its room, and no room has two. */
  ghost predicate TasksOk(f: Floor) {
    && (forall k :: 0 <= k < |f.tasks| ==> TaskOk(f, k))
    && (forall k, m :: 0 <= k < m < |f.tasks| && f.tasks[k].status.Open() && f.tasks[m].status.Open() ==>
          f.tasks[k].room != f.tasks[m].room)
  }

  /** Exactly the closed tasks have an inspection, and just one. */
  ghost predicate InspectionsOk(f: Floor) {
    && (forall i :: 0 <= i < |f.inspections| ==>
          f.inspections[i].task < |f.tasks| &&
          f.tasks[f.inspections[i].task].status == if f.inspections[i].passed then Verified else Rejected)
    && (forall i, j :: 0 <= i < j < |f.inspections| ==> f.inspections[i].task != f.inspections[j].task)
    && (forall k :: 0 <= k < |f.tasks| && !f.tasks[k].status.Open() ==> InspectionExists(f, k))
  }

  /** Exactly the lines that have been given a room have an allocation record, and just one. */
  ghost predicate RecordsOk(f: Floor) {
    && (forall i :: 0 <= i < |f.records| ==>
          f.records[i].line < |f.lines| && !f.lines[f.records[i].line].status.Confirmed? &&
          f.lines[f.records[i].line].room == Some(f.records[i].room))
    && (forall i, j :: 0 <= i < j < |f.records| ==> f.records[i].line != f.records[j].line)
  }

  ghost predicate Joint(f: Floor) {
    RoomsOk(f) && LinesOk(f) && TasksOk(f) && InspectionsOk(f) && RecordsOk(f)
  }

  ghost predicate InRoom(f: Floor, i: nat, r: nat) {
    i < |f.lines| && f.lines[i].status.CheckedIn? && f.lines[i].room == Some(r)
  }

  /** A room is occupied exactly when some checked-in line points to it, and then just one does. */
  lemma OccupiedExactlyByOne(f: Floor, r: nat)
    requires Joint(f) && r < |f.rooms|
    ensures f.rooms[r].state.Occupied() <==>
            exists i :: InRoom(f, i, r)
    ensures forall i, j :: InRoom(f, i, r) && InRoom(f, j, r) ==> i == j
  {
    assert RoomOk(f, r);
    forall i | InRoom(f, i, r) ensures HasGuest(f, r, i) {
      assert LineOk(f, i);
    }
    if f.rooms[r].state.Occupied() { assert InRoom(f, f.rooms[r].line.value, r); }
  }

  // ---------------------------------------------------------------- each operation keeps it

  lemma BookingKeeps(f: Floor, property: int, roomType: int, guest: Option<int>)
    requires Joint(f)
    ensures Joint(Next(f, Booking(property, roomType, guest)))
  {
    var g := Next(f, Booking(property, roomType, guest));
    forall i | 0 <= i < |g.lines| ensures LineOk(g, i) {
      if i < |f.lines| { assert LineOk(f, i); }
    }
    forall r | 0 <= r < |g.rooms| ensures RoomOk(g, r) {
      assert RoomOk(f, r);
      SameTasks(f, g, r);
    }
    forall k | 0 <= k < |g.tasks| ensures TaskOk(g, k) { assert TaskOk(f, k); }
    assert forall k :: 0 <= k < |g.tasks| ==> InspectionExists(g, k) == InspectionExists(f, k);
  }

  lemma SameTasks(f: Floor, g: Floor, r: nat)
    requires g.tasks == f.tasks
    ensures (exists k: nat :: OpenTaskOf(f, k, r)) ==> exists k: nat :: OpenTaskOf(g, k, r)
  {
    if k :| OpenTaskOf(f, k, r) { assert OpenTaskOf(g, k, r); }
  }

  /** Allocation never trips over its own uniqueness constraint, and keeps the invariant. */
  lemma GiveRoomKeeps(f: Floor, line: nat, r: nat)
    requires Joint(f) && line < |f.lines| && f.lines[line].status.Confirmed?
    requires r < |f.rooms| && f.rooms[r].state.VacantClean?
    ensures GiveRoom(f, line, r).Ok? && Joint(GiveRoom(f, line, r).value)
  {
    var g := GiveRoom(f, line, r);
    assert g.Ok?;
    var h := g.value;
    assert RoomOk(f, r);
    forall i | 0 <= i < |h.lines| ensures LineOk(h, i) {
      assert LineOk(f, i);
      if i != line && f.lines[i].status.CheckedIn? { assert HasGuest(f, f.lines[i].room.value, i); }
    }
    forall q | 0 <= q < |h.rooms| ensures RoomOk(h, q) {
      assert RoomOk(f, q);
      SameTasks(f, h, q);
    }
    forall k | 0 <= k < |h.tasks| ensures TaskOk(h, k) { assert TaskOk(f, k); }
    forall k | 0 <= k < |h.tasks| && !h.tasks[k].status.Open() ensures InspectionExists(h, k) { assert InspectionExists(f, k); }
  }

  lemma AllocateLineKeeps(f: Floor, tenant: int, line: int)
    requires Joint(f)
    ensures Joint(Next(f, Allocating(tenant, line)))
  {
    if 0 <= line < |f.lines| && f.lines[line].status.Confirmed? {
      BestIsLeast(f, tenant, line, |f.rooms|);
      var best := Best(f, tenant, line, |f.rooms|);
      if best.Some? { GiveRoomKeeps(f, line, best.value); }
    }
  }

  /** A room that exists, is vacant and clean, and is of the line's type in its property and the caller's tenant. */
  predicate Suits(f: Floor, tenant: int, line: nat, r: nat)
    requires line < |f.lines|
  {
    && r < |f.rooms| && f.rooms[r].state == VacantClean && !f.rooms[r].deleted && f.rooms[r].tenant == tenant
    && f.rooms[r].property == f.lines[line].property && f.rooms[r].roomType == f.lines[line].roomType
  }

  /** Another line of a guest was given the room. */
  predicate GivenTo(f: Floor, guest: int, line: nat, r: nat) {
    exists i :: 0 <= i < |f.lines| && i != line && f.lines[i].guest == Some(guest) && f.lines[i].room == Some(r)
  }

  /** The lowest suitable room the guest had on another line; without such a room, or without a guest,
      the lowest suitable one. */
  ghost predicate Preferred(f: Floor, tenant: int, line: nat, room: nat)
    requires line < |f.lines|
  {
    && Suits(f, tenant, line, room)
    && match f.lines[line].guest
       case None => forall r: nat :: Suits(f, tenant, line, r) ==> room <= r
       case Some(g) =>
         if exists r: nat :: Suits(f, tenant, line, r) && GivenTo(f, g, line, r)
         then GivenTo(f, g, line, room) && forall r: nat :: Suits(f, tenant, line, r) && GivenTo(f, g, line, r) ==> room <= r
         else forall r: nat :: Suits(f, tenant, line, r) ==> room <= r
  }

  lemma BestIsPreferred(f: Floor, tenant: int, line: nat)
    requires line < |f.lines|
    ensures match Best(f, tenant, line, |f.rooms|)
      case Some(room) => Preferred(f, tenant, line, room)
      case None => forall r: nat :: !Suits(f, tenant, line, r)
  {
    BestIsLeast(f, tenant, line, |f.rooms|);
    forall r: nat ensures Suits(f, tenant, line, r) <==> r < |f.rooms| && Candidate(f, tenant, line, r) { }
    forall r: nat
      ensures StayedBefore(f, line, r) <==> f.lines[line].guest.Some? && GivenTo(f, f.lines[line].guest.value, line, r)
    {
    }
  }

  /** What an allocation leaves: the room occupied by the line, the line checked in to the room, one
      record and one event; nothing else. */
  ghost predicate Allocated(f: Floor, g: Floor, line: nat, room: nat)
    requires line < |f.lines| && room < |f.rooms|
  {
    && g.lines == f.lines[line := f.lines[line].(status := CheckedIn, room := Some(room))]
    && g.rooms == f.rooms[room := f.rooms[room].(state := OccupiedClean, line := Some(line))]
    && g.records == f.records + [AllocationRecord(line, room)]
    && g.changes == f.changes + [StateChange(room, VacantClean, OccupiedClean)]
    && g.tasks == f.tasks && g.inspections == f.inspections
  }

  /**
   `allocate_line` succeeds exactly when the line is confirmed and some room suits it; it gives the line
   the preferred one, and never fails for any other reason.
   */
  lemma AllocateLineExact(f: Floor, tenant: int, line: int)
    requires Joint(f)
    ensures var r := AllocateLine(f, tenant, line);
      if !(0 <= line < |f.lines|) then r == Err(DoesNotExist)
      else if f.lines[line].status != Confirmed then r == Err(InvalidRequest)
      else if forall room: nat :: !Suits(f, tenant, line, room) then r == Err(InsufficientAvailability)
      else r.Ok? && exists room: nat :: Preferred(f, tenant, line, room) && Allocated(f, r.value, line, room)
  {
    if 0 <= line < |f.lines| {
      assert LineOk(f, line);
      BestIsLeast(f, tenant, line, |f.rooms|);
      BestIsPreferred(f, tenant, line);
      var best := Best(f, tenant, line, |f.rooms|);
      if f.lines[line].status.Confirmed? && best.Some? {
        GiveRoomKeeps(f, line, best.value);
        assert Allocated(f, GiveRoom(f, line, best.value).value, line, best.value);
      }
    }
  }

  /** What a check-out leaves: the line checked out, its room dirty, one departure task and one event. */
  ghost predicate CheckedOutOf(f: Floor, g: Floor, line: nat, room: nat, today: int)
    requires line < |f.lines| && room < |f.rooms|
  {
    && g.lines == f.lines[line := f.lines[line].(status := CheckedOut)]
    && g.rooms == f.rooms[room := f.rooms[room].(state := VacantDirty)]
    && g.tasks == f.tasks + [Task(room, line, today, Planned)]
    && g.changes == f.changes + [StateChange(room, OccupiedClean, VacantDirty)]
    && g.inspections == f.inspections && g.records == f.records
  }

  /** Check-out fails in exactly two ways once the line is checked in: the room is due for service,
      or there is a departure task for the room and that very day. */
  lemma CheckOutExact(f: Floor, line: int, today: int)
    requires Joint(f)
    ensures var r := CheckOut(f, line, today);
      if !(0 <= line < |f.lines|) then r == Err(DoesNotExist)
      else if f.lines[line].status != CheckedIn then r == Err(InvalidRequest)
      else
        && f.lines[line].room.Some? && f.lines[line].room.value < |f.rooms|
        && var room := f.lines[line].room.value;
           if f.rooms[room].state == OccupiedDirty then r == Err(TransitionNotAllowed)
           else if exists k :: 0 <= k < |f.tasks| && f.tasks[k].room == room && f.tasks[k].date == today
           then r == Err(IntegrityError)
           else r.Ok? && CheckedOutOf(f, r.value, line, room, today)
    ensures CheckOut(f, line, today).Ok? ==> Joint(CheckOut(f, line, today).value)
  {
    if 0 <= line < |f.lines| && f.lines[line].status.CheckedIn? {
      assert LineOk(f, line);
      var g := CheckOut(f, line, today);
      if g.Ok? { CheckOutKeeps(f, line, today, g.value); }
    }
  }

  lemma CheckOutKeeps(f: Floor, line: nat, today: int, g: Floor)
    requires Joint(f) && CheckOut(f, line, today) == Ok(g)
    ensures Joint(g)
  {
    var r := f.lines[line].room.value;
    assert LineOk(f, line);
    forall i | 0 <= i < |g.lines| ensures LineOk(g, i) {
      assert LineOk(f, i);
      if i != line && f.lines[i].status.CheckedIn? { assert HasGuest(f, f.lines[i].room.value, i); }
    }
    forall q | 0 <= q < |g.rooms| ensures RoomOk(g, q) {
      assert RoomOk(f, q);
      if q == r {
        assert OpenTaskOf(g, |f.tasks|, r);
      } else if k :| OpenTaskOf(f, k, q) {
        assert OpenTaskOf(g, k, q);
      }
    }
    forall k | 0 <= k < |f.tasks| && f.tasks[k].status.Open() ensures f.tasks[k].room != r {
      assert TaskOk(f, k);
    }
    forall k | 0 <= k < |g.tasks| ensures TaskOk(g, k) {
      if k < |f.tasks| { assert TaskOk(f, k); }
    }
    forall k | 0 <= k < |g.tasks| && !g.tasks[k].status.Open() ensures InspectionExists(g, k) {
      assert InspectionExists(f, k);
    }
  }

  lemma AssignKeeps(f: Floor, k: int)
    requires Joint(f)
    ensures Joint(Next(f, Assigning(k)))
  {
    var g := Next(f, Assigning(k));
    if g != f {
      assert TaskOk(f, k);
      TaskMovedKeeps(f, g, k, f.tasks[k].room, g.tasks[k].status);
    }
  }

  /** One task and its room moved together to matching states. */
  lemma TaskMovedKeeps(f: Floor, g: Floor, k: nat, r: nat, status: TaskStatus)
    requires Joint(f) && k < |f.tasks| && f.tasks[k].status.Open() && f.tasks[k].room == r && r < |f.rooms|
    requires g.tasks == f.tasks[k := f.tasks[k].(status := status)]
    requires g.lines == f.lines && g.records == f.records
    requires |g.rooms| == |f.rooms| && forall q :: 0 <= q < |f.rooms| && q != r ==> g.rooms[q] == f.rooms[q]
    requires !g.rooms[r].state.Occupied()
    requires if status.Open() then g.rooms[r].state == StateOf(status)
             else !g.rooms[r].state.VacantDirty? && !g.rooms[r].state.Inspected?
    requires InspectionsOk(g)
    ensures Joint(g)
  {
    assert TaskOk(f, k);
    forall i | 0 <= i < |g.lines| ensures LineOk(g, i) {
      assert LineOk(f, i);
      if f.lines[i].status.CheckedIn? { assert HasGuest(f, f.lines[i].room.value, i); }
    }
    forall q | 0 <= q < |g.rooms| ensures RoomOk(g, q) {
      assert RoomOk(f, q);
      if q == r {
        if status.Open() { assert OpenTaskOf(g, k, r); }
      } else if m :| OpenTaskOf(f, m, q) {
        assert OpenTaskOf(g, m, q);
      }
    }
    forall m | 0 <= m < |g.tasks| ensures TaskOk(g, m) { assert TaskOk(f, m); }
  }

  lemma StepKeeps(f: Floor, k: int, rt: RoomTransition, tt: TaskTransition)
    requires Joint(f)
    requires (rt.Clean? && tt.StartCleaning?) || (rt.CompleteCleaning? && tt.FinishCleaning?)
    ensures TaskStep(f, k, rt, tt).Ok? ==> Joint(TaskStep(f, k, rt, tt).value)
  {
    var r := TaskStep(f, k, rt, tt);
    if r.Ok? {
      forall m | 0 <= m < |f.tasks| && !f.tasks[m].status.Open() ensures InspectionExists(r.value, m) {
        assert InspectionExists(f, m);
      }
      TaskMovedKeeps(f, r.value, k, f.tasks[k].room, r.value.tasks[k].status);
    }
  }

  /** A task and its room moved on together, with one event; nothing else. */
  ghost predicate MovedOn(f: Floor, g: Floor, k: nat, status: TaskStatus, from: RoomState, to: RoomState)
    requires k < |f.tasks|
  {
    && f.tasks[k].room < |f.rooms| && f.rooms[f.tasks[k].room].state == from
    && g.tasks == f.tasks[k := f.tasks[k].(status := status)]
    && g.rooms == f.rooms[f.tasks[k].room := f.rooms[f.tasks[k].room].(state := to)]
    && g.changes == f.changes + [StateChange(f.tasks[k].room, from, to)]
    && g.lines == f.lines && g.records == f.records
  }

  /** Assigning takes a planned task and moves nothing else. */
  lemma AssignExact(f: Floor, k: int)
    ensures var r := AssignTask(f, k);
      if !(0 <= k < |f.tasks|) then r == Err(DoesNotExist)
      else if f.tasks[k].status != Planned then r == Err(TransitionNotAllowed)
      else r == Ok(f.(tasks := f.tasks[k := f.tasks[k].(status := Assigned)]))
  {
  }

  /** Starting always succeeds on a planned or assigned task: its room is dirty and turns to cleaning. */
  lemma StartExact(f: Floor, k: int)
    requires Joint(f)
    ensures var r := Perform(f, Starting(k));
      if !(0 <= k < |f.tasks|) then r == Err(DoesNotExist)
      else if f.tasks[k].status != Planned && f.tasks[k].status != Assigned then r == Err(InvalidRequest)
      else r.Ok? && MovedOn(f, r.value, k, InProgress, VacantDirty, Cleaning) && r.value.inspections == f.inspections && Joint(r.value)
  {
    if 0 <= k < |f.tasks| {
      assert TaskOk(f, k);
      StepKeeps(f, k, Clean, StartCleaning);
    }
  }

  /** Completing always succeeds on a task in progress: its room is in cleaning and turns to inspected. */
  lemma CompleteExact(f: Floor, k: int)
    requires Joint(f)
    ensures var r := Perform(f, Completing(k));
      if !(0 <= k < |f.tasks|) then r == Err(DoesNotExist)
      else if f.tasks[k].status != InProgress then r == Err(InvalidRequest)
      else r.Ok? && MovedOn(f, r.value, k, QualityCheck, Cleaning, Inspected) && r.value.inspections == f.inspections && Joint(r.value)
  {
    if 0 <= k < |f.tasks| {
      assert TaskOk(f, k);
      StepKeeps(f, k, CompleteCleaning, FinishCleaning);
    }
  }

  /** Inspecting a task in quality check always succeeds: neither its uniqueness nor the room can be in
      the way.  Passed, the room is vacant and clean again; failed, it is back in cleaning. */
  lemma InspectExact(f: Floor, k: int, passed: bool)
    requires Joint(f)
    ensures var r := Inspect(f, k, passed);
      if !(0 <= k < |f.tasks|) then r == Err(DoesNotExist)
      else if f.tasks[k].status != QualityCheck then r == Err(InvalidRequest)
      else
        && r.Ok? && Joint(r.value) && r.value.inspections == f.inspections + [Inspection(k, passed)]
        && MovedOn(f, r.value, k, if passed then Verified else Rejected, Inspected, if passed then VacantClean else Cleaning)
  {
    if 0 <= k < |f.tasks| && f.tasks[k].status.QualityCheck? {
      assert TaskOk(f, k);
      assert !InspectionExists(f, k);
      InspectedKeeps(f, k, passed);
    }
  }

  lemma InspectedKeeps(f: Floor, k: nat, passed: bool)
    requires Joint(f) && k < |f.tasks| && f.tasks[k].status.QualityCheck?
    requires !InspectionExists(f, k) && TaskOk(f, k)
    ensures Inspect(f, k, passed).Ok? && Joint(Inspect(f, k, passed).value)
  {
    var r := f.tasks[k].room;
    var g := Inspect(f, k, passed).value;
    assert g.inspections == f.inspections + [Inspection(k, passed)];
    forall m | 0 <= m < |g.tasks| && !g.tasks[m].status.Open() ensures InspectionExists(g, m) {
      if m == k {
        assert g.inspections[|f.inspections|].task == k;
      } else {
        assert InspectionExists(f, m);
        var i :| 0 <= i < |f.inspections| && f.inspections[i].task == m;
        assert g.inspections[i].task == m;
      }
    }
    TaskMovedKeeps(f, g, k, r, if passed then Verified else Rejected);
  }

  // ---------------------------------------------------------------- transitions on their own

  /** The room transitions that may be applied on their own. */
  predicate Harmless(t: RoomTransition) {
    t.Service? || t.ServiceComplete? || t.Defect? || t.Restore? || t.RestoreDirect?
  }

  lemma HarmlessKeeps(f: Floor, r: int, t: RoomTransition)
    requires Joint(f) && Harmless(t)
    ensures Joint(Next(f, Turning(r, t)))
  {
    var g := Next(f, Turning(r, t));
    if g != f {
      assert RoomOk(f, r);
      forall i | 0 <= i < |g.lines| ensures LineOk(g, i) {
        assert LineOk(f, i);
        if f.lines[i].status.CheckedIn? { assert HasGuest(f, f.lines[i].room.value, i); }
      }
      forall q | 0 <= q < |g.rooms| ensures RoomOk(g, q) {
        assert RoomOk(f, q);
        SameTasks(f, g, q);
      }
      forall k | 0 <= k < |g.tasks| ensures TaskOk(g, k) { assert TaskOk(f, k); }
      forall m | 0 <= m < |g.tasks| && !g.tasks[m].status.Open() ensures InspectionExists(g, m) { assert InspectionExists(f, m); }
    }
  }

  // ---------------------------------------------------------------- all runs

  /** Service operations, plus the room transitions that are harmless on their own. */
  predicate Allowed(op: Operation) {
    op.Turning? ==> Harmless(op.transition)
  }

  lemma NextKeeps(f: Floor, op: Operation)
    requires Joint(f) && Allowed(op)
    ensures Joint(Next(f, op))
  {
    match op
    case Booking(property, roomType, guest) => BookingKeeps(f, property, roomType, guest);
    case Allocating(tenant, line) => AllocateLineKeeps(f, tenant, line);
    case CheckingOut(line, today) => CheckOutExact(f, line, today);
    case Assigning(k) => AssignKeeps(f, k);
    case Starting(k) => StepKeeps(f, k, Clean, StartCleaning);
    case Completing(k) => StepKeeps(f, k, CompleteCleaning, FinishCleaning);
    case Inspecting(k, passed) => InspectExact(f, k, passed);
    case Turning(r, t) => HarmlessKeeps(f, r, t);
  }

  /** Rooms as they are set up: vacant and clean. */
  ghost predicate Opening(f: Floor) {
    && (forall r :: 0 <= r < |f.rooms| ==> f.rooms[r].state.VacantClean?)
    && f.lines == [] && f.tasks == [] && f.inspections == [] && f.records == []
  }

  lemma {:induction false} JointOverRuns(f: Floor, run: seq<Operation>)
    requires Joint(f) && AllAllowed(run)
    ensures Joint(Execute(f, run))
    decreases |run|
  {
    if run != [] {
      JointOverRuns(f, run[..|run| - 1]);
      NextKeeps(Execute(f, run[..|run| - 1]), run[|run| - 1]);
    }
  }

  lemma OpeningIsJoint(f: Floor)
    requires Opening(f)
    ensures Joint(f)
  {
  }

  // ---------------------------------------------------------------- which transitions need their service

  /** The smallest floor on which a harmful transition applies and breaks the invariant. */
  function Fragile(t: RoomTransition): Floor {
    var room := Room(0, 0, 0, false, t.Source(), Some(0));
    var guest := StayLine(0, 0, None, CheckedIn, Some(0));
    match t.Source()
    case OccupiedClean => Floor([room], [guest], [], [], [AllocationRecord(0, 0)], [])
    case VacantDirty => Floor([room], [], [Task(0, 0, 0, Planned)], [], [], [])
    case Cleaning => Floor([room], [], [Task(0, 0, 0, InProgress)], [], [], [])
    case Inspected => Floor([room], [], [Task(0, 0, 0, QualityCheck)], [], [], [])
    case _ => Floor([room], [], [], [], [], [])
  }

  lemma FragileIsJoint(t: RoomTransition)
    requires !Harmless(t)
    ensures Joint(Fragile(t))
  {
    var f := Fragile(t);
    if f.tasks != [] { assert OpenTaskOf(f, 0, 0); }
    if f.lines != [] { assert HasGuest(f, 0, 0); }
  }

  lemma FragileBreaks(t: RoomTransition)
    requires !Harmless(t)
    ensures !Joint(Next(Fragile(t), Turning(0, t)))
  {
    var g := Next(Fragile(t), Turning(0, t));
    assert g.rooms[0].state == t.Target();
    assert !RoomOk(g, 0) || (g.lines != [] && !LineOk(g, 0)) || (g.tasks != [] && !TaskOk(g, 0));
  }

  /**
   A room transition applied on its own, outside the service that moves line and task with it,
   keeps the joint invariant of every floor if and only if it is one of the five harmless ones.
   In particular taking an occupied room out of order does not.
   */
  lemma HarmlessExactly(t: RoomTransition)
    ensures (forall f, r :: Joint(f) ==> Joint(Next(f, Turning(r, t)))) <==> Harmless(t)
  {
    if Harmless(t) {
      forall f, r | Joint(f) ensures Joint(Next(f, Turning(r, t))) { HarmlessKeeps(f, r, t); }
    } else {
      FragileIsJoint(t);
      FragileBreaks(t);
    }
  }

  // ---------------------------------------------------------------- the room nobody can clean

  /** Being cleaned, with no task for it in progress. */
  ghost predicate Stranded(f: Floor, r: nat) {
    r < |f.rooms| && f.rooms[r].state.Cleaning? && forall k: nat :: !OpenTaskOf(f, k, r)
  }

  lemma StrandedStays(f: Floor, op: Operation, r: nat)
    requires Joint(f) && Allowed(op) && Stranded(f, r)
    ensures Stranded(Next(f, op), r) && Next(f, op).rooms[r] == f.rooms[r]
  {
    var g := Next(f, op);
    match op {
      case Allocating(tenant, line) =>
        if AllocateLine(f, tenant, line).Ok? { AllocateLineExact(f, tenant, line); }
      case CheckingOut(line, today) =>
        if CheckOut(f, line, today).Ok? { StrandedUnderCheckOut(f, line, today, r); }
      case Booking(_, _, _) =>
      case Turning(q, t) =>
      case _ => StrandedUnderTask(f, op, r);
    }
    forall k: nat ensures !OpenTaskOf(g, k, r) {
      assert !OpenTaskOf(f, k, r);
    }
  }

  lemma StrandedUnderCheckOut(f: Floor, line: int, today: int, r: nat)
    requires Joint(f) && Stranded(f, r) && CheckOut(f, line, today).Ok?
    ensures f.lines[line].room.value != r && CheckOut(f, line, today).value.rooms[r] == f.rooms[r]
    ensures CheckOut(f, line, today).value.tasks == f.tasks + [Task(f.lines[line].room.value, line, today, Planned)]
  {
  }

  /** A task operation acts on an open task, so on another room. */
  lemma StrandedUnderTask(f: Floor, op: Operation, r: nat)
    requires Joint(f) && Stranded(f, r) && (op.Assigning? || op.Starting? || op.Completing? || op.Inspecting?)
    ensures var g := Next(f, op);
      |g.rooms| == |f.rooms| && g.rooms[r] == f.rooms[r] && |g.tasks| == |f.tasks| &&
      forall k: nat :: OpenTaskOf(g, k, r) ==> OpenTaskOf(f, k, r)
  {
    if 0 <= op.task < |f.tasks| { assert !OpenTaskOf(f, op.task, r); }
  }

  /** Once stranded, a room is never cleaned, inspected, vacant or allocated again, over any run. */
  lemma {:induction false} StrandedForever(f: Floor, run: seq<Operation>, r: nat)
    requires Joint(f) && Stranded(f, r) && AllAllowed(run)
    ensures Stranded(Execute(f, run), r) && Execute(f, run).rooms[r] == f.rooms[r]
    decreases |run|
  {
    if run != [] {
      var front := run[..|run| - 1];
      StrandedForever(f, front, r);
      JointOverRuns(f, front);
      StrandedStays(Execute(f, front), run[|run| - 1], r);
    }
  }

  /** A failed inspection strands its room: the task is closed and nothing opens a new one. */
  lemma FailedInspectionStrands(f: Floor, k: nat)
    requires Joint(f) && k < |f.tasks| && f.tasks[k].status.QualityCheck?
    ensures Stranded(Next(f, Inspecting(k, false)), f.tasks[k].room)
  {
    InspectExact(f, k, false);
    var g := Next(f, Inspecting(k, false));
    forall m: nat ensures !OpenTaskOf(g, m, f.tasks[k].room) {
      if m < |f.tasks| && m != k && f.tasks[m].status.Open() {
        if m < k { assert f.tasks[m].room != f.tasks[k].room; } else { assert f.tasks[k].room != f.tasks[m].room; }
      }
    }
  }

  /** Finishing and passing the task in progress brings the room back. */
  lemma TaskRecovers(f: Floor, r: nat, k: nat)
    requires Joint(f) && r < |f.rooms| && f.rooms[r].state.Cleaning? && OpenTaskOf(f, k, r)
    ensures Vacates(f, [Completing(k), Inspecting(k, true)], r)
  {
    var run := [Completing(k), Inspecting(k, true)];
    var g := Next(f, Completing(k));
    assert TaskOk(f, k);
    StepKeeps(f, k, CompleteCleaning, FinishCleaning);
    InspectExact(g, k, true);
    assert run[..1] == [Completing(k)] && run[..1][..0] == [];
    assert Execute(f, run[..1]) == g;
  }

  /** A room being cleaned can come back into service exactly when a task for it is in progress. */
  lemma RecoverableExactly(f: Floor, r: nat)
    requires Joint(f) && r < |f.rooms| && f.rooms[r].state.Cleaning?
    ensures (exists run :: AllAllowed(run) && Vacates(f, run, r)) <==> (exists k: nat :: OpenTaskOf(f, k, r))
  {
    if k: nat :| OpenTaskOf(f, k, r) {
      TaskRecovers(f, r, k);
      assert AllAllowed([Completing(k), Inspecting(k, true)]);
    } else {
      forall run | AllAllowed(run) ensures !Vacates(f, run, r) {
        StrandedForever(f, run, r);
      }
    }
  }

  predicate AllAllowed(run: seq<Operation>) {
    forall i :: 0 <= i < |run| ==> Allowed(run[i])
  }

  ghost predicate Vacates(f: Floor, run: seq<Operation>, r: nat) {
    r < |Execute(f, run).rooms| && Execute(f, run).rooms[r].state.VacantClean?
  }

  // ---------------------------------------------------------------- the constraints, on any floor

  /** On any floor whatever, consistent or not: a line with an allocation record gets no second one, and a task
      with an inspection no second one, whatever else would go through. */
  lemma UniqueOnAnyFloor(f: Floor, tenant: int, line: int, k: int, passed: bool)
    ensures AllocateLine(f, tenant, line).Ok? ==> forall i :: 0 <= i < |f.records| ==> f.records[i].line != line
    ensures AllocateLine(f, tenant, line) == Err(IntegrityError) ==> exists i :: 0 <= i < |f.records| && f.records[i].line == line
    ensures 0 <= k < |f.tasks| && f.tasks[k].status == QualityCheck ==>
      (Inspect(f, k, passed) == Err(IntegrityError) <==> exists i :: 0 <= i < |f.inspections| && f.inspections[i].task == k)
  {
    if 0 <= line < |f.lines| { BestIsLeast(f, tenant, line, |f.rooms|); }
  }

  /** A line comes into the picture confirmed, with its guest and without a room. */
  lemma BookingExact(f: Floor, property: int, roomType: int, guest: Option<int>)
    ensures Next(f, Booking(property, roomType, guest)) == f.(lines := f.lines + [StayLine(property, roomType, guest, Confirmed, None)])
  {
  }

  // ---------------------------------------------------------------- the declared machine

  /** The twelve pairs of states a room may move between. */
  predicate Declared(from: RoomState, to: RoomState) {
    match from
    case VacantClean => to == OccupiedClean || to == OutOfService
    case VacantDirty => to == Cleaning
    case OccupiedClean => to == OccupiedDirty || to == VacantDirty || to == OutOfOrder
    case OccupiedDirty => to == OccupiedClean
    case Cleaning => to == Inspected
    case Inspected => to == VacantClean || to == Cleaning
    case OutOfService => to == Cleaning
    case OutOfOrder => to == VacantClean
  }

  /** Over every run a room moves only along a declared pair, and the event says which; every pair can be taken. */
  lemma {:induction false} ChangesAreDeclared(f: Floor, run: seq<Operation>, i: nat)
    requires f.changes == [] && i < |Execute(f, run).changes|
    ensures var c := Execute(f, run).changes[i]; Declared(c.from, c.to)
    decreases |run|
  {
    var front, op := run[..|run| - 1], run[|run| - 1];
    var e := Execute(f, front);
    StepDeclares(e, op);
    if i < |e.changes| { ChangesAreDeclared(f, front, i); }
  }

  lemma StepDeclares(f: Floor, op: Operation)
    ensures var g := Next(f, op);
      g.changes == f.changes ||
      (|g.changes| == |f.changes| + 1 && g.changes[..|f.changes|] == f.changes &&
       Declared(g.changes[|f.changes|].from, g.changes[|f.changes|].to))
  {
    var g := Next(f, op);
    if op.Allocating? && g != f { BestIsLeast(f, op.tenant, op.line, |f.rooms|); }
  }

  /** A room can be turned from any state to any other along a declared pair, and the answer is the new state
      with its event; along no other pair can it be turned at all. */
  lemma TurnsAlongDeclared(f: Floor, r: nat, to: RoomState)
    requires r < |f.rooms|
    ensures (exists t :: Turn(f, r, t).Ok? && Turn(f, r, t).value.rooms[r].state == to) <==> Declared(f.rooms[r].state, to)
  {
    if Declared(f.rooms[r].state, to) {
      var t := match (f.rooms[r].state, to)
        case (VacantClean, OccupiedClean) => Allocate
        case (VacantClean, _) => Defect
        case (VacantDirty, _) => Clean
        case (OccupiedClean, OccupiedDirty) => Service
        case (OccupiedClean, VacantDirty) => Checkout
        case (OccupiedClean, _) => Maintenance
        case (OccupiedDirty, _) => ServiceComplete
        case (Cleaning, _) => CompleteCleaning
        case (Inspected, VacantClean) => Approve
        case (Inspected, _) => Reject
        case (OutOfService, _) => Restore
        case (OutOfOrder, _) => RestoreDirect;
      assert Turn(f, r, t).Ok? && Turn(f, r, t).value.rooms[r].state == to;
    }
  }
}
