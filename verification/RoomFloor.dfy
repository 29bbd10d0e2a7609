/**
 Rooms, booking lines and housekeeping tasks: three state machines that change together, without
 one owner of their joint invariant.
 */
module RoomFloor {
  import opened Outcomes

  datatype RoomState =
    VacantClean | VacantDirty | OccupiedClean | OccupiedDirty | OutOfService | OutOfOrder | Cleaning | Inspected
  {
    predicate Occupied() {
      OccupiedClean? || OccupiedDirty?
    }

    /** Rooms the availability ledger must not sell. */
    predicate Unsellable() {
      OutOfService? || OutOfOrder?
    }
  }

  datatype RoomTransition =
    | Allocate | Service | ServiceComplete | Checkout | Clean | CompleteCleaning
    | Approve | Reject | Defect | Maintenance | Restore | RestoreDirect
  {
    function Source(): RoomState {
      match this
      case Allocate => VacantClean
      case Service => OccupiedClean
      case ServiceComplete => OccupiedDirty
      case Checkout => OccupiedClean
      case Clean => VacantDirty
      case CompleteCleaning => Cleaning
      case Approve => Inspected
      case Reject => Inspected
      case Defect => VacantClean
      case Maintenance => OccupiedClean
      case Restore => OutOfService
      case RestoreDirect => OutOfOrder
    }

    function Target(): RoomState {
      match this
      case Allocate => OccupiedClean
      case Service => OccupiedDirty
      case ServiceComplete => OccupiedClean
      case Checkout => VacantDirty
      case Clean => Cleaning
      case CompleteCleaning => Inspected
      case Approve => VacantClean
      case Reject => Cleaning
      case Defect => OutOfService
      case Maintenance => OutOfOrder
      case Restore => Cleaning
      case RestoreDirect => VacantClean
    }
  }

  datatype Room = Room(tenant: int, property: int, roomType: int, deleted: bool, state: RoomState, line: Option<nat>)

  datatype LineStatus = Confirmed | CheckedIn | CheckedOut

  datatype StayLine = StayLine(property: int, roomType: int, guest: Option<int>, status: LineStatus, room: Option<nat>)

  datatype TaskStatus = Planned | Assigned | InProgress | QualityCheck | Verified | Rejected
  {
    predicate Open() {
      !Verified? && !Rejected?
    }
  }

  datatype TaskTransition = Assign | StartCleaning | FinishCleaning | PassInspection | FailInspection
  {
    function From(status: TaskStatus): Option<TaskStatus> {
      match this
      case Assign => if status.Planned? then Some(Assigned) else None
      case StartCleaning => if status.Planned? || status.Assigned? then Some(InProgress) else None
      case FinishCleaning => if status.InProgress? then Some(QualityCheck) else None
      case PassInspection => if status.QualityCheck? then Some(Verified) else None
      case FailInspection => if status.QualityCheck? then Some(Rejected) else None
    }
  }

  /** A departure task; the other kinds are never created. */
  datatype Task = Task(room: nat, line: nat, date: int, status: TaskStatus)

  datatype Inspection = Inspection(task: nat, passed: bool)

  datatype AllocationRecord = AllocationRecord(line: nat, room: nat)

  /** The `room.state_changed` event written with every transition. */
  datatype StateChange = StateChange(room: nat, from: RoomState, to: RoomState)

  /** Primary keys are positions. */
  datatype Floor = Floor(
    rooms: seq<Room>, lines: seq<StayLine>, tasks: seq<Task>,
    inspections: seq<Inspection>, records: seq<AllocationRecord>, changes: seq<StateChange>)

  // ---------------------------------------------------------------- transitions

  /** `RoomStateMachine.apply`: new state and its event together, or nothing. */
  function Turn(f: Floor, r: nat, t: RoomTransition): Result<Floor>
    requires r < |f.rooms|
  {
    if f.rooms[r].state != t.Source() then Err(TransitionNotAllowed)
    else Ok(f.(rooms := f.rooms[r := f.rooms[r].(state := t.Target())],
               changes := f.changes + [StateChange(r, t.Source(), t.Target())]))
  }

  function MoveTask(f: Floor, k: nat, t: TaskTransition): Result<Floor>
    requires k < |f.tasks|
  {
    match t.From(f.tasks[k].status)
    case None => Err(TransitionNotAllowed)
    case Some(status) => Ok(f.(tasks := f.tasks[k := f.tasks[k].(status := status)]))
  }

  // ---------------------------------------------------------------- allocation

  /** A vacant clean room of the line's type, at the line's property, in the caller's tenant. */
  predicate Candidate(f: Floor, tenant: int, line: nat, r: nat)
    requires line < |f.lines| && r < |f.rooms|
  {
    var room := f.rooms[r];
    room.state.VacantClean? && !room.deleted && room.tenant == tenant &&
    room.property == f.lines[line].property && room.roomType == f.lines[line].roomType
  }

  /** Another line of the same guest was given this room before. */
  predicate StayedBefore(f: Floor, line: nat, r: nat)
    requires line < |f.lines|
  {
    f.lines[line].guest.Some? &&
    exists i :: 0 <= i < |f.lines| && i != line && f.lines[i].guest == f.lines[line].guest && f.lines[i].room == Some(r)
  }

  /** The sort key: stay continuity first, then the lowest room id. */
  predicate Before(f: Floor, line: nat, a: nat, b: nat)
    requires line < |f.lines|
  {
    if StayedBefore(f, line, a) == StayedBefore(f, line, b) then a < b else StayedBefore(f, line, a)
  }

  /** The first in sort order among the candidates with an id below n. */
  function Best(f: Floor, tenant: int, line: nat, n: nat): Option<nat>
    requires line < |f.lines| && n <= |f.rooms|
  {
    if n == 0 then None
    else
      var best := Best(f, tenant, line, n - 1);
      if Candidate(f, tenant, line, n - 1) && (best.None? || Before(f, line, n - 1, best.value)) then Some(n - 1) else best
  }

  /** Exactly the least candidate by sort key, and none only if there is no candidate. */
  lemma {:induction false} BestIsLeast(f: Floor, tenant: int, line: nat, n: nat)
    requires line < |f.lines| && n <= |f.rooms|
    ensures match Best(f, tenant, line, n)
      case Some(b) => b < n && Candidate(f, tenant, line, b) &&
                      forall r: nat :: r < n && Candidate(f, tenant, line, r) && r != b ==> Before(f, line, b, r)
      case None => forall r: nat :: r < n ==> !Candidate(f, tenant, line, r)
  {
    if n > 0 { BestIsLeast(f, tenant, line, n - 1); }
  }

  /** The three writes of an allocation: room, line and record. */
  function GiveRoom(f: Floor, line: nat, r: nat): Result<Floor>
    requires line < |f.lines| && r < |f.rooms|
  {
    var turned :- Turn(f.(rooms := f.rooms[r := f.rooms[r].(line := Some(line))]), r, Allocate);
    if exists i :: 0 <= i < |f.records| && f.records[i].line == line then Err(IntegrityError)
    else Ok(turned.(lines := f.lines[line := f.lines[line].(room := Some(r), status := CheckedIn)],
                    records := f.records + [AllocationRecord(line, r)]))
  }

  /** `AllocationService.allocate_line`, run whole. */
  function AllocateLine(f: Floor, tenant: int, line: int): Result<Floor> {
    if !(0 <= line < |f.lines|) then Err(DoesNotExist)
    else if !f.lines[line].status.Confirmed? || f.lines[line].room.Some? then Err(InvalidRequest)
    else
      match Best(f, tenant, line, |f.rooms|)
      case None => Err(InsufficientAvailability)
      case Some(r) => BestIsLeast(f, tenant, line, |f.rooms|); GiveRoom(f, line, r)
  }

  // ---------------------------------------------------------------- housekeeping

  /** The unique constraint on (room, date, kind). */
  predicate DepartureTaken(f: Floor, r: nat, date: int) {
    exists k :: 0 <= k < |f.tasks| && f.tasks[k].room == r && f.tasks[k].date == date
  }

  function CheckOut(f: Floor, line: int, today: int): Result<Floor> {
    if !(0 <= line < |f.lines|) then Err(DoesNotExist)
    else if !f.lines[line].status.CheckedIn? then Err(InvalidRequest)
    else if f.lines[line].room.None? || f.lines[line].room.value >= |f.rooms| then Err(InvalidRequest)
    else
      var r := f.lines[line].room.value;
      var turned :- Turn(f, r, Checkout);
      if DepartureTaken(f, r, today) then Err(IntegrityError)
      else Ok(turned.(lines := f.lines[line := f.lines[line].(status := CheckedOut)],
                      tasks := f.tasks + [Task(r, line, today, Planned)]))
  }

  function AssignTask(f: Floor, k: int): Result<Floor> {
    if !(0 <= k < |f.tasks|) then Err(DoesNotExist) else MoveTask(f, k, Assign)
  }

  /** A task step that takes its room along. */
  function TaskStep(f: Floor, k: int, rt: RoomTransition, tt: TaskTransition): Result<Floor> {
    if !(0 <= k < |f.tasks|) || f.tasks[k].room >= |f.rooms| then Err(DoesNotExist)
    else if tt.From(f.tasks[k].status).None? then Err(InvalidRequest)
    else
      var turned :- Turn(f, f.tasks[k].room, rt);
      MoveTask(turned, k, tt)
  }

  predicate InspectionExists(f: Floor, k: nat) {
    exists i :: 0 <= i < |f.inspections| && f.inspections[i].task == k
  }

  function Inspect(f: Floor, k: int, passed: bool): Result<Floor> {
    if !(0 <= k < |f.tasks|) then Err(DoesNotExist)
    else if !f.tasks[k].status.QualityCheck? then Err(InvalidRequest)
    else if InspectionExists(f, k) then Err(IntegrityError)
    else
      var g := f.(inspections := f.inspections + [Inspection(k, passed)]);
      if passed then TaskStep(g, k, Approve, PassInspection) else TaskStep(g, k, Reject, FailInspection)
  }

  function TurnRoom(f: Floor, r: int, t: RoomTransition): Result<Floor> {
    if !(0 <= r < |f.rooms|) then Err(DoesNotExist) else Turn(f, r, t)
  }

  // ---------------------------------------------------------------- runs

  datatype Operation =
    | Booking(property: int, roomType: int, guest: Option<int>)
    | Allocating(tenant: int, line: int)
    | CheckingOut(line: int, today: int)
    | Assigning(task: int)
    | Starting(task: int)
    | Completing(task: int)
    | Inspecting(task: int, passed: bool)
    | Turning(room: int, transition: RoomTransition)  // RoomStateMachine.apply on its own

  function Perform(f: Floor, op: Operation): Result<Floor> {
    match op
    case Booking(property, roomType, guest) =>
      Ok(f.(lines := f.lines + [StayLine(property, roomType, guest, Confirmed, None)]))
    case Allocating(tenant, line) => AllocateLine(f, tenant, line)
    case CheckingOut(line, today) => CheckOut(f, line, today)
    case Assigning(k) => AssignTask(f, k)
    case Starting(k) => TaskStep(f, k, Clean, StartCleaning)
    case Completing(k) => TaskStep(f, k, CompleteCleaning, FinishCleaning)
    case Inspecting(k, passed) => Inspect(f, k, passed)
    case Turning(r, t) => TurnRoom(f, r, t)
  }

  /** A failed transaction is rolled back. */
  function Next(f: Floor, op: Operation): Floor {
    var r := Perform(f, op);
    if r.Ok? then r.value else f
  }

  function Execute(f: Floor, run: seq<Operation>): Floor {
    if run == [] then f else Next(Execute(f, run[..|run| - 1]), run[|run| - 1])
  }
}
