/**
 Arbitrarily many `allocate_line` calls interleaved at the grain of one lock: the booking line
 first, then an unlocked read of the candidates, then every candidate room in ascending id order
 with its state re-checked under the lock, then the choice and the commit.
 */
module AllocationLocks {
  import opened Outcomes
  import opened RoomFloor
  import opened RoomFloorInvariant
  import opened LockOrder

  datatype Request = Request(tenant: int, line: int)

  datatype Lock = LineLock(line: nat) | RoomLock(room: nat)

  datatype Session =
    | Waiting                                                    // nothing locked yet
    | Reading                                                    // holds its line, which may be allocated
    | Scoring(ids: seq<nat>)                                     // has read the candidates, without locking them
    | Locking(ids: seq<nat>, prior: set<nat>, vacant: set<nat>)  // ids still to lock, scores, rooms found vacant
    | Finished(placed: bool)
  {
    predicate HoldsLine() {
      Reading? || Scoring? || Locking?
    }
  }

  datatype End = End(who: nat, placed: bool)

  datatype System = System(floor: Floor, owner: map<Lock, nat>, sessions: seq<Session>, ends: seq<End>)

  function Start(f: Floor, requests: seq<Request>): System {
    System(f, map[], seq(|requests|, i => Waiting), [])
  }

  predicate KnownLine(s: System, q: Request) {
    0 <= q.line < |s.floor.lines|
  }

  /** The lock a session asks for next. */
  function Wanted(s: System, requests: seq<Request>, i: nat): Option<Lock>
    requires i < |s.sessions| == |requests|
  {
    match s.sessions[i]
    case Waiting => if KnownLine(s, requests[i]) then Some(LineLock(requests[i].line)) else None
    case Locking(ids, _, _) => if ids != [] then Some(RoomLock(ids[0])) else None
    case _ => None
  }

  predicate Enabled(s: System, requests: seq<Request>, i: nat)
    requires i < |s.sessions| == |requests|
  {
    !s.sessions[i].Finished? && (Wanted(s, requests, i).Some? ==> Wanted(s, requests, i).value !in s.owner)
  }

  /** The candidates with an id below n, ascending. */
  function CandidateIds(f: Floor, q: Request, n: nat): seq<nat>
    requires 0 <= q.line < |f.lines| && n <= |f.rooms|
  {
    if n == 0 then []
    else CandidateIds(f, q, n - 1) + if Candidate(f, q.tenant, q.line, n - 1) then [n - 1] else []
  }

  /** Comparison of scores as they were read with the candidates. */
  predicate Ahead(prior: set<nat>, a: nat, b: nat) {
    if (a in prior) == (b in prior) then a < b else a in prior
  }

  ghost predicate Chosen(prior: set<nat>, vacant: set<nat>, r: nat) {
    r in vacant && forall q :: q in vacant && q != r ==> Ahead(prior, r, q)
  }

  function Close(s: System, i: nat, floor: Floor, placed: bool): System
    requires i < |s.sessions|
  {
    System(floor, map l | l in s.owner && s.owner[l] != i :: s.owner[l],
           s.sessions[i := Finished(placed)], s.ends + [End(i, placed)])
  }

  ghost function Choice(prior: set<nat>, vacant: set<nat>): Option<nat> {
    if r :| Chosen(prior, vacant, r) then Some(r) else None
  }

  /** One step of one session; a blocked or finished one does nothing. */
  ghost function Step(s: System, requests: seq<Request>, i: nat): System
    requires |s.sessions| == |requests| && i < |requests|
  {
    var f, q := s.floor, requests[i];
    if !Enabled(s, requests, i) then s
    else
      match s.sessions[i]
      case Waiting =>
        if !KnownLine(s, q) then Close(s, i, f, false)
        else if !f.lines[q.line].status.Confirmed? || f.lines[q.line].room.Some? then Close(s, i, f, false)
        else s.(owner := s.owner[LineLock(q.line) := i], sessions := s.sessions[i := Reading])
      case Reading =>
        if !KnownLine(s, q) then Close(s, i, f, false)
        else s.(sessions := s.sessions[i := Scoring(CandidateIds(f, q, |f.rooms|))])
      case Scoring(ids) =>
        if !KnownLine(s, q) then Close(s, i, f, false)
        else s.(sessions := s.sessions[i := Locking(ids, set r | r in ids && StayedBefore(f, q.line, r), {})])
      case Locking(ids, prior, vacant) =>
        if ids != [] then
          var found := ids[0] < |f.rooms| && f.rooms[ids[0]].state.VacantClean?;
          s.(owner := s.owner[RoomLock(ids[0]) := i],
             sessions := s.sessions[i := Locking(ids[1..], prior, if found then vacant + {ids[0]} else vacant)])
        else
          match Choice(prior, vacant)
          case None => Close(s, i, f, false)
          case Some(r) =>
            if !KnownLine(s, q) || r >= |f.rooms| || GiveRoom(f, q.line, r).Err? then Close(s, i, f, false)
            else Close(s, i, GiveRoom(f, q.line, r).value, true)
  }

  ghost function Interleave(s: System, requests: seq<Request>, schedule: seq<nat>): System
    requires |s.sessions| == |requests|
    ensures |Interleave(s, requests, schedule).sessions| == |requests|
    decreases |schedule|
  {
    if schedule == [] then s
    else
      var t := Interleave(s, requests, schedule[..|schedule| - 1]);
      var i := schedule[|schedule| - 1];
      if i < |requests| then Step(t, requests, i) else t
  }

  // ---------------------------------------------------------------- the reference

  ghost function Serial(f: Floor, requests: seq<Request>, ends: seq<End>): Floor {
    if ends == [] then f
    else
      var before, i := Serial(f, requests, ends[..|ends| - 1]), ends[|ends| - 1].who;
      if i < |requests| then Next(before, Allocating(requests[i].tenant, requests[i].line)) else before
  }

  ghost predicate SameOutcome(before: Floor, requests: seq<Request>, end: End) {
    end.who < |requests| &&
    (end.placed <==> AllocateLine(before, requests[end.who].tenant, requests[end.who].line).Ok?)
  }

  ghost predicate Serialised(f: Floor, requests: seq<Request>, s: System) {
    && s.floor == Serial(f, requests, s.ends)
    && forall p :: 0 <= p < |s.ends| ==> SameOutcome(Serial(f, requests, s.ends[..p]), requests, s.ends[p])
  }

  // ---------------------------------------------------------------- invariant

  /** All that a candidate is, but for the operational state. */
  predicate Matches(f: Floor, q: Request, r: nat)
    requires 0 <= q.line < |f.lines| && r < |f.rooms|
  {
    !f.rooms[r].deleted && f.rooms[r].tenant == q.tenant &&
    f.rooms[r].property == f.lines[q.line].property && f.rooms[r].roomType == f.lines[q.line].roomType
  }

  predicate Free(f: Floor, q: Request) {
    0 <= q.line < |f.lines| && f.lines[q.line].status.Confirmed? && f.lines[q.line].room.None?
  }

  /** Rooms still to lock: ascending, of the right kind, and every candidate among them or found already. */
  ghost predicate Covered(f: Floor, q: Request, ids: seq<nat>, found: set<nat>)
    requires Free(f, q)
  {
    && (forall a, b :: 0 <= a < b < |ids| ==> ids[a] < ids[b])
    && (forall r :: r in ids ==> r < |f.rooms| && Matches(f, q, r))
    && (forall r: nat :: r < |f.rooms| && Candidate(f, q.tenant, q.line, r) ==> r in found || r in ids)
  }

  ghost predicate SessionOk(s: System, q: Request, i: nat)
    requires i < |s.sessions|
  {
    var me, f := s.sessions[i], s.floor;
    && (me.HoldsLine() ==> Free(f, q) && LineLock(q.line) in s.owner && s.owner[LineLock(q.line)] == i)
    && (me.Scoring? ==> Covered(f, q, me.ids, {}))
    && (me.Locking? ==>
          && Covered(f, q, me.ids, me.vacant)
          && (forall r :: r in me.vacant ==> RoomLock(r) in s.owner && s.owner[RoomLock(r)] == i)
          && (forall r :: r in me.vacant ==> r < |f.rooms| && Candidate(f, q.tenant, q.line, r))
          && (forall r: nat :: r < |f.rooms| && Candidate(f, q.tenant, q.line, r) ==>
                (r in me.prior <==> StayedBefore(f, q.line, r))))
  }

  /** Locks belong to sessions under way: a session holds its line, and rooms below those it will lock. */
  ghost predicate LocksOk(s: System, requests: seq<Request>)
    requires |s.sessions| == |requests|
  {
    forall l :: l in s.owner ==>
      && s.owner[l] < |s.sessions| && s.sessions[s.owner[l]].HoldsLine()
      && match l
         case LineLock(n) => n == requests[s.owner[l]].line
         case RoomLock(r) => s.sessions[s.owner[l]].Locking? && forall x :: x in s.sessions[s.owner[l]].ids ==> r < x
  }

  ghost predicate Orderly(requests: seq<Request>, s: System) {
    && |s.sessions| == |requests| && Joint(s.floor) && LocksOk(s, requests)
    && forall i :: 0 <= i < |requests| ==> SessionOk(s, requests[i], i)
  }

  ghost predicate Consistent(f: Floor, requests: seq<Request>, s: System) {
    Orderly(requests, s) && Serialised(f, requests, s)
  }

  // ---------------------------------------------------------------- locking keeps it

  lemma {:induction false} CandidateIdsExact(f: Floor, q: Request, n: nat)
    requires 0 <= q.line < |f.lines| && n <= |f.rooms|
    ensures var ids := CandidateIds(f, q, n);
      && (forall r: nat :: r in ids <==> r < n && Candidate(f, q.tenant, q.line, r))
      && (forall a, b :: 0 <= a < b < |ids| ==> ids[a] < ids[b])
      && |ids| <= n
  {
    if n > 0 {
      CandidateIdsExact(f, q, n - 1);
      var front := CandidateIds(f, q, n - 1);
      forall a | 0 <= a < |front| ensures front[a] < n - 1 { assert front[a] in front; }
    }
  }

  /** A step that leaves the floor alone and gives nobody else's lock away. */
  lemma OwnStepKeeps(requests: seq<Request>, s: System, t: System, i: nat)
    requires Orderly(requests, s) && i < |requests|
    requires t.floor == s.floor && |t.sessions| == |s.sessions|
    requires forall j :: 0 <= j < |s.sessions| && j != i ==> t.sessions[j] == s.sessions[j]
    requires forall l :: l in s.owner && s.owner[l] != i ==> l in t.owner && t.owner[l] == s.owner[l]
    requires LocksOk(t, requests) && SessionOk(t, requests[i], i)
    ensures Orderly(requests, t)
  {
    forall j | 0 <= j < |requests| ensures SessionOk(t, requests[j], j) {
      assert SessionOk(s, requests[j], j);
    }
  }

  lemma ReadingKeeps(requests: seq<Request>, s: System, i: nat)
    requires Orderly(requests, s) && i < |requests|
    requires s.sessions[i].Reading? || s.sessions[i].Scoring?
    ensures Orderly(requests, Step(s, requests, i)) && Step(s, requests, i).ends == s.ends
  {
    var t, q := Step(s, requests, i), requests[i];
    assert SessionOk(s, q, i);
    CandidateIdsExact(s.floor, q, |s.floor.rooms|);
    OwnStepKeeps(requests, s, t, i);
  }

  lemma LineLockKeeps(requests: seq<Request>, s: System, i: nat)
    requires Orderly(requests, s) && i < |requests| && Enabled(s, requests, i) && s.sessions[i].Waiting?
    requires Free(s.floor, requests[i])
    ensures Orderly(requests, Step(s, requests, i))
  {
    OwnStepKeeps(requests, s, Step(s, requests, i), i);
  }

  lemma RoomLockKeeps(requests: seq<Request>, s: System, i: nat)
    requires Orderly(requests, s) && i < |requests| && Enabled(s, requests, i)
    requires s.sessions[i].Locking? && s.sessions[i].ids != []
    ensures Orderly(requests, Step(s, requests, i))
  {
    var t, q, ids := Step(s, requests, i), requests[i], s.sessions[i].ids;
    assert SessionOk(s, q, i);
    assert ids[0] in ids;
    assert forall x :: x in ids <==> x == ids[0] || x in ids[1..];
    forall x | x in ids[1..] ensures ids[0] < x { }
    OwnStepKeeps(requests, s, t, i);
  }

  // ---------------------------------------------------------------- the end of a session

  lemma CloseKeepsSerial(f: Floor, requests: seq<Request>, s: System, i: nat, floor: Floor, placed: bool)
    requires Serialised(f, requests, s) && i < |requests| && i < |s.sessions|
    requires floor == Next(s.floor, Allocating(requests[i].tenant, requests[i].line))
    requires placed <==> AllocateLine(s.floor, requests[i].tenant, requests[i].line).Ok?
    ensures Serialised(f, requests, Close(s, i, floor, placed))
  {
    var ends := s.ends + [End(i, placed)];
    assert ends[..|s.ends|] == s.ends;
    forall p | 0 <= p < |ends| ensures SameOutcome(Serial(f, requests, ends[..p]), requests, ends[p]) {
      if p < |s.ends| {
        assert ends[..p] == s.ends[..p];
        assert SameOutcome(Serial(f, requests, s.ends[..p]), requests, s.ends[p]);
      }
    }
  }

  lemma GiveUpKeeps(f: Floor, requests: seq<Request>, s: System, i: nat)
    requires Consistent(f, requests, s) && i < |requests|
    requires AllocateLine(s.floor, requests[i].tenant, requests[i].line).Err?
    ensures Consistent(f, requests, Close(s, i, s.floor, false))
  {
    CloseKeepsSerial(f, requests, s, i, s.floor, false);
    OwnStepKeeps(requests, s, Close(s, i, s.floor, false), i);
  }

  /** The rooms that may be chosen and the scores are those of the floor as it is. */
  ghost predicate UpToDate(f: Floor, q: Request, prior: set<nat>, vacant: set<nat>)
    requires 0 <= q.line < |f.lines|
  {
    && (forall r: nat :: r in vacant <==> r < |f.rooms| && Candidate(f, q.tenant, q.line, r))
    && (forall r: nat :: r in vacant ==> (r in prior <==> StayedBefore(f, q.line, r)))
  }

  lemma ChosenIsBest(f: Floor, q: Request, prior: set<nat>, vacant: set<nat>)
    requires 0 <= q.line < |f.lines| && UpToDate(f, q, prior, vacant)
    ensures forall r: nat :: Chosen(prior, vacant, r) <==> Best(f, q.tenant, q.line, |f.rooms|) == Some(r)
  {
    BestIsLeast(f, q.tenant, q.line, |f.rooms|);
    var best := Best(f, q.tenant, q.line, |f.rooms|);
    if best.Some? { assert Chosen(prior, vacant, best.value); }
    forall r: nat | Chosen(prior, vacant, r) ensures best == Some(r) {
      assert Candidate(f, q.tenant, q.line, r);
      assert best.Some? && best.value in vacant;
    }
  }

  /** With all its rooms locked, a session chooses what `allocate_line` run whole would choose now. */
  lemma ChoiceIsBest(requests: seq<Request>, s: System, i: nat)
    requires Orderly(requests, s) && i < |requests|
    requires s.sessions[i].Locking? && s.sessions[i].ids == []
    ensures KnownLine(s, requests[i])
    ensures Choice(s.sessions[i].prior, s.sessions[i].vacant)
            == Best(s.floor, requests[i].tenant, requests[i].line, |s.floor.rooms|)
  {
    assert SessionOk(s, requests[i], i);
    ChosenIsBest(s.floor, requests[i], s.sessions[i].prior, s.sessions[i].vacant);
  }

  /** Giving a room away does not change where a guest stayed, other than in that room. */
  lemma StaysElsewhere(f: Floor, g: Floor, line: nat, given: nat, other: nat, r: nat)
    requires line < |f.lines| && other < |f.lines| && f.lines[line].room.None? && line != other && r != given
    requires g.lines == f.lines[line := f.lines[line].(room := Some(given), status := CheckedIn)]
    ensures StayedBefore(g, other, r) == StayedBefore(f, other, r)
  {
    if StayedBefore(f, other, r) {
      var k :| 0 <= k < |f.lines| && k != other && f.lines[k].guest == f.lines[other].guest && f.lines[k].room == Some(r);
      assert g.lines[k].room == Some(r);
    }
  }

  /** Other sessions see nothing of an allocation but one candidate fewer. */
  lemma PlacedKeepsOther(requests: seq<Request>, s: System, i: nat, r: nat, g: Floor, j: nat)
    requires Orderly(requests, s) && i < |requests| && j < |requests| && i != j
    requires s.sessions[i].Locking? && r in s.sessions[i].vacant && r < |s.floor.rooms|
    requires Free(s.floor, requests[i]) && GiveRoom(s.floor, requests[i].line, r) == Ok(g)
    ensures SessionOk(Close(s, i, g, true), requests[j], j)
  {
    var me, q, f, line := s.sessions[j], requests[j], s.floor, requests[i].line;
    assert SessionOk(s, requests[i], i) && SessionOk(s, q, j);
    if me.HoldsLine() {
      assert q.line != line;
      forall x: nat | x < |f.rooms| ensures Matches(g, q, x) == Matches(f, q, x) { }
      forall x: nat | x < |f.rooms|
        ensures Candidate(g, q.tenant, q.line, x) <==> Candidate(f, q.tenant, q.line, x) && x != r { }
      forall x: nat | x != r ensures StayedBefore(g, q.line, x) == StayedBefore(f, q.line, x) {
        StaysElsewhere(f, g, line, r, q.line, x);
      }
    }
  }

  lemma PlacedKeeps(f: Floor, requests: seq<Request>, s: System, i: nat, r: nat, g: Floor)
    requires Consistent(f, requests, s) && i < |requests|
    requires s.sessions[i].Locking? && s.sessions[i].ids == [] && r in s.sessions[i].vacant && r < |s.floor.rooms|
    requires Free(s.floor, requests[i]) && GiveRoom(s.floor, requests[i].line, r) == Ok(g) && Joint(g)
    requires AllocateLine(s.floor, requests[i].tenant, requests[i].line) == Ok(g)
    ensures Consistent(f, requests, Close(s, i, g, true))
  {
    var t := Close(s, i, g, true);
    CloseKeepsSerial(f, requests, s, i, g, true);
    forall j | 0 <= j < |requests| ensures SessionOk(t, requests[j], j) {
      if j != i { PlacedKeepsOther(requests, s, i, r, g, j); }
    }
    assert LocksOk(t, requests);
  }

  /** What the last step of a session does, by the choice it makes. */
  lemma DecidingStep(s: System, requests: seq<Request>, i: nat)
    requires |s.sessions| == |requests| && i < |requests| && KnownLine(s, requests[i])
    requires s.sessions[i].Locking? && s.sessions[i].ids == []
    ensures match Choice(s.sessions[i].prior, s.sessions[i].vacant)
      case None => Step(s, requests, i) == Close(s, i, s.floor, false)
      case Some(r) => r < |s.floor.rooms| && GiveRoom(s.floor, requests[i].line, r).Ok? ==>
        Step(s, requests, i) == Close(s, i, GiveRoom(s.floor, requests[i].line, r).value, true)
  {
  }

  lemma DecideKeeps(f: Floor, requests: seq<Request>, s: System, i: nat)
    requires Consistent(f, requests, s) && i < |requests|
    requires s.sessions[i].Locking? && s.sessions[i].ids == []
    ensures Consistent(f, requests, Step(s, requests, i))
  {
    var q := requests[i];
    assert SessionOk(s, q, i);
    ChoiceIsBest(requests, s, i);
    DecidingStep(s, requests, i);
    BestIsLeast(s.floor, q.tenant, q.line, |s.floor.rooms|);
    var best := Best(s.floor, q.tenant, q.line, |s.floor.rooms|);
    if best.Some? {
      GiveRoomKeeps(s.floor, q.line, best.value);
      PlacedKeeps(f, requests, s, i, best.value, GiveRoom(s.floor, q.line, best.value).value);
    } else {
      GiveUpKeeps(f, requests, s, i);
    }
  }

  lemma StepKeeps(f: Floor, requests: seq<Request>, s: System, i: nat)
    requires Consistent(f, requests, s) && i < |requests|
    ensures Consistent(f, requests, Step(s, requests, i))
  {
    if Enabled(s, requests, i) {
      assert SessionOk(s, requests[i], i);
      match s.sessions[i]
      case Waiting =>
        if Free(s.floor, requests[i]) { LineLockKeeps(requests, s, i); } else { GiveUpKeeps(f, requests, s, i); }
      case Locking(ids, _, _) =>
        if ids != [] { RoomLockKeeps(requests, s, i); } else { DecideKeeps(f, requests, s, i); }
      case _ => ReadingKeeps(requests, s, i);
    }
  }

  lemma {:induction false} InterleavingKeeps(f: Floor, requests: seq<Request>, s: System, schedule: seq<nat>)
    requires Consistent(f, requests, s)
    ensures Consistent(f, requests, Interleave(s, requests, schedule))
    decreases |schedule|
  {
    if schedule != [] {
      var front, i := schedule[..|schedule| - 1], schedule[|schedule| - 1];
      InterleavingKeeps(f, requests, s, front);
      if i < |requests| { StepKeeps(f, requests, Interleave(s, requests, front), i); }
    }
  }

  // ---------------------------------------------------------------- the theorems

  /**
   Whatever the interleaving: the floor is that of running the finished calls one after the other in
   the order they finished, each with the same outcome, and the joint invariant holds, so every
   occupied room has one checked-in line.
   */
  lemma InterleavingIsSerial(f: Floor, requests: seq<Request>, schedule: seq<nat>)
    requires Joint(f)
    ensures var s := Interleave(Start(f, requests), requests, schedule);
      && s.floor == Serial(f, requests, s.ends)
      && (forall p :: 0 <= p < |s.ends| ==> SameOutcome(Serial(f, requests, s.ends[..p]), requests, s.ends[p]))
      && Joint(s.floor)
  {
    InterleavingKeeps(f, requests, Start(f, requests), schedule);
  }

  /** No room goes to two lines, however the calls interleave. */
  lemma NoRoomTwice(f: Floor, requests: seq<Request>, schedule: seq<nat>, i: nat, j: nat, r: nat)
    requires Joint(f)
    ensures var g := Interleave(Start(f, requests), requests, schedule).floor;
      InRoom(g, i, r) && InRoom(g, j, r) ==> i == j
  {
    InterleavingIsSerial(f, requests, schedule);
    var g := Interleave(Start(f, requests), requests, schedule).floor;
    if InRoom(g, i, r) {
      assert LineOk(g, i);
      OccupiedExactlyByOne(g, r);
    }
  }

  function Rank(l: Lock): int {
    match l
    case LineLock(_) => -1
    case RoomLock(r) => r
  }

  function Waits(s: System, requests: seq<Request>): seq<Option<Lock>>
    requires |s.sessions| == |requests|
  {
    seq(|requests|, i requires 0 <= i < |requests| => Wanted(s, requests, i))
  }

  /** While a call is unfinished some unfinished call can go on, whatever the guests' score orders. */
  lemma NeverStuck(f: Floor, requests: seq<Request>, s: System, i: nat) returns (j: nat)
    requires Consistent(f, requests, s) && i < |requests| && !s.sessions[i].Finished?
    ensures j < |requests| && Enabled(s, requests, j)
  {
    forall l | l in s.owner
      ensures Waits(s, requests)[s.owner[l]].Some? ==> Rank(Waits(s, requests)[s.owner[l]].value) > Rank(l)
    {
      var me := s.sessions[s.owner[l]];
      if me.Locking? && me.ids != [] { assert me.ids[0] in me.ids; }
    }
    j := SomeoneCanRun(Waits(s, requests), s.owner, Rank, i);
  }

  /** Steps a session can still take on a floor with n rooms. */
  function Remaining(session: Session, n: nat): nat {
    match session
    case Waiting => n + 4
    case Reading => n + 3
    case Scoring(ids) => |ids| + 2
    case Locking(ids, _, _) => |ids| + 1
    case Finished(_) => 0
  }

  function Work(sessions: seq<Session>, n: nat): nat {
    if sessions == [] then 0 else Remaining(sessions[0], n) + Work(sessions[1..], n)
  }

  lemma {:induction false} WorkUpdate(sessions: seq<Session>, n: nat, i: nat, me: Session)
    requires i < |sessions|
    ensures Work(sessions[i := me], n) == Work(sessions, n) - Remaining(sessions[i], n) + Remaining(me, n)
  {
    if i > 0 {
      assert sessions[i := me][1..] == sessions[1..][i - 1 := me];
      WorkUpdate(sessions[1..], n, i - 1, me);
    }
  }

  /** A step leaves its own session less to do and nobody else's touched. */
  lemma StepShortens(s: System, requests: seq<Request>, i: nat)
    requires |s.sessions| == |requests| && i < |requests| && Enabled(s, requests, i)
    ensures var t := Step(s, requests, i);
      && |t.floor.rooms| == |s.floor.rooms| && |t.sessions| == |s.sessions|
      && t.sessions == s.sessions[i := t.sessions[i]]
      && Remaining(t.sessions[i], |s.floor.rooms|) < Remaining(s.sessions[i], |s.floor.rooms|)
  {
    if KnownLine(s, requests[i]) { CandidateIdsExact(s.floor, requests[i], |s.floor.rooms|); }
  }

  lemma StepWorks(s: System, requests: seq<Request>, i: nat)
    requires |s.sessions| == |requests| && i < |requests| && Enabled(s, requests, i)
    ensures var t := Step(s, requests, i);
      |t.floor.rooms| == |s.floor.rooms| && Work(t.sessions, |s.floor.rooms|) < Work(s.sessions, |s.floor.rooms|)
  {
    StepShortens(s, requests, i);
    WorkUpdate(s.sessions, |s.floor.rooms|, i, Step(s, requests, i).sessions[i]);
  }

  /** Every reachable state can be run on until all calls have finished. */
  lemma {:induction false} EverythingFinishes(f: Floor, requests: seq<Request>, s: System) returns (schedule: seq<nat>)
    requires Consistent(f, requests, s)
    ensures var t := Interleave(s, requests, schedule);
      Consistent(f, requests, t) && forall i :: 0 <= i < |requests| ==> t.sessions[i].Finished?
    decreases Work(s.sessions, |s.floor.rooms|)
  {
    if i :| 0 <= i < |requests| && !s.sessions[i].Finished? {
      var j := NeverStuck(f, requests, s, i);
      StepWorks(s, requests, j);
      StepKeeps(f, requests, s, j);
      var rest := EverythingFinishes(f, requests, Step(s, requests, j));
      schedule := [j] + rest;
      FirstThenRest(s, requests, j, rest);
    } else {
      schedule := [];
    }
  }

  lemma {:induction false} FirstThenRest(s: System, requests: seq<Request>, i: nat, rest: seq<nat>)
    requires i < |s.sessions| == |requests|
    ensures Interleave(s, requests, [i] + rest) == Interleave(Step(s, requests, i), requests, rest)
    decreases |rest|
  {
    if rest == [] {
      assert [i] + rest == [i] && [i][..0] == [];
    } else {
      var front, last, all := rest[..|rest| - 1], rest[|rest| - 1], [i] + rest;
      assert all[..|all| - 1] == [i] + front && all[|all| - 1] == last;
      FirstThenRest(s, requests, i, front);
    }
  }
}
