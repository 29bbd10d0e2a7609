/**
 Arbitrarily many transactions interleaved at the grain of one row lock and read, one decision, one
 row write, one commit.  A transaction makes any number of repository calls one after the other, as
 the lines of a reservation do; each call locks its rows in date order before it decides anything.
 Uncommitted writes are private, and all locks go at the end.
 */
module WindowLocks {
  import opened Outcomes
  import opened Slots

  /** One call of the slot repository. */
  datatype Call = Call(window: Window, change: Change)

  type Transaction = seq<Call>

  datatype Phase =
    | Locking(next: int)  // the night of the current call to lock next
    | Writing(next: int)  // the night of the current call to write next
    | Finished(committed: bool)

  /** Calls completed, and the rows locked so far as this transaction sees them. */
  datatype Session = Session(calls: nat, phase: Phase, mine: SlotTable)

  datatype End = End(who: nat, committed: bool)

  datatype System = System(
    rows: SlotTable,          // committed rows
    owner: map<SlotKey, nat>, // row locks
    sessions: seq<Session>,
    ends: seq<End>)           // who finished, in that order, and how

  /** About to make the next call, or to commit. */
  function Enter(t: Transaction, calls: nat, mine: SlotTable): Session {
    Session(calls, Locking(if calls < |t| then t[calls].window.start else 0), mine)
  }

  function Start(rows: SlotTable, txns: seq<Transaction>): System {
    System(rows, map[], seq(|txns|, i requires 0 <= i < |txns| => Enter(txns[i], 0, map[])), [])
  }

  /** The row a session wants to lock next, if it exists and is not already locked by it. */
  function Wanted(s: System, txns: seq<Transaction>, i: nat): Option<SlotKey>
    requires i < |s.sessions| == |txns|
  {
    var me, t := s.sessions[i], txns[i];
    if me.phase.Locking? && me.calls < |t| && me.phase.next < t[me.calls].window.end then
      var k := SlotKey(t[me.calls].window.cell, me.phase.next);
      if k in s.rows && k !in me.mine then Some(k) else None
    else None
  }

  /** Not finished, and not waiting for a lock somebody holds. */
  predicate Enabled(s: System, txns: seq<Transaction>, i: nat)
    requires i < |s.sessions| == |txns|
  {
    !s.sessions[i].phase.Finished? && (Wanted(s, txns, i).Some? ==> Wanted(s, txns, i).value !in s.owner)
  }

  /** End of a transaction: its writes become visible or are dropped, and its locks are released. */
  function Close(s: System, i: nat, committed: bool): System
    requires i < |s.sessions|
  {
    System(if committed then s.rows + s.sessions[i].mine else s.rows,
           map k | k in s.owner && s.owner[k] != i :: s.owner[k],
           s.sessions[i := Session(s.sessions[i].calls, Finished(committed), map[])],
           s.ends + [End(i, committed)])
  }

  function SetSession(s: System, i: nat, me: Session): System
    requires i < |s.sessions|
  {
    s.(sessions := s.sessions[i := me])
  }

  /** The decision of a call under all its locks. */
  ghost predicate Passes(rows: SlotTable, call: Call) {
    (call.change.NeedsEveryNight() ==> Open(rows, call.window)) && AllAllowed(rows, call.window, call.change)
  }

  /** One step of one call. */
  ghost function StepCall(s: System, i: nat, call: Call): System
    requires i < |s.sessions|
  {
    var me, w := s.sessions[i], call.window;
    match me.phase
    case Finished(_) => s
    case Locking(n) =>
      var k := SlotKey(w.cell, n);
      if n >= w.end then
        if Passes(me.mine, call) then SetSession(s, i, me.(phase := Writing(w.start))) else Close(s, i, false)
      else if k !in s.rows || k in me.mine then SetSession(s, i, me.(phase := Locking(n + 1)))
      else
        SetSession(s.(owner := s.owner[k := i]), i, Session(me.calls, Locking(n + 1), me.mine[k := s.rows[k]]))
    case Writing(n) =>
      var k := SlotKey(w.cell, n);
      if k !in me.mine then SetSession(s, i, me.(phase := Writing(n + 1)))
      else if call.change.On(me.mine[k]).Good() then
        SetSession(s, i, Session(me.calls, Writing(n + 1), me.mine[k := call.change.On(me.mine[k])]))
      else Close(s, i, false)
  }

  /** One step of one transaction; a blocked or finished one does nothing. */
  ghost function Step(s: System, txns: seq<Transaction>, i: nat): System
    requires i < |s.sessions| == |txns|
  {
    var me, t := s.sessions[i], txns[i];
    if !Enabled(s, txns, i) then s
    else if me.calls >= |t| then Close(s, i, true)
    else if me.phase.Writing? && me.phase.next >= t[me.calls].window.end then
      SetSession(s, i, Enter(t, me.calls + 1, me.mine))
    else StepCall(s, i, t[me.calls])
  }

  /** Any interleaving: a sequence saying whose turn it is. */
  ghost function Interleave(s: System, txns: seq<Transaction>, schedule: seq<nat>): System
    requires |s.sessions| == |txns|
    ensures |Interleave(s, txns, schedule).sessions| == |txns|
    decreases |schedule|
  {
    if schedule == [] then s
    else
      var t := Interleave(s, txns, schedule[..|schedule| - 1]);
      var i := schedule[|schedule| - 1];
      if i < |txns| then Step(t, txns, i) else t
  }

  // ---------------------------------------------------------------- the reference: one after the other

  /** A transaction run whole: every call, or nothing. */
  ghost function ApplyAll(rows: SlotTable, calls: seq<Call>): Result<SlotTable> {
    if calls == [] then Ok(rows)
    else
      var before :- ApplyAll(rows, calls[..|calls| - 1]);
      Apply(before, calls[|calls| - 1].window, calls[|calls| - 1].change)
  }

  /** The rows after the given transactions ran whole, in that order. */
  ghost function Serial(rows: SlotTable, txns: seq<Transaction>, ends: seq<End>): SlotTable {
    if ends == [] then rows
    else
      var before := Serial(rows, txns, ends[..|ends| - 1]);
      var i := ends[|ends| - 1].who;
      if i < |txns| && ApplyAll(before, txns[i]).Ok? then ApplyAll(before, txns[i]).value else before
  }

  /** Each transaction ended as it does when run whole after its predecessors. */
  ghost predicate SameOutcomes(rows: SlotTable, txns: seq<Transaction>, ends: seq<End>) {
    forall p :: 0 <= p < |ends| ==> SameOutcome(Serial(rows, txns, ends[..p]), txns, ends[p])
  }

  ghost predicate SameOutcome(before: SlotTable, txns: seq<Transaction>, end: End) {
    end.who < |txns| && (end.committed <==> ApplyAll(before, txns[end.who]).Ok?)
  }

  // ---------------------------------------------------------------- what calls depend on

  ghost predicate Touches(calls: seq<Call>, k: SlotKey) {
    exists q :: 0 <= q < |calls| && calls[q].window.Covers(k)
  }

  lemma TouchesLast(calls: seq<Call>, k: SlotKey)
    requires calls != []
    ensures Touches(calls, k) <==> Touches(calls[..|calls| - 1], k) || calls[|calls| - 1].window.Covers(k)
  {
    var front := calls[..|calls| - 1];
    if Touches(calls, k) {
      var q :| 0 <= q < |calls| && calls[q].window.Covers(k);
      if q < |calls| - 1 { assert front[q].window.Covers(k); }
    }
    if Touches(front, k) {
      var q :| 0 <= q < |front| && front[q].window.Covers(k);
      assert calls[q].window.Covers(k);
    }
  }

  /** One call looks at the rows of its window, and changes no other. */
  lemma ApplyLocal(a: SlotTable, b: SlotTable, call: Call)
    requires a.Keys == b.Keys && forall k :: k in a && call.window.Covers(k) ==> a[k] == b[k]
    ensures Apply(a, call.window, call.change).Ok? <==> Apply(b, call.window, call.change).Ok?
    ensures var r, q := Apply(a, call.window, call.change), Apply(b, call.window, call.change);
      r.Ok? ==> r.value.Keys == q.value.Keys == a.Keys && forall k :: k in a ==>
        if call.window.Covers(k) then r.value[k] == q.value[k] else r.value[k] == a[k] && q.value[k] == b[k]
  {
    var w, c := call.window, call.change;
    assert Open(a, w) <==> Open(b, w);
    assert AllAllowed(a, w, c) <==> AllAllowed(b, w, c);
    assert GoodWithin(Changed(a, w, c), w) <==> GoodWithin(Changed(b, w, c), w) by {
      assert forall k :: k in a && w.Covers(k) ==> Changed(a, w, c)[k] == Changed(b, w, c)[k];
    }
  }

  /** The results of a transaction on two tables, row by row. */
  ghost predicate Alike(calls: seq<Call>, a: SlotTable, b: SlotTable, r: SlotTable, q: SlotTable) {
    r.Keys == q.Keys == a.Keys == b.Keys &&
    forall k :: k in a ==> if Touches(calls, k) then r[k] == q[k] else r[k] == a[k] && q[k] == b[k]
  }

  /** A transaction looks at the rows it touches, and changes no other. */
  lemma {:induction false} ApplyAllLocal(a: SlotTable, b: SlotTable, calls: seq<Call>)
    requires a.Keys == b.Keys && forall k :: k in a && Touches(calls, k) ==> a[k] == b[k]
    ensures ApplyAll(a, calls).Ok? <==> ApplyAll(b, calls).Ok?
    ensures ApplyAll(a, calls).Ok? ==> Alike(calls, a, b, ApplyAll(a, calls).value, ApplyAll(b, calls).value)
    decreases |calls|
  {
    if calls != [] {
      var front, last := calls[..|calls| - 1], calls[|calls| - 1];
      forall k ensures Touches(calls, k) <==> Touches(front, k) || last.window.Covers(k) { TouchesLast(calls, k); }
      ApplyAllLocal(a, b, front);
      if ApplyAll(a, front).Ok? { ApplyLocal(ApplyAll(a, front).value, ApplyAll(b, front).value, last); }
    }
  }

  /** What is left alone, and what stays good. */
  lemma {:induction false} ApplyAllKeeps(rows: SlotTable, calls: seq<Call>)
    requires AllGood(rows) && ApplyAll(rows, calls).Ok?
    ensures var r := ApplyAll(rows, calls).value;
      AllGood(r) && r.Keys == rows.Keys && forall k :: k in rows && !Touches(calls, k) ==> r[k] == rows[k]
    decreases |calls|
  {
    ApplyAllLocal(rows, rows, calls);
    if calls != [] {
      var front, last := calls[..|calls| - 1], calls[|calls| - 1];
      ApplyAllKeeps(rows, front);
      ApplyKeepsGood(ApplyAll(rows, front).value, last.window, last.change);
    }
  }

  /** A transaction fails as soon as one of its calls does. */
  lemma {:induction false} FailsEarly(rows: SlotTable, t: Transaction, n: nat)
    requires n <= |t| && ApplyAll(rows, t[..n]).Err?
    ensures ApplyAll(rows, t).Err?
    decreases |t| - n
  {
    if n == |t| {
      assert t[..n] == t;
    } else {
      assert t[..n + 1][..n] == t[..n];
      FailsEarly(rows, t, n + 1);
    }
  }

  // ---------------------------------------------------------------- invariant

  /** How far a session has locked the window of its current call. */
  function Reach(me: Session, call: Call): Window {
    if me.phase.Locking? then call.window.Until(me.phase.next) else call.window
  }

  /** The rows as the current call finds or leaves them. */
  ghost function Now(view: SlotTable, me: Session, call: Call): SlotTable {
    if me.phase.Writing? then Changed(view, call.window.Until(me.phase.next), call.change) else view
  }

  /** A session in its current call, given the rows as its earlier calls leave them. */
  ghost predicate InCall(rows: SlotTable, view: SlotTable, me: Session, earlier: seq<Call>, call: Call) {
    && !me.phase.Finished?
    && me.phase.next >= call.window.start
    && (me.phase.next <= call.window.end || me.phase.next == call.window.start)
    && (forall k :: k in me.mine <==> k in rows && (Touches(earlier, k) || Reach(me, call).Covers(k)))
    && (forall k :: k in me.mine ==> k in Now(view, me, call) && me.mine[k] == Now(view, me, call)[k])
    && (me.phase.Writing? ==> Passes(view, call) && forall k :: k in me.mine ==> me.mine[k].Good())
  }

  ghost predicate SessionOk(rows: SlotTable, t: Transaction, me: Session) {
    if me.phase.Finished? then me.mine == map[]
    else
      && me.calls <= |t| && ApplyAll(rows, t[..me.calls]).Ok?
      && var view := ApplyAll(rows, t[..me.calls]).value;
         if me.calls < |t| then InCall(rows, view, me, t[..me.calls], t[me.calls])
         else
           && me.phase.Locking?
           && (forall k :: k in me.mine <==> k in rows && Touches(t, k))
           && (forall k :: k in me.mine ==> k in view && me.mine[k] == view[k])
  }

  /** A row is owned by exactly the session that has it. */
  ghost predicate LocksOk(s: System) {
    && (forall k :: k in s.owner ==> s.owner[k] < |s.sessions| && k in s.sessions[s.owner[k]].mine)
    && (forall i, k :: 0 <= i < |s.sessions| && k in s.sessions[i].mine ==> k in s.owner && s.owner[k] == i)
  }

  /** The locking half of the invariant. */
  ghost predicate Orderly(keys: set<SlotKey>, txns: seq<Transaction>, s: System) {
    && |s.sessions| == |txns| && AllGood(s.rows) && s.rows.Keys == keys
    && LocksOk(s) && AllSessionsOk(s.rows, txns, s.sessions)
  }

  ghost predicate AllSessionsOk(rows: SlotTable, txns: seq<Transaction>, sessions: seq<Session>)
    requires |sessions| == |txns|
  {
    forall i :: 0 <= i < |txns| ==> SessionOk(rows, txns[i], sessions[i])
  }

  /** The serialisation half: the committed rows are those of the serial run so far. */
  ghost predicate Serialised(rows: SlotTable, txns: seq<Transaction>, s: System) {
    s.rows == Serial(rows, txns, s.ends) && SameOutcomes(rows, txns, s.ends)
  }

  ghost predicate Consistent(rows: SlotTable, txns: seq<Transaction>, s: System) {
    Orderly(rows.Keys, txns, s) && Serialised(rows, txns, s)
  }

  // ---------------------------------------------------------------- the end of a transaction

  lemma CloseKeepsSerial(rows: SlotTable, txns: seq<Transaction>, s: System, i: nat, committed: bool)
    requires Serialised(rows, txns, s) && i < |txns| && i < |s.sessions|
    requires committed <==> ApplyAll(s.rows, txns[i]).Ok?
    requires committed ==> s.rows + s.sessions[i].mine == ApplyAll(s.rows, txns[i]).value
    ensures Serialised(rows, txns, Close(s, i, committed))
  {
    assert SameOutcome(s.rows, txns, End(i, committed));
    OneMoreOutcome(rows, txns, s.ends, End(i, committed));
  }

  lemma OneMoreOutcome(rows: SlotTable, txns: seq<Transaction>, ends: seq<End>, end: End)
    requires SameOutcomes(rows, txns, ends) && SameOutcome(Serial(rows, txns, ends), txns, end)
    ensures SameOutcomes(rows, txns, ends + [end]) && (ends + [end])[..|ends|] == ends
  {
    var all := ends + [end];
    assert all[..|ends|] == ends;
    forall p | 0 <= p < |all| ensures SameOutcome(Serial(rows, txns, all[..p]), txns, all[p]) {
      if p < |ends| {
        assert all[..p] == ends[..p];
        assert SameOutcome(Serial(rows, txns, ends[..p]), txns, ends[p]);
      }
    }
  }

  /** A session sees nothing of changes to rows it has not locked. */
  lemma ElsewhereKeeps(a: SlotTable, b: SlotTable, t: Transaction, me: Session)
    requires SessionOk(a, t, me) && a.Keys == b.Keys && forall k :: k in me.mine ==> a[k] == b[k]
    requires AllGood(a) && AllGood(b)
    ensures SessionOk(b, t, me)
  {
    if !me.phase.Finished? {
      var earlier := t[..me.calls];
      if me.calls == |t| { assert earlier == t; }
      ApplyAllLocal(a, b, earlier);
      var u, v := ApplyAll(a, earlier).value, ApplyAll(b, earlier).value;
      forall k | k in me.mine ensures u[k] == v[k] { }
      if me.calls < |t| { InCallElsewhere(a, b, u, v, me, earlier, t[me.calls]); }
    }
  }

  lemma InCallElsewhere(a: SlotTable, b: SlotTable, u: SlotTable, v: SlotTable, me: Session, earlier: seq<Call>, call: Call)
    requires InCall(a, u, me, earlier, call) && a.Keys == b.Keys == u.Keys == v.Keys
    requires forall k :: k in me.mine ==> u[k] == v[k]
    ensures InCall(b, v, me, earlier, call)
  {
    if me.phase.Writing? {
      assert forall k :: k in u && call.window.Covers(k) ==> k in me.mine;
      assert Open(u, call.window) <==> Open(v, call.window);
    }
  }

  /** Releasing one session's locks disturbs nobody else. */
  lemma CloseKeepsSessions(keys: set<SlotKey>, txns: seq<Transaction>, s: System, i: nat, committed: bool)
    requires Orderly(keys, txns, s) && i < |txns| && !s.sessions[i].phase.Finished?
    requires committed ==> AllGood(s.rows + s.sessions[i].mine)
    ensures Orderly(keys, txns, Close(s, i, committed))
  {
    var t := Close(s, i, committed);
    MineAreRows(s.rows, txns[i], s.sessions[i]);
    assert t.rows.Keys == s.rows.Keys;
    LocksReleased(s, i, committed);
    forall j | 0 <= j < |txns| ensures SessionOk(t.rows, txns[j], t.sessions[j]) {
      if j != i { CloseKeepsOther(keys, txns, s, i, committed, j); }
    }
  }

  lemma LocksReleased(s: System, i: nat, committed: bool)
    requires LocksOk(s) && i < |s.sessions|
    ensures LocksOk(Close(s, i, committed))
  {
  }

  lemma MineAreRows(rows: SlotTable, t: Transaction, me: Session)
    requires SessionOk(rows, t, me)
    ensures forall k :: k in me.mine ==> k in rows
  {
  }

  /** The rows another session has locked are not among those written. */
  lemma CloseKeepsOther(keys: set<SlotKey>, txns: seq<Transaction>, s: System, i: nat, committed: bool, j: nat)
    requires Orderly(keys, txns, s) && i < |txns| && j < |txns| && i != j
    requires AllGood(Close(s, i, committed).rows) && Close(s, i, committed).rows.Keys == s.rows.Keys
    ensures SessionOk(Close(s, i, committed).rows, txns[j], s.sessions[j])
  {
    var t := Close(s, i, committed);
    assert SessionOk(s.rows, txns[j], s.sessions[j]);
    MineAreRows(s.rows, txns[j], s.sessions[j]);
    forall k | k in s.sessions[j].mine ensures t.rows[k] == s.rows[k] {
      assert s.owner[k] == j && k !in s.sessions[i].mine;
    }
    ElsewhereKeeps(s.rows, t.rows, txns[j], s.sessions[j]);
  }

  lemma AbortKeeps(rows: SlotTable, txns: seq<Transaction>, s: System, i: nat)
    requires Consistent(rows, txns, s) && i < |txns| && !s.sessions[i].phase.Finished?
    requires ApplyAll(s.rows, txns[i]).Err?
    ensures Consistent(rows, txns, Close(s, i, false))
  {
    CloseKeepsSerial(rows, txns, s, i, false);
    CloseKeepsSessions(rows.Keys, txns, s, i, false);
  }

  /** A session that has made all its calls has what the whole transaction makes of the committed rows. */
  lemma CommitIsApplyAll(rows: SlotTable, t: Transaction, me: Session)
    requires AllGood(rows) && SessionOk(rows, t, me) && !me.phase.Finished? && me.calls == |t|
    ensures ApplyAll(rows, t) == Ok(rows + me.mine) && AllGood(rows + me.mine)
  {
    assert t[..|t|] == t;
    ApplyAllKeeps(rows, t);
    assert rows + me.mine == ApplyAll(rows, t).value;
  }

  lemma CommitKeeps(rows: SlotTable, txns: seq<Transaction>, s: System, i: nat)
    requires Consistent(rows, txns, s) && i < |txns| && !s.sessions[i].phase.Finished?
    requires s.sessions[i].calls == |txns[i]|
    ensures Consistent(rows, txns, Close(s, i, true))
  {
    CommitIsApplyAll(s.rows, txns[i], s.sessions[i]);
    CloseKeepsSerial(rows, txns, s, i, true);
    CloseKeepsSessions(rows.Keys, txns, s, i, true);
  }

  // ---------------------------------------------------------------- the steps of a call

  /** All sessions are still in order when one of them has moved on and the committed rows are the same. */
  lemma OneSessionMoved(rows: SlotTable, txns: seq<Transaction>, before: seq<Session>, i: nat, me: Session)
    requires |before| == |txns| && i < |txns| && AllSessionsOk(rows, txns, before) && SessionOk(rows, txns[i], me)
    ensures AllSessionsOk(rows, txns, before[i := me])
  {
    var after := before[i := me];
    forall j | 0 <= j < |txns| ensures SessionOk(rows, txns[j], after[j]) {
      if j != i { assert after[j] == before[j]; }
    }
  }

  lemma SameRowsMine(s: System, i: nat, me: Session)
    requires LocksOk(s) && i < |s.sessions| && me.mine.Keys == s.sessions[i].mine.Keys
    ensures LocksOk(SetSession(s, i, me))
  {
  }

  /** A step that only concerns the session's own record. */
  lemma OwnStepKeeps(keys: set<SlotKey>, txns: seq<Transaction>, s: System, i: nat, me: Session)
    requires Orderly(keys, txns, s) && i < |txns| && me.mine.Keys == s.sessions[i].mine.Keys
    requires SessionOk(s.rows, txns[i], me)
    ensures Orderly(keys, txns, SetSession(s, i, me))
  {
    SameRowsMine(s, i, me);
    OneSessionMoved(s.rows, txns, s.sessions, i, me);
  }

  lemma UntilNext(w: Window, n: int)
    requires w.start <= n
    ensures forall x :: w.Until(n + 1).Covers(x) <==> w.Until(n).Covers(x) || x == SlotKey(w.cell, n)
  {
    forall x ensures w.Until(n + 1).Covers(x) <==> w.Until(n).Covers(x) || x == SlotKey(w.cell, n) {
      assert x == SlotKey(x.cell, x.night);
    }
  }

  /** One more night of the window reached: its row, if there is one, is locked and read. */
  lemma LockedOneMore(rows: SlotTable, view: SlotTable, me: Session, earlier: seq<Call>, call: Call)
    requires InCall(rows, view, me, earlier, call) && view.Keys == rows.Keys
    requires forall k :: k in rows && !Touches(earlier, k) ==> view[k] == rows[k]
    requires me.phase.Locking? && me.phase.next < call.window.end
    ensures var k := SlotKey(call.window.cell, me.phase.next);
      InCall(rows, view, Locked(rows, me, k), earlier, call)
  {
    UntilNext(call.window, me.phase.next);
  }

  /** A free row goes to the session that asks for it. */
  lemma LockTaken(s: System, i: nat, k: SlotKey, me: Session)
    requires LocksOk(s) && i < |s.sessions| && k !in s.owner
    requires me.mine.Keys == s.sessions[i].mine.Keys + {k}
    ensures LocksOk(SetSession(s.(owner := s.owner[k := i]), i, me))
  {
  }

  /** The session after locking and reading the row, or passing over a night. */
  function Locked(rows: SlotTable, me: Session, k: SlotKey): Session
    requires me.phase.Locking?
  {
    Session(me.calls, Locking(me.phase.next + 1),
            if k !in rows || k in me.mine then me.mine else me.mine[k := rows[k]])
  }

  lemma LockedSession(rows: SlotTable, t: Transaction, me: Session)
    requires AllGood(rows) && SessionOk(rows, t, me) && me.phase.Locking? && me.calls < |t|
    requires me.phase.next < t[me.calls].window.end
    ensures SessionOk(rows, t, Locked(rows, me, SlotKey(t[me.calls].window.cell, me.phase.next)))
  {
    ApplyAllKeeps(rows, t[..me.calls]);
    LockedOneMore(rows, ApplyAll(rows, t[..me.calls]).value, me, t[..me.calls], t[me.calls]);
  }

  lemma LockKeeps(keys: set<SlotKey>, txns: seq<Transaction>, s: System, i: nat)
    requires Orderly(keys, txns, s) && i < |txns| && Enabled(s, txns, i) && s.sessions[i].phase.Locking?
    requires s.sessions[i].calls < |txns[i]|
    requires s.sessions[i].phase.next < txns[i][s.sessions[i].calls].window.end
    ensures Orderly(keys, txns, Step(s, txns, i))
  {
    var me, t := s.sessions[i], txns[i];
    var k := SlotKey(t[me.calls].window.cell, me.phase.next);
    var next := Locked(s.rows, me, k);
    LockedSession(s.rows, t, me);
    if k !in s.rows || k in me.mine {
      assert Step(s, txns, i) == SetSession(s, i, next);
      OwnStepKeeps(keys, txns, s, i, next);
    } else {
      assert Step(s, txns, i) == SetSession(s.(owner := s.owner[k := i]), i, next);
      LockTaken(s, i, k, next);
      OneSessionMoved(s.rows, txns, s.sessions, i, next);
    }
  }

  /** With its whole window locked, a call decides as it would on the rows its predecessors leave. */
  lemma DecisionIsCurrent(rows: SlotTable, view: SlotTable, me: Session, earlier: seq<Call>, call: Call)
    requires InCall(rows, view, me, earlier, call) && view.Keys == rows.Keys
    requires me.phase.Locking? && me.phase.next >= call.window.end
    ensures Passes(me.mine, call) <==> Passes(view, call)
  {
    var w := call.window;
    forall k | k in rows && w.Covers(k) ensures k in me.mine && me.mine[k] == view[k] { }
    forall n | w.start <= n < w.end ensures SlotKey(w.cell, n) in me.mine <==> SlotKey(w.cell, n) in view {
      assert w.Covers(SlotKey(w.cell, n));
    }
  }

  /** Either the call goes on to write, or the whole transaction must fail. */
  lemma DecidedSession(rows: SlotTable, t: Transaction, me: Session)
    requires AllGood(rows) && SessionOk(rows, t, me) && me.phase.Locking? && me.calls < |t|
    requires me.phase.next >= t[me.calls].window.end
    ensures if Passes(me.mine, t[me.calls]) then SessionOk(rows, t, me.(phase := Writing(t[me.calls].window.start)))
            else ApplyAll(rows, t).Err?
  {
    var call, earlier := t[me.calls], t[..me.calls];
    ApplyAllKeeps(rows, earlier);
    var view := ApplyAll(rows, earlier).value;
    DecisionIsCurrent(rows, view, me, earlier, call);
    if Passes(me.mine, call) {
      assert Changed(view, call.window.Until(call.window.start), call.change) == view;
    } else {
      CallFails(rows, t, me.calls);
    }
  }

  lemma DecideKeeps(rows: SlotTable, txns: seq<Transaction>, s: System, i: nat)
    requires Consistent(rows, txns, s) && i < |txns| && s.sessions[i].phase.Locking?
    requires s.sessions[i].calls < |txns[i]|
    requires s.sessions[i].phase.next >= txns[i][s.sessions[i].calls].window.end
    ensures Consistent(rows, txns, Step(s, txns, i))
  {
    var me, call := s.sessions[i], txns[i][s.sessions[i].calls];
    DecidedSession(s.rows, txns[i], me);
    if Passes(me.mine, call) {
      OwnStepKeeps(rows.Keys, txns, s, i, me.(phase := Writing(call.window.start)));
    } else {
      AbortKeeps(rows, txns, s, i);
    }
  }

  lemma CallFails(rows: SlotTable, t: Transaction, n: nat)
    requires n < |t| && ApplyAll(rows, t[..n]).Ok?
    requires Apply(ApplyAll(rows, t[..n]).value, t[n].window, t[n].change).Err?
    ensures ApplyAll(rows, t).Err?
  {
    assert t[..n + 1][..n] == t[..n];
    FailsEarly(rows, t, n + 1);
  }

  /** One row written, or a night without a row passed over. */
  lemma WriteRowKeeps(rows: SlotTable, view: SlotTable, me: Session, earlier: seq<Call>, call: Call)
    requires InCall(rows, view, me, earlier, call) && view.Keys == rows.Keys && AllGood(view)
    requires me.phase.Writing? && me.phase.next < call.window.end
    ensures var k := SlotKey(call.window.cell, me.phase.next);
      && (k in me.mine ==> me.mine[k] == view[k])
      && ((k in me.mine ==> call.change.On(me.mine[k]).Good()) ==>
            InCall(rows, view, Wrote(me, call, k), earlier, call))
  {
    UntilNext(call.window, me.phase.next);
    var k := SlotKey(call.window.cell, me.phase.next);
    assert call.window.Covers(k);
  }

  /** The session after writing the row, or passing over a night. */
  function Wrote(me: Session, call: Call, k: SlotKey): Session
    requires me.phase.Writing?
  {
    Session(me.calls, Writing(me.phase.next + 1),
            if k in me.mine then me.mine[k := call.change.On(me.mine[k])] else me.mine)
  }

  /** Either the row may be written, or the whole transaction must fail. */
  lemma WroteSession(rows: SlotTable, t: Transaction, me: Session)
    requires AllGood(rows) && SessionOk(rows, t, me) && me.phase.Writing? && me.calls < |t|
    requires me.phase.next < t[me.calls].window.end
    ensures var call := t[me.calls];
      var k := SlotKey(call.window.cell, me.phase.next);
      if k in me.mine && !call.change.On(me.mine[k]).Good() then ApplyAll(rows, t).Err?
      else SessionOk(rows, t, Wrote(me, call, k))
  {
    var call, earlier := t[me.calls], t[..me.calls];
    ApplyAllKeeps(rows, earlier);
    var view := ApplyAll(rows, earlier).value;
    WriteRowKeeps(rows, view, me, earlier, call);
    var k := SlotKey(call.window.cell, me.phase.next);
    if k in me.mine && !call.change.On(me.mine[k]).Good() {
      BadRowFails(view, call, k);
      CallFails(rows, t, me.calls);
    }
  }

  lemma WritingStep(s: System, txns: seq<Transaction>, i: nat, call: Call)
    requires i < |s.sessions| == |txns| && s.sessions[i].phase.Writing?
    requires s.sessions[i].calls < |txns[i]| && txns[i][s.sessions[i].calls] == call
    requires s.sessions[i].phase.next < call.window.end
    ensures var me, k := s.sessions[i], SlotKey(call.window.cell, s.sessions[i].phase.next);
      Step(s, txns, i) ==
        if k in me.mine && !call.change.On(me.mine[k]).Good() then Close(s, i, false) else SetSession(s, i, Wrote(me, call, k))
  {
  }

  lemma WriteKeeps(rows: SlotTable, txns: seq<Transaction>, s: System, i: nat)
    requires Consistent(rows, txns, s) && i < |txns| && s.sessions[i].phase.Writing?
    requires s.sessions[i].calls < |txns[i]|
    requires s.sessions[i].phase.next < txns[i][s.sessions[i].calls].window.end
    ensures Consistent(rows, txns, Step(s, txns, i))
  {
    var me, call := s.sessions[i], txns[i][s.sessions[i].calls];
    var k := SlotKey(call.window.cell, me.phase.next);
    WritingStep(s, txns, i, call);
    WroteSession(s.rows, txns[i], me);
    if k in me.mine && !call.change.On(me.mine[k]).Good() {
      AbortKeeps(rows, txns, s, i);
    } else {
      OwnStepKeeps(rows.Keys, txns, s, i, Wrote(me, call, k));
    }
  }

  lemma BadRowFails(view: SlotTable, call: Call, k: SlotKey)
    requires k in view && call.window.Covers(k) && !call.change.On(view[k]).Good()
    ensures Apply(view, call.window, call.change).Err?
  {
    assert Changed(view, call.window, call.change)[k] == call.change.On(view[k]);
  }

  /** A call that has written all its rows has done what `Apply` does, and the next one begins. */
  lemma EnterKeeps(keys: set<SlotKey>, txns: seq<Transaction>, s: System, i: nat)
    requires Orderly(keys, txns, s) && i < |txns| && s.sessions[i].phase.Writing?
    requires s.sessions[i].calls < |txns[i]|
    requires s.sessions[i].phase.next >= txns[i][s.sessions[i].calls].window.end
    ensures Orderly(keys, txns, Step(s, txns, i))
  {
    var me, t := s.sessions[i], txns[i];
    assert SessionOk(s.rows, t, me);
    CallDone(s.rows, t, me);
    OwnStepKeeps(keys, txns, s, i, Enter(t, me.calls + 1, me.mine));
  }

  lemma OneMoreCall(rows: SlotTable, t: Transaction, n: nat)
    requires n < |t| && ApplyAll(rows, t[..n]).Ok?
    ensures t[..n + 1] == t[..n] + [t[n]]
    ensures ApplyAll(rows, t[..n + 1]) == Apply(ApplyAll(rows, t[..n]).value, t[n].window, t[n].change)
  {
    assert t[..n + 1][..n] == t[..n];
  }

  lemma CallDone(rows: SlotTable, t: Transaction, me: Session)
    requires AllGood(rows) && SessionOk(rows, t, me) && me.phase.Writing? && me.calls < |t|
    requires me.phase.next >= t[me.calls].window.end
    ensures SessionOk(rows, t, Enter(t, me.calls + 1, me.mine))
  {
    var n, call := me.calls, t[me.calls];
    var view := ApplyAll(rows, t[..n]).value;
    ApplyAllKeeps(rows, t[..n]);
    CallApplied(rows, view, me, t[..n], call);
    OneMoreCall(rows, t, n);
    MineAfter(rows, me, t[..n], call, t[..n + 1]);
    var after := Apply(view, call.window, call.change).value;
    EnteredSession(rows, t, n + 1, me.mine, after);
  }

  lemma EnteredSession(rows: SlotTable, t: Transaction, n: nat, mine: SlotTable, view: SlotTable)
    requires n <= |t| && ApplyAll(rows, t[..n]) == Ok(view)
    requires forall k :: k in mine <==> k in rows && Touches(t[..n], k)
    requires forall k :: k in mine ==> k in view && mine[k] == view[k]
    ensures SessionOk(rows, t, Enter(t, n, mine))
  {
    if n < |t| {
      NothingReached(rows, view, Enter(t, n, mine), t[..n], t[n]);
    } else {
      assert t[..n] == t;
    }
  }

  /** With its window written, a call's rows are just the rows touched so far. */
  lemma MineAfter(rows: SlotTable, me: Session, earlier: seq<Call>, call: Call, done: seq<Call>)
    requires forall k :: k in me.mine <==> k in rows && (Touches(earlier, k) || call.window.Covers(k))
    requires done == earlier + [call]
    ensures forall k :: k in me.mine <==> k in rows && Touches(done, k)
  {
    assert done[..|done| - 1] == earlier;
    forall k ensures Touches(done, k) <==> Touches(earlier, k) || call.window.Covers(k) { TouchesLast(done, k); }
  }

  /** At the start of a call none of its own window has been reached. */
  lemma NothingReached(rows: SlotTable, view: SlotTable, me: Session, earlier: seq<Call>, call: Call)
    requires me.phase == Locking(call.window.start)
    requires forall k :: k in me.mine <==> k in rows && Touches(earlier, k)
    requires forall k :: k in me.mine ==> k in view && me.mine[k] == view[k]
    ensures InCall(rows, view, me, earlier, call)
  {
  }

  lemma CallApplied(rows: SlotTable, view: SlotTable, me: Session, earlier: seq<Call>, call: Call)
    requires InCall(rows, view, me, earlier, call) && view.Keys == rows.Keys
    requires me.phase.Writing? && me.phase.next >= call.window.end
    ensures Apply(view, call.window, call.change).Ok?
    ensures forall k :: k in me.mine ==>
      k in view && me.mine[k] == Apply(view, call.window, call.change).value[k]
  {
    assert forall k :: call.window.Until(me.phase.next).Covers(k) <==> call.window.Covers(k);
    assert Changed(view, call.window.Until(me.phase.next), call.change) == Changed(view, call.window, call.change);
    assert GoodWithin(Changed(view, call.window, call.change), call.window);
  }

  lemma StepKeeps(rows: SlotTable, txns: seq<Transaction>, s: System, i: nat)
    requires Consistent(rows, txns, s) && i < |txns|
    ensures Consistent(rows, txns, Step(s, txns, i))
  {
    var me, t := s.sessions[i], txns[i];
    assert SessionOk(s.rows, t, me);
    if Enabled(s, txns, i) {
      if me.calls >= |t| {
        CommitKeeps(rows, txns, s, i);
      } else if me.phase.next >= t[me.calls].window.end {
        if me.phase.Locking? { DecideKeeps(rows, txns, s, i); } else { EnterKeeps(rows.Keys, txns, s, i); }
      } else {
        if me.phase.Locking? { LockKeeps(rows.Keys, txns, s, i); } else { WriteKeeps(rows, txns, s, i); }
      }
    }
  }

  lemma {:induction false} InterleavingKeeps(rows: SlotTable, txns: seq<Transaction>, s: System, schedule: seq<nat>)
    requires Consistent(rows, txns, s)
    ensures Consistent(rows, txns, Interleave(s, txns, schedule))
    decreases |schedule|
  {
    if schedule != [] {
      var front, i := schedule[..|schedule| - 1], schedule[|schedule| - 1];
      InterleavingKeeps(rows, txns, s, front);
      if i < |txns| { StepKeeps(rows, txns, Interleave(s, txns, front), i); }
    }
  }

  lemma StartIsConsistent(rows: SlotTable, txns: seq<Transaction>)
    requires AllGood(rows)
    ensures Consistent(rows, txns, Start(rows, txns))
  {
    var s := Start(rows, txns);
    forall i | 0 <= i < |txns| ensures SessionOk(rows, txns[i], s.sessions[i]) {
      assert txns[i][..0] == [];
    }
  }

  // ---------------------------------------------------------------- the theorems

  /**
   Whatever the interleaving: the committed rows are those of running the finished transactions one
   after the other in the order they finished, each with the same outcome, and no row is oversold.
   */
  lemma InterleavingIsSerial(rows: SlotTable, txns: seq<Transaction>, schedule: seq<nat>)
    requires AllGood(rows)
    ensures var s := Interleave(Start(rows, txns), txns, schedule);
      && s.rows == Serial(rows, txns, s.ends)
      && SameOutcomes(rows, txns, s.ends)
      && AllGood(s.rows) && s.rows.Keys == rows.Keys
  {
    StartIsConsistent(rows, txns);
    InterleavingKeeps(rows, txns, Start(rows, txns), schedule);
  }
}
