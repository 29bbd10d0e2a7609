/**
 Projectors over the append-only event log: each reads a batch above its checkpoint in
 (occurred_at, id) order, then folds one event and moves the checkpoint in one transaction, until the
 batch ends, an event fails or the process dies.  Events arrive meanwhile.
 */
module EventLog {
  import opened Outcomes
  import opened KeyOrder

  predicate Above(log: Log, checkpoint: Option<Key>, id: nat)
    requires id < |log|
  {
    checkpoint.Some? ==> checkpoint.value.Less(KeyOf(log, id))
  }

  /** The ids below n above the checkpoint, by key. */
  function Pending(log: Log, checkpoint: Option<Key>, n: nat): (r: seq<nat>)
    requires n <= |log|
    ensures Within(log, r) && |r| <= n
    ensures forall i: nat :: i in r <==> i < n && Above(log, checkpoint, i)
  {
    if n == 0 then []
    else
      var before := Pending(log, checkpoint, n - 1);
      if Above(log, checkpoint, n - 1) then Insert(log, before, n - 1) else before
  }

  lemma {:induction false} PendingSorted(log: Log, checkpoint: Option<Key>, n: nat)
    requires n <= |log|
    ensures Sorted(log, Pending(log, checkpoint, n))
  {
    if n > 0 {
      PendingSorted(log, checkpoint, n - 1);
      if Above(log, checkpoint, n - 1) { InsertSorts(log, Pending(log, checkpoint, n - 1), n - 1); }
    }
  }

  function Batch(log: Log, checkpoint: Option<Key>, size: nat): seq<nat> {
    var all := Pending(log, checkpoint, |log|);
    if size < |all| then all[..size] else all
  }

  // ---------------------------------------------------------------- projectors

  /** One checkpoint row; each projector has its own rest of a batch in memory. */
  datatype System = System(log: Log, checkpoint: Option<Key>, folded: seq<nat>, batches: seq<seq<nat>>)

  datatype Action =
    | Append(at: int)
    | Start(who: nat, size: nat)
    | Fold(who: nat)   // one event and the checkpoint, in one transaction
    | Stop(who: nat)   // an event failed, or the process died: the rest of the batch is forgotten

  function Step(s: System, a: Action): System {
    match a
    case Append(at) => s.(log := s.log + [at])
    case Start(w, size) =>
      if w < |s.batches| then s.(batches := s.batches[w := Batch(s.log, s.checkpoint, size)]) else s
    case Fold(w) =>
      if w < |s.batches| && s.batches[w] != [] && s.batches[w][0] < |s.log| then
        var id := s.batches[w][0];
        System(s.log, Some(KeyOf(s.log, id)), s.folded + [id], s.batches[w := s.batches[w][1..]])
      else s
    case Stop(w) => if w < |s.batches| then s.(batches := s.batches[w := []]) else s
  }

  function Execute(s: System, run: seq<Action>): System {
    if run == [] then s else Step(Execute(s, run[..|run| - 1]), run[|run| - 1])
  }

  lemma {:induction false} ExecuteSplit(s: System, a: seq<Action>, b: seq<Action>)
    ensures Execute(s, a + b) == Execute(Execute(s, a), b)
    decreases |b|
  {
    if b == [] {
      assert a + b == a;
    } else {
      assert (a + b)[..|a + b| - 1] == a + b[..|b| - 1];
      ExecuteSplit(s, a, b[..|b| - 1]);
    }
  }

  function Begin(projectors: nat): System {
    System([], None, [], seq(projectors, i => []))
  }

  /** The events that arrive during a run. */
  function Arrivals(run: seq<Action>): Log {
    if run == [] then []
    else
      var front, last := Arrivals(run[..|run| - 1]), run[|run| - 1];
      if last.Append? then front + [last.at] else front
  }

  lemma {:induction false} ArrivalsSplit(a: seq<Action>, b: seq<Action>)
    ensures Arrivals(a + b) == Arrivals(a) + Arrivals(b)
    decreases |b|
  {
    if b == [] {
      assert a + b == a;
    } else {
      assert (a + b)[..|a + b| - 1] == a + b[..|b| - 1];
      ArrivalsSplit(a, b[..|b| - 1]);
    }
  }

  lemma {:induction false} LogIsArrivals(s: System, run: seq<Action>)
    ensures Execute(s, run).log == s.log + Arrivals(run)
    ensures |Execute(s, run).batches| == |s.batches|
    decreases |run|
  {
    if run != [] { LogIsArrivals(s, run[..|run| - 1]); }
  }

  predicate NoRepeats(folded: seq<nat>) {
    forall a, b :: 0 <= a < b < |folded| ==> folded[a] != folded[b]
  }

  // ---------------------------------------------------------------- one projector: at most once, in key order

  /** What it has folded ascends up to the checkpoint, and what it is about to fold ascends from there. */
  ghost predicate Single(s: System) {
    && |s.batches| == 1
    && Sorted(s.log, s.folded)
    && (s.folded == [] <==> s.checkpoint.None?)
    && (s.folded != [] ==> s.checkpoint == Some(KeyOf(s.log, s.folded[|s.folded| - 1])))
    && Sorted(s.log, s.batches[0])
    && (forall i :: i in s.batches[0] ==> Above(s.log, s.checkpoint, i))
  }

  /** What is left of a batch after its first event lies above that event. */
  lemma FoldKeepsSingle(s: System)
    requires Single(s)
    ensures Single(Step(s, Fold(0)))
  {
    if s.batches[0] != [] {
      var id, rest := s.batches[0][0], s.batches[0][1..];
      assert id in s.batches[0];
      forall i | i in s.folded ensures KeyOf(s.log, i).Less(KeyOf(s.log, id)) {
        var n :| 0 <= n < |s.folded| && s.folded[n] == i;
      }
      SortedTail(s.log, s.batches[0]);
    }
  }

  lemma SortedTail(log: Log, order: seq<nat>)
    requires order != [] && Sorted(log, order)
    ensures Sorted(log, order[1..]) && forall i :: i in order[1..] ==> i < |log| && KeyOf(log, order[0]).Less(KeyOf(log, i))
  {
    forall i | i in order[1..] ensures i < |log| && KeyOf(log, order[0]).Less(KeyOf(log, i)) {
      var n :| 0 <= n < |order| - 1 && order[1..][n] == i;
      assert order[n + 1] == i;
    }
  }

  lemma StepKeepsSingle(s: System, a: Action)
    requires Single(s)
    ensures Single(Step(s, a))
  {
    if a.Fold? && a.who == 0 {
      FoldKeepsSingle(s);
    } else if a.Start? {
      PendingSorted(s.log, s.checkpoint, |s.log|);
    }
  }

  lemma {:induction false} ExecuteKeepsSingle(s: System, run: seq<Action>)
    requires Single(s)
    ensures Single(Execute(s, run))
    decreases |run|
  {
    if run != [] {
      ExecuteKeepsSingle(s, run[..|run| - 1]);
      StepKeepsSingle(Execute(s, run[..|run| - 1]), run[|run| - 1]);
    }
  }

  /** A second projector can start before the first has moved the checkpoint. */
  const OVERLAP: seq<Action> := [Append(0), Start(0, 1), Start(1, 1), Fold(0), Fold(1)]

  lemma OverlapFoldsTwice(n: nat)
    requires n >= 2
    ensures Execute(Begin(n), OVERLAP).folded == [0, 0]
  {
    var r := OVERLAP;
    assert r[..5] == r && r[..0] == [];
    assert forall k :: 0 <= k < 5 ==> r[..k + 1][..k] == r[..k];
    var s1 := Step(Begin(n), r[0]);
    assert Execute(Begin(n), r[..0]) == Begin(n);
    assert Execute(Begin(n), r[..1]) == s1;
    assert Pending([0], None, 0) == [];
    assert Insert([0], [], 0) == [0];
    assert Batch([0], None, 1) == [0];
    var s2 := Step(s1, r[1]);
    assert Execute(Begin(n), r[..2]) == s2;
    var s3 := Step(s2, r[2]);
    assert Execute(Begin(n), r[..3]) == s3;
    var s4 := Step(s3, r[3]);
    assert Execute(Begin(n), r[..4]) == s4;
  }

  /** Every event is folded at most once, whatever arrives and whatever fails, exactly when no two
      projectors run under the same name. */
  lemma AtMostOnceExactly(projectors: nat)
    ensures (forall run :: NoRepeats(Execute(Begin(projectors), run).folded)) <==> projectors <= 1
  {
    if projectors == 1 {
      forall run ensures NoRepeats(Execute(Begin(1), run).folded) {
        ExecuteKeepsSingle(Begin(1), run);
      }
    } else if projectors == 0 {
      forall run ensures NoRepeats(Execute(Begin(0), run).folded) {
        NobodyFolds(run);
      }
    } else {
      OverlapFoldsTwice(projectors);
      var folded := Execute(Begin(projectors), OVERLAP).folded;
      assert folded[0] == folded[1];
    }
  }

  lemma {:induction false} NobodyFolds(run: seq<Action>)
    ensures Execute(Begin(0), run).folded == [] && Execute(Begin(0), run).batches == []
    decreases |run|
  {
    if run != [] { NobodyFolds(run[..|run| - 1]); }
  }

  // ---------------------------------------------------------------- nothing lost

  /** Not folded, and below the checkpoint. */
  ghost predicate Lost(s: System, i: nat) {
    i < |s.log| && i !in s.folded && !Above(s.log, s.checkpoint, i)
  }

  lemma {:induction false} LostForever(s: System, run: seq<Action>, i: nat)
    requires Single(s) && Lost(s, i)
    ensures Lost(Execute(s, run), i)
    decreases |run|
  {
    if run != [] {
      var front := run[..|run| - 1];
      LostForever(s, front, i);
      ExecuteKeepsSingle(s, front);
      var t := Execute(s, front);
      if run[|run| - 1] == Fold(0) && t.batches[0] != [] { assert t.batches[0][0] in t.batches[0]; }
    }
  }

  predicate InOrder(log: Log) {
    forall i, j :: 0 <= i < j < |log| ==> log[i] <= log[j]
  }

  /** With an ordered log the folded events are a prefix of it, and the batch continues it. */
  ghost predicate Prefix(s: System) {
    && Single(s) && InOrder(s.log)
    && (forall n :: 0 <= n < |s.folded| ==> s.folded[n] == n)
    && (forall n :: 0 <= n < |s.batches[0]| ==> s.batches[0][n] == |s.folded| + n)
  }

  /** In an ordered log a later event goes behind all earlier ones. */
  lemma InsertLater(log: Log, order: seq<nat>, id: nat)
    requires InOrder(log) && id < |log| && Within(log, order)
    requires forall k :: 0 <= k < |order| ==> order[k] < id
    ensures Insert(log, order, id) == order + [id]
  {
  }

  /** The ids from one on, below another. */
  function Tail(from: nat, n: nat): (r: seq<nat>)
    ensures |r| == if n <= from then 0 else n - from
    ensures forall k :: 0 <= k < |r| ==> r[k] == from + k
  {
    if n <= from then [] else Tail(from, n - 1) + [n - 1]
  }

  /** In an ordered log the pending events are the ids from some point on. */
  lemma {:induction false} PendingIsTail(log: Log, checkpoint: Option<Key>, from: nat, n: nat)
    requires InOrder(log) && n <= |log|
    requires forall i: nat :: i < |log| ==> (Above(log, checkpoint, i) <==> i >= from)
    ensures Pending(log, checkpoint, n) == Tail(from, n)
  {
    if n > 0 {
      PendingIsTail(log, checkpoint, from, n - 1);
      assert Above(log, checkpoint, n - 1) <==> n - 1 >= from;
      if n - 1 >= from { InsertLater(log, Tail(from, n - 1), n - 1); }
    }
  }

  lemma StartKeepsPrefix(s: System, size: nat)
    requires Prefix(s)
    ensures Prefix(Step(s, Start(0, size)))
  {
    StepKeepsSingle(s, Start(0, size));
    if s.folded != [] { assert s.folded[|s.folded| - 1] == |s.folded| - 1; }
    PendingIsTail(s.log, s.checkpoint, |s.folded|, |s.log|);
  }

  lemma StepKeepsPrefix(s: System, a: Action)
    requires Prefix(s) && InOrder(Step(s, a).log)
    ensures Prefix(Step(s, a))
  {
    if a.Start? && a.who == 0 {
      StartKeepsPrefix(s, a.size);
    } else {
      StepKeepsSingle(s, a);
    }
  }

  lemma {:induction false} OrderedRunIsPrefix(run: seq<Action>)
    requires InOrder(Arrivals(run))
    ensures Prefix(Execute(Begin(1), run))
    decreases |run|
  {
    LogIsArrivals(Begin(1), run);
    if run != [] {
      var front := run[..|run| - 1];
      assert Arrivals(front) <= Arrivals(run);
      assert forall i :: 0 <= i < |Arrivals(front)| ==> Arrivals(front)[i] == Arrivals(run)[i];
      OrderedRunIsPrefix(front);
      StepKeepsPrefix(Execute(Begin(1), front), run[|run| - 1]);
    }
  }

  /** When events arrive in order, the events folded so far are exactly the first ones, each once. */
  lemma FoldedIsPrefix(run: seq<Action>, i: nat)
    requires InOrder(Arrivals(run))
    ensures var s := Execute(Begin(1), run);
      && |s.folded| <= |s.log| && (forall n :: 0 <= n < |s.folded| ==> s.folded[n] == n)
      && !Lost(s, i)
  {
    OrderedRunIsPrefix(run);
    var s := Execute(Begin(1), run);
    if s.folded != [] { assert s.folded[|s.folded| - 1] in s.folded; }
    if i < |s.folded| { assert s.folded[i] in s.folded; }
  }

  function Appends(log: Log): seq<Action> {
    seq(|log|, i requires 0 <= i < |log| => Append(log[i]))
  }

  function Folds(n: nat): seq<Action> {
    seq(n, i => Fold(0))
  }

  lemma {:induction false} AppendsArrive(log: Log)
    ensures Arrivals(Appends(log)) == log
  {
    if log != [] {
      AppendsArrive(log[..|log| - 1]);
      assert Appends(log)[..|log| - 1] == Appends(log[..|log| - 1]);
    }
  }

  lemma {:induction false} FoldsArriveNothing(n: nat)
    ensures Arrivals(Folds(n)) == []
  {
    if n > 0 {
      FoldsArriveNothing(n - 1);
      assert Folds(n)[..n - 1] == Folds(n - 1);
    }
  }

  lemma {:induction false} FoldsFold(s: System, n: nat)
    requires Single(s) && n <= |s.batches[0]|
    ensures var t := Execute(s, Folds(n));
      t.log == s.log && t.folded == s.folded + s.batches[0][..n] && t.batches == [s.batches[0][n..]]
  {
    if n > 0 {
      FoldsFold(s, n - 1);
      assert Folds(n)[..n - 1] == Folds(n - 1);
      assert s.batches[0][n - 1] in s.batches[0];
    }
  }

  /** Everything that has arrived is folded, then the rest arrives. */
  function EagerRun(log: Log, j: nat): seq<Action>
    requires j <= |log|
  {
    Appends(log[..j]) + [Start(0, j)] + Folds(|Batch(log[..j], None, j)|) + Appends(log[j..])
  }

  lemma EagerRunLoses(log: Log, i: nat, j: nat)
    requires i < j < |log| && log[i] > log[j]
    ensures Arrivals(EagerRun(log, j)) == log
    ensures Lost(Execute(Begin(1), EagerRun(log, j)), j)
  {
    var first, batch := Appends(log[..j]), Batch(log[..j], None, j);
    var eager := first + [Start(0, j)] + Folds(|batch|);
    EagerArrives(log, j);
    var s := Execute(Begin(1), eager);
    EagerFoldsAll(log, j);
    ExecuteKeepsSingle(Begin(1), eager);
    var next := Step(s, Append(log[j]));
    StepKeepsSingle(s, Append(log[j]));
    assert i in s.folded;
    var n :| 0 <= n < |s.folded| && s.folded[n] == i;
    assert Lost(next, j);
    var rest := Appends(log[j + 1..]);
    LostForever(next, rest, j);
    assert Appends(log[j..]) == [Append(log[j])] + rest;
    ExecuteSplit(Begin(1), eager, Appends(log[j..]));
    ExecuteSplit(s, [Append(log[j])], rest);
    assert [Append(log[j])][..0] == [];
    assert Execute(s, [Append(log[j])]) == next;
  }

  lemma EagerArrives(log: Log, j: nat)
    requires j <= |log|
    ensures Arrivals(EagerRun(log, j)) == log
  {
    var first, n := Appends(log[..j]), |Batch(log[..j], None, j)|;
    ArrivalsSplit(first, [Start(0, j)]);
    ArrivalsSplit(first + [Start(0, j)], Folds(n));
    ArrivalsSplit(first + [Start(0, j)] + Folds(n), Appends(log[j..]));
    AppendsArrive(log[..j]);
    AppendsArrive(log[j..]);
    FoldsArriveNothing(n);
    assert Arrivals([Start(0, j)]) == [];
  }

  lemma {:induction false} AppendsOnly(log: Log)
    ensures Execute(Begin(1), Appends(log)) == Begin(1).(log := log)
  {
    if log == [] {
      assert Begin(1) == Begin(1).(log := []);
    } else {
      AppendsOnly(log[..|log| - 1]);
      assert Appends(log)[..|log| - 1] == Appends(log[..|log| - 1]);
      assert log[..|log| - 1] + [log[|log| - 1]] == log;
    }
  }

  lemma EagerFoldsAll(log: Log, j: nat)
    requires j <= |log|
    ensures var s := Execute(Begin(1), Appends(log[..j]) + [Start(0, j)] + Folds(|Batch(log[..j], None, j)|));
      s.log == log[..j] && forall i: nat :: i < j ==> i in s.folded
  {
    var first, batch := Appends(log[..j]), Batch(log[..j], None, j);
    AppendsOnly(log[..j]);
    var appended := Execute(Begin(1), first);
    var started := Step(appended, Start(0, j));
    assert [Start(0, j)][..0] == [];
    ExecuteSplit(Begin(1), first, [Start(0, j)]);
    assert Execute(appended, [Start(0, j)]) == started;
    ExecuteSplit(Begin(1), first + [Start(0, j)], Folds(|batch|));
    ExecuteKeepsSingle(Begin(1), first + [Start(0, j)]);
    FoldsFold(started, |batch|);
    assert batch == Pending(log[..j], None, j) && started.batches[0] == batch;
    assert Execute(started, Folds(|batch|)).folded == batch;
  }

  /** A run in which just these events arrive, and event i is passed over. */
  ghost predicate Loses(log: Log, run: seq<Action>, i: nat) {
    Arrivals(run) == log && Lost(Execute(Begin(1), run), i)
  }

  /** A single projector never loses an event, however its batches fall, exactly when the events
      arrive in the order they occurred. */
  lemma NothingLostExactly(log: Log)
    ensures (forall run, i :: !Loses(log, run, i)) <==> InOrder(log)
  {
    if InOrder(log) {
      forall run, i ensures !Loses(log, run, i) {
        if Arrivals(run) == log { FoldedIsPrefix(run, i); }
      }
    } else {
      var i, j :| 0 <= i < j < |log| && log[i] > log[j];
      EagerRunLoses(log, i, j);
      assert Loses(log, EagerRun(log, j), j);
    }
  }

  // ---------------------------------------------------------------- batch after batch

  /** A batch of which the first n events are folded, and then it ends. */
  function BatchRun(size: nat, n: nat): seq<Action> {
    [Start(0, size)] + Folds(n) + [Stop(0)]
  }

  /** What that does to checkpoint and history. */
  function AfterBatch(s: System, size: nat, n: nat): System
    requires n <= |Batch(s.log, s.checkpoint, size)|
  {
    var batch := Batch(s.log, s.checkpoint, size);
    System(s.log, if n == 0 then s.checkpoint else Some(KeyOf(s.log, batch[n - 1])), s.folded + batch[..n], [[]])
  }

  lemma BatchIsARun(s: System, size: nat, n: nat)
    requires s.batches == [[]] && n <= |Batch(s.log, s.checkpoint, size)|
    ensures Execute(s, BatchRun(size, n)) == AfterBatch(s, size, n)
  {
    var batch, started := Batch(s.log, s.checkpoint, size), Step(s, Start(0, size));
    assert [Start(0, size)][..0] == [];
    assert Execute(s, [Start(0, size)]) == started;
    assert started.batches == [batch];
    ExecuteSplit(s, [Start(0, size)], Folds(n));
    FoldsFrom(started, batch, n);
    var all := BatchRun(size, n);
    assert all[..|all| - 1] == [Start(0, size)] + Folds(n);
  }

  /** Some run of the only projector has led here. */
  ghost predicate Reached(s: System) {
    exists run :: s == Execute(Begin(1), run)
  }

  lemma BatchReached(s: System, size: nat, n: nat)
    requires Reached(s) && s.batches == [[]] && n <= |Batch(s.log, s.checkpoint, size)|
    ensures Reached(AfterBatch(s, size, n))
  {
    var run :| s == Execute(Begin(1), run);
    BatchIsARun(s, size, n);
    ExecuteSplit(Begin(1), run, BatchRun(size, n));
    assert AfterBatch(s, size, n) == Execute(Begin(1), run + BatchRun(size, n));
  }

  lemma AppendReached(s: System, at: int)
    requires Reached(s)
    ensures Reached(Step(s, Append(at)))
  {
    var run :| s == Execute(Begin(1), run);
    assert (run + [Append(at)])[..|run|] == run;
    assert Step(s, Append(at)) == Execute(Begin(1), run + [Append(at)]);
  }

  lemma BeginReached()
    ensures Reached(Begin(1))
  {
    assert Begin(1) == Execute(Begin(1), []);
  }

  /** Wherever a run leads, the events folded from an ordered log are the first ones. */
  lemma ReachedIsPrefix(s: System)
    requires Reached(s) && InOrder(s.log)
    ensures Prefix(s)
  {
    var run :| s == Execute(Begin(1), run);
    LogIsArrivals(Begin(1), run);
    assert Arrivals(run) == s.log;
    OrderedRunIsPrefix(run);
  }

  lemma {:induction false} FoldsFrom(s: System, batch: seq<nat>, n: nat)
    requires s.batches == [batch] && n <= |batch| && Within(s.log, batch)
    ensures Execute(s, Folds(n)) ==
      System(s.log, if n == 0 then s.checkpoint else Some(KeyOf(s.log, batch[n - 1])), s.folded + batch[..n], [batch[n..]])
  {
    if n > 0 {
      FoldsFrom(s, batch, n - 1);
      assert Folds(n)[..n - 1] == Folds(n - 1);
      assert batch[..n] == batch[..n - 1] + [batch[n - 1]];
      var before := Execute(s, Folds(n - 1));
      assert before.batches[0][0] == batch[n - 1] && before.batches[0][1..] == batch[n..];
    }
  }

  lemma {:induction false} ExecuteKeepsPrefix(s: System, run: seq<Action>)
    requires Prefix(s) && Arrivals(run) == []
    ensures Prefix(Execute(s, run))
    decreases |run|
  {
    if run != [] {
      ExecuteKeepsPrefix(s, run[..|run| - 1]);
      LogIsArrivals(s, run);
      StepKeepsPrefix(Execute(s, run[..|run| - 1]), run[|run| - 1]);
    }
  }

  /** In an ordered log a batch is as full as the unfolded events allow. */
  lemma BatchIsFull(s: System, size: nat)
    requires Prefix(s)
    ensures |s.folded| <= |s.log| && |Batch(s.log, s.checkpoint, size)| == if |s.log| - |s.folded| < size then |s.log| - |s.folded| else size
  {
    if s.folded != [] { assert s.folded[|s.folded| - 1] == |s.folded| - 1; }
    PendingIsTail(s.log, s.checkpoint, |s.folded|, |s.log|);
  }

  /** A batch no event of which fails. */
  function Round(s: System, size: nat): System {
    Execute(s, BatchRun(size, |Batch(s.log, s.checkpoint, size)|))
  }

  function Rounds(s: System, size: nat, n: nat): System {
    if n == 0 then s else Round(Rounds(s, size, n - 1), size)
  }

  lemma RoundFolds(s: System, size: nat)
    requires Prefix(s) && s.batches == [[]]
    ensures var t := Round(s, size);
      && Prefix(t) && t.batches == [[]] && t.log == s.log
      && |t.folded| == if |s.log| < |s.folded| + size then |s.log| else |s.folded| + size
  {
    var n := |Batch(s.log, s.checkpoint, size)|;
    BatchIsARun(s, size, n);
    BatchIsFull(s, size);
    var start, folds, stop := [Start(0, size)], Folds(n), [Stop(0)];
    ArrivalsSplit(start, folds);
    ArrivalsSplit(start + folds, stop);
    FoldsArriveNothing(n);
    assert Arrivals(start) == [] && Arrivals(stop) == [];
    ExecuteKeepsPrefix(s, start + folds + stop);
  }

  lemma {:induction false} RoundsFold(s: System, size: nat, n: nat)
    requires Prefix(s) && s.batches == [[]]
    ensures var t := Rounds(s, size, n);
      && Prefix(t) && t.batches == [[]] && t.log == s.log
      && |t.folded| == if |s.log| < |s.folded| + n * size then |s.log| else |s.folded| + n * size
  {
    if n == 0 {
      BatchIsFull(s, 0);
    } else {
      RoundsFold(s, size, n - 1);
      RoundFolds(Rounds(s, size, n - 1), size);
      assert n * size == (n - 1) * size + size;
    }
  }

  /** Whatever has gone before, n batches without a failure fold the next n * size events of an ordered log,
      or all that are left, each once and in order. */
  lemma RoundsFoldEverything(s: System, size: nat, n: nat)
    requires Reached(s) && s.batches == [[]] && InOrder(s.log)
    ensures var t := Rounds(s, size, n);
      && t.log == s.log && |t.folded| == (if |s.log| < |s.folded| + n * size then |s.log| else |s.folded| + n * size)
      && forall i :: 0 <= i < |t.folded| ==> t.folded[i] == i
  {
    ReachedIsPrefix(s);
    RoundsFold(s, size, n);
  }
}
