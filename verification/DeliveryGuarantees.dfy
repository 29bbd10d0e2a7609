/**
 What notification delivery guarantees over every run of workers, crashes and the reaper, and the
 one thing it does not.
 */
module DeliveryGuarantees {
  import opened Outcomes
  import opened Delivery

  lemma FreshIsInv(s: System, cfg: Settings)
    requires Fresh(s)
    ensures Inv(s, cfg)
  {
  }

  /** The retry count is the number of failed attempts, and never passes the ceiling. */
  lemma RetriesAreFailures(s: System, cfg: Settings, run: seq<Action>, j: nat)
    requires Fresh(s)
    ensures var t := Execute(s, cfg, run);
      j < |t.jobs| ==>
        && t.jobs[j].retries == Attempts(t.attempts, j, false) <= cfg.Ceiling()
        && (t.jobs[j].status.Delivering? ==> t.jobs[j].retries < cfg.Ceiling())
        && (t.jobs[j].status.DeadLettered? ==> t.jobs[j].retries == cfg.Ceiling())
  {
    FreshIsInv(s, cfg);
    ExecuteKeeps(s, cfg, run);
    if j < |Execute(s, cfg, run).jobs| { assert JobOk(Execute(s, cfg, run), cfg, j); }
  }

  /** Delivered means exactly one succeeded attempt, and one send recorded by the provider. */
  lemma DeliveredMeansSent(s: System, cfg: Settings, run: seq<Action>, j: nat)
    requires Fresh(s)
    ensures var t := Execute(s, cfg, run);
      j < |t.jobs| ==>
        && (t.jobs[j].status.Delivered? <==> Attempts(t.attempts, j, true) == 1)
        && Attempts(t.attempts, j, true) <= 1
        && (t.jobs[j].status.Delivered? ==> SendKey(j) in t.provider.recorded)
  {
    FreshIsInv(s, cfg);
    ExecuteKeeps(s, cfg, run);
    if j < |Execute(s, cfg, run).jobs| { assert JobOk(Execute(s, cfg, run), cfg, j); }
  }

  /** The provider records at most one send for a job. */
  lemma SentAtMostOnce(s: System, cfg: Settings, run: seq<Action>, j: nat, k: nat, a: nat, b: nat)
    requires Fresh(s)
    ensures var recorded := Execute(s, cfg, run).provider.recorded;
      a < |recorded| && b < |recorded| && recorded[a] == SendKey(j) && recorded[b] == SendKey(k) ==>
        (a == b <==> j == k)
  {
    FreshIsInv(s, cfg);
    ExecuteKeeps(s, cfg, run);
    if SendKey(j) == SendKey(k) { SendKeyInjective(j, k); }
  }

  /** A job makes at most 2 * ceiling + 1 transitions, and its version counts them. */
  lemma FewTransitions(s: System, cfg: Settings, run: seq<Action>, j: nat)
    requires Fresh(s)
    ensures var t := Execute(s, cfg, run);
      j < |t.jobs| ==> t.jobs[j].version == Transitions(t.audit, j) <= 2 * cfg.Ceiling() + 1
  {
    FreshIsInv(s, cfg);
    ExecuteKeeps(s, cfg, run);
    if j < |Execute(s, cfg, run).jobs| { assert JobOk(Execute(s, cfg, run), cfg, j); }
  }

  // ---------------------------------------------------------------- final states

  /** Nothing more happens to a delivered or dead-lettered job. */
  lemma StepLeavesFinal(s: System, cfg: Settings, a: Action, j: nat)
    requires Inv(s, cfg) && j < |s.jobs| && s.jobs[j].status.Final()
    ensures var t := Step(s, cfg, a); j < |t.jobs| && t.jobs[j] == s.jobs[j]
  {
    if (a.Claim? || a.Record?) && a.worker < |s.workers| { assert WorkerOk(s, a.worker); }
  }

  lemma {:induction false} FinalIsFinal(s: System, cfg: Settings, run: seq<Action>, j: nat)
    requires Inv(s, cfg) && j < |s.jobs| && s.jobs[j].status.Final()
    ensures var t := Execute(s, cfg, run); j < |t.jobs| && t.jobs[j] == s.jobs[j]
    ensures Attempts(Execute(s, cfg, run).attempts, j, true) == Attempts(s.attempts, j, true)
    ensures Attempts(Execute(s, cfg, run).attempts, j, false) == Attempts(s.attempts, j, false)
    decreases |run|
  {
    if run != [] {
      var front := run[..|run| - 1];
      FinalIsFinal(s, cfg, front, j);
      ExecuteKeeps(s, cfg, front);
      StepLeavesFinal(Execute(s, cfg, front), cfg, run[|run| - 1], j);
      ExecuteKeeps(s, cfg, run);
      assert JobOk(s, cfg, j) && JobOk(Execute(s, cfg, run), cfg, j);
    }
  }

  // ---------------------------------------------------------------- sent but never delivered

  /** Runs in which crashes, or reaping, only happen where the flags admit them. */
  predicate Admits(crashes: bool, reaping: bool, run: seq<Action>) {
    forall i :: 0 <= i < |run| ==> (run[i].Crash? ==> crashes) && (run[i].Reap? ==> reaping)
  }

  /** The job a worker has claimed. */
  function Claimed(worker: Worker): Option<nat> {
    match worker
    case Sending(j) => Some(j)
    case Answered(j, _) => Some(j)
    case Recording(j, _, _) => Some(j)
    case _ => None
  }

  predicate Accepted(worker: Worker, j: nat) {
    match worker
    case Answered(k, accepted) => accepted && k == j
    case Recording(k, accepted, _) => accepted && k == j
    case _ => false
  }

  /** What the provider has accepted but nobody has recorded is still with a worker. */
  ghost predicate WithWorker(s: System, j: nat) {
    exists w :: 0 <= w < |s.workers| && Accepted(s.workers[w], j)
  }

  predicate UnderWay(status: Status) {
    status.Delivering? || status.Delivered?
  }

  /** A claimed job is in delivery, as its only claimant read it, and unsent until that one is accepted. */
  ghost predicate ClaimOk(s: System, w: nat)
    requires w < |s.workers|
  {
    var worker := s.workers[w];
    Claimed(worker).Some? ==>
      var j := Claimed(worker).value;
      && j < |s.jobs| && s.jobs[j].status.Delivering?
      && (worker.Recording? ==> worker.seen == s.jobs[j])
      && (!Accepted(worker, j) ==> SendKey(j) !in s.provider.sent)
  }

  /** What was sent is being delivered or has been. */
  ghost predicate SentOk(s: System) {
    forall k :: k in s.provider.sent ==> exists j: nat :: j < |s.jobs| && k == SendKey(j) && UnderWay(s.jobs[j].status)
  }

  ghost predicate OneClaimant(s: System) {
    forall v, w :: 0 <= v < w < |s.workers| && Claimed(s.workers[v]).Some? ==> Claimed(s.workers[v]) != Claimed(s.workers[w])
  }

  /** True as long as nothing is reaped. */
  ghost predicate Unreaped(s: System) {
    (forall w :: 0 <= w < |s.workers| ==> ClaimOk(s, w)) && OneClaimant(s) && SentOk(s)
  }

  lemma SentIsUnderWay(s: System, j: nat)
    requires SentOk(s) && j < |s.jobs| && SendKey(j) in s.provider.sent
    ensures UnderWay(s.jobs[j].status)
  {
    var i: nat :| i < |s.jobs| && SendKey(j) == SendKey(i) && UnderWay(s.jobs[i].status);
    SendKeyInjective(i, j);
  }

  /** What was sent stays under way while jobs under way do. */
  lemma SentKept(s: System, t: System)
    requires SentOk(s) && |s.jobs| <= |t.jobs| && t.provider.sent == s.provider.sent
    requires forall j :: 0 <= j < |s.jobs| && SendKey(j) in s.provider.sent && UnderWay(s.jobs[j].status) ==> UnderWay(t.jobs[j].status)
    ensures SentOk(t)
  {
    forall k | k in t.provider.sent ensures exists j: nat :: j < |t.jobs| && k == SendKey(j) && UnderWay(t.jobs[j].status) {
      var j: nat :| j < |s.jobs| && k == SendKey(j) && UnderWay(s.jobs[j].status);
      assert UnderWay(t.jobs[j].status);
    }
  }

  /** A worker that lets go of its claim, or keeps it, while jobs and provider stay as they are. */
  lemma SameJobsKeep(s: System, w: nat, worker: Worker)
    requires Unreaped(s) && w < |s.workers|
    requires Claimed(worker).None? || Claimed(worker) == Claimed(s.workers[w])
    requires ClaimOk(SetWorker(s, w, worker), w)
    ensures Unreaped(SetWorker(s, w, worker))
  {
    var t := SetWorker(s, w, worker);
    forall v | 0 <= v < |t.workers| ensures ClaimOk(t, v) { assert ClaimOk(s, v); }
    SentKept(s, t);
  }

  lemma CreateKeepsUnreaped(s: System, cfg: Settings, now: int)
    requires Unreaped(s)
    ensures Unreaped(Step(s, cfg, Create(now)))
  {
    var t := Step(s, cfg, Create(now));
    forall v | 0 <= v < |t.workers| ensures ClaimOk(t, v) { assert ClaimOk(s, v); }
    SentKept(s, t);
  }

  lemma FailNextKeepsUnreaped(s: System, cfg: Settings, key: string)
    requires Unreaped(s)
    ensures Unreaped(Step(s, cfg, FailNext(key)))
  {
    var t := Step(s, cfg, FailNext(key));
    forall v | 0 <= v < |t.workers| ensures ClaimOk(t, v) { assert ClaimOk(s, v); }
    SentKept(s, t);
  }

  lemma CallKeepsUnreaped(s: System, cfg: Settings, w: nat, sendable: bool)
    requires Unreaped(s) && w < |s.workers| && s.workers[w].Sending?
    ensures Unreaped(StepWorker(s, cfg, Call(w, sendable), w))
  {
    var t, i := StepWorker(s, cfg, Call(w, sendable), w), s.workers[w].job;
    assert ClaimOk(s, w);
    forall v | 0 <= v < |t.workers| ensures ClaimOk(t, v) {
      assert ClaimOk(s, v);
      if v != w && Claimed(s.workers[v]).Some? && SendKey(Claimed(s.workers[v]).value) == SendKey(i) {
        SendKeyInjective(Claimed(s.workers[v]).value, i);
      }
    }
    forall k | k in t.provider.sent ensures exists j: nat :: j < |t.jobs| && k == SendKey(j) && UnderWay(t.jobs[j].status) {
      if k in s.provider.sent {
        var j: nat :| j < |s.jobs| && k == SendKey(j) && UnderWay(s.jobs[j].status);
        assert UnderWay(t.jobs[j].status);
      } else {
        assert k == SendKey(i) && UnderWay(t.jobs[i].status);
      }
    }
  }

  /** A saved transition of a job that no other worker has claimed. */
  lemma SavedKeepsUnreaped(s: System, w: nat, j: nat, u: System, worker: Worker)
    requires Unreaped(s) && w < |s.workers| && j < |s.jobs| && |u.jobs| == |s.jobs|
    requires u.workers == s.workers && u.provider == s.provider
    requires forall i :: 0 <= i < |s.jobs| && i != j ==> u.jobs[i] == s.jobs[i]
    requires forall v :: 0 <= v < |s.workers| && v != w ==> Claimed(s.workers[v]) != Some(j)
    requires SendKey(j) in s.provider.sent ==> UnderWay(u.jobs[j].status)
    requires Claimed(worker).None? || Claimed(worker) == Some(j)
    requires ClaimOk(SetWorker(u, w, worker), w)
    ensures Unreaped(SetWorker(u, w, worker))
  {
    var t := SetWorker(u, w, worker);
    forall v | 0 <= v < |t.workers| ensures ClaimOk(t, v) { assert ClaimOk(s, v); }
    SentKept(s, t);
  }

  lemma ClaimKeepsUnreaped(s: System, cfg: Settings, w: nat, now: int)
    requires Inv(s, cfg) && Unreaped(s) && w < |s.workers| && s.workers[w].Claiming?
    ensures Unreaped(StepWorker(s, cfg, Claim(w, now), w))
  {
    var j, seen := s.workers[w].job, s.workers[w].seen;
    var t := ClaimTransition(cfg, seen);
    assert WorkerOk(s, w);
    var saved := Save(s, j, seen, t, [], now);
    if saved.Some? {
      if SendKey(j) in s.provider.sent { SentIsUnderWay(s, j); }
      forall v | 0 <= v < |s.workers| && v != w ensures Claimed(s.workers[v]) != Some(j) { assert ClaimOk(s, v); }
      SavedKeepsUnreaped(s, w, j, saved.value, if t.DeadLetter? then Idle else Sending(j));
    } else {
      SameJobsKeep(s, w, Idle);
    }
  }

  lemma OnlyClaimant(s: System, w: nat, v: nat)
    requires OneClaimant(s) && w < |s.workers| && v < |s.workers| && v != w && Claimed(s.workers[w]).Some?
    ensures Claimed(s.workers[v]) != Claimed(s.workers[w])
  {
  }

  lemma RecordKeepsUnreaped(s: System, cfg: Settings, w: nat, now: int)
    requires Unreaped(s) && w < |s.workers| && s.workers[w].Recording?
    ensures var j := s.workers[w].job;
      j < |s.jobs| && Save(s, j, s.workers[w].seen, RecordTransition(s.workers[w].accepted), [Attempt(j, s.workers[w].accepted)], now).Some?
    ensures Unreaped(StepWorker(s, cfg, Record(w, now), w))
  {
    var j, accepted := s.workers[w].job, s.workers[w].accepted;
    assert ClaimOk(s, w);
    var saved := Save(s, j, s.workers[w].seen, RecordTransition(accepted), [Attempt(j, accepted)], now);
    forall v | 0 <= v < |s.workers| && v != w ensures Claimed(s.workers[v]) != Some(j) { OnlyClaimant(s, w, v); }
    SavedKeepsUnreaped(s, w, j, saved.value, Idle);
  }

  lemma StepKeepsUnreaped(s: System, cfg: Settings, a: Action)
    requires Inv(s, cfg) && Unreaped(s) && !a.Reap?
    ensures Unreaped(Step(s, cfg, a))
  {
    match a
    case Create(now) => CreateKeepsUnreaped(s, cfg, now);
    case FailNext(key) => FailNextKeepsUnreaped(s, cfg, key);
    case Claim(w, now) => if w < |s.workers| && s.workers[w].Claiming? { ClaimKeepsUnreaped(s, cfg, w, now); }
    case Record(w, now) => if w < |s.workers| && s.workers[w].Recording? { RecordKeepsUnreaped(s, cfg, w, now); }
    case Call(w, sendable) => if w < |s.workers| && s.workers[w].Sending? { CallKeepsUnreaped(s, cfg, w, sendable); }
    case Take(w, j) =>
      if w < |s.workers| && s.workers[w].Idle? && j < |s.jobs| { SameJobsKeep(s, w, Claiming(j, s.jobs[j])); }
    case Crash(w) => if w < |s.workers| { SameJobsKeep(s, w, Idle); }
    case Reread(w) =>
      if w < |s.workers| && s.workers[w].Answered? {
        assert ClaimOk(s, w);
        SameJobsKeep(s, w, Recording(s.workers[w].job, s.workers[w].accepted, s.jobs[s.workers[w].job]));
      }
  }

  lemma {:induction false} RunKeepsUnreaped(s: System, cfg: Settings, run: seq<Action>, crashes: bool)
    requires Fresh(s) && Admits(crashes, false, run)
    ensures Inv(Execute(s, cfg, run), cfg) && Unreaped(Execute(s, cfg, run))
    decreases |run|
  {
    FreshIsInv(s, cfg);
    ExecuteKeeps(s, cfg, run);
    if run != [] {
      RunKeepsUnreaped(s, cfg, run[..|run| - 1], crashes);
      StepKeepsUnreaped(Execute(s, cfg, run[..|run| - 1]), cfg, run[|run| - 1]);
    }
  }

  // ---------------------------------------------------------------- and nobody crashes

  /** Every accepted message is recorded or with its worker. */
  ghost predicate Quiet(s: System) {
    forall j: nat :: j < |s.jobs| && SendKey(j) in s.provider.sent && !s.jobs[j].status.Delivered? ==> WithWorker(s, j)
  }

  lemma StillWithWorker(s: System, w: nat, t: System, j: nat)
    requires w < |s.workers| == |t.workers| && WithWorker(s, j)
    requires Accepted(s.workers[w], j) ==> Accepted(t.workers[w], j)
    requires forall v :: 0 <= v < |s.workers| && v != w ==> t.workers[v] == s.workers[v]
    ensures WithWorker(t, j)
  {
    var v :| 0 <= v < |s.workers| && Accepted(s.workers[v], j);
    assert Accepted(t.workers[v], j);
  }

  lemma SameWorkersQuiet(s: System, t: System)
    requires Quiet(s) && SentOk(s) && t.workers == s.workers && t.provider.sent == s.provider.sent
    requires s.jobs <= t.jobs
    ensures Quiet(t)
  {
    forall j: nat | j < |t.jobs| && SendKey(j) in t.provider.sent && !t.jobs[j].status.Delivered? ensures WithWorker(t, j) {
      var i: nat :| i < |s.jobs| && SendKey(j) == SendKey(i) && UnderWay(s.jobs[i].status);
      SendKeyInjective(i, j);
      var v :| 0 <= v < |s.workers| && Accepted(s.workers[v], j);
      assert Accepted(t.workers[v], j);
    }
  }

  lemma WorkerStepQuiet(s: System, cfg: Settings, a: Action, w: nat)
    requires Inv(s, cfg) && Unreaped(s) && Quiet(s) && w < |s.workers|
    requires !a.Crash? && !a.Call? && !a.Record?
    ensures Quiet(StepWorker(s, cfg, a, w))
  {
    var t := StepWorker(s, cfg, a, w);
    assert WorkerOk(s, w) && ClaimOk(s, w);
    forall j: nat | j < |t.jobs| && SendKey(j) in t.provider.sent && !t.jobs[j].status.Delivered? ensures WithWorker(t, j) {
      SentIsUnderWay(s, j);
      StillWithWorker(s, w, t, j);
    }
  }

  lemma CallQuiet(s: System, cfg: Settings, w: nat, sendable: bool)
    requires Unreaped(s) && Quiet(s) && w < |s.workers| && s.workers[w].Sending?
    ensures Quiet(StepWorker(s, cfg, Call(w, sendable), w))
  {
    var t, i := StepWorker(s, cfg, Call(w, sendable), w), s.workers[w].job;
    assert ClaimOk(s, w);
    forall j: nat | j < |t.jobs| && SendKey(j) in t.provider.sent && !t.jobs[j].status.Delivered? ensures WithWorker(t, j) {
      if SendKey(j) == SendKey(i) {
        SendKeyInjective(j, i);
        assert Accepted(t.workers[w], j);
      } else {
        StillWithWorker(s, w, t, j);
      }
    }
  }

  /** Recording an answer leaves its job delivered, or failed and unsent. */
  lemma RecordedOwnJob(s: System, cfg: Settings, w: nat, now: int)
    requires Unreaped(s) && w < |s.workers| && s.workers[w].Recording?
    ensures var t, i := StepWorker(s, cfg, Record(w, now), w), s.workers[w].job;
      && i < |s.jobs| == |t.jobs| && t.provider == s.provider && t.workers == s.workers[w := Idle]
      && (forall j :: 0 <= j < |s.jobs| && j != i ==> t.jobs[j] == s.jobs[j])
      && (SendKey(i) in s.provider.sent ==> t.jobs[i].status.Delivered?)
  {
    RecordKeepsUnreaped(s, cfg, w, now);
    assert ClaimOk(s, w);
  }

  lemma RecordQuiet(s: System, cfg: Settings, w: nat, now: int)
    requires Unreaped(s) && Quiet(s) && w < |s.workers| && s.workers[w].Recording?
    ensures Quiet(StepWorker(s, cfg, Record(w, now), w))
  {
    var t, i := StepWorker(s, cfg, Record(w, now), w), s.workers[w].job;
    RecordedOwnJob(s, cfg, w, now);
    forall j: nat | j < |t.jobs| && SendKey(j) in t.provider.sent && !t.jobs[j].status.Delivered? ensures WithWorker(t, j) {
      assert j != i;
      StillWithWorker(s, w, t, j);
    }
  }

  lemma StepKeepsQuiet(s: System, cfg: Settings, a: Action)
    requires Inv(s, cfg) && Unreaped(s) && Quiet(s) && !a.Crash? && !a.Reap?
    ensures Quiet(Step(s, cfg, a))
  {
    match a
    case Create(now) => SameWorkersQuiet(s, Step(s, cfg, a));
    case FailNext(_) => SameWorkersQuiet(s, Step(s, cfg, a));
    case Call(w, sendable) => if w < |s.workers| && s.workers[w].Sending? { CallQuiet(s, cfg, w, sendable); }
    case Record(w, now) => if w < |s.workers| && s.workers[w].Recording? { RecordQuiet(s, cfg, w, now); }
    case Take(w, _) => if w < |s.workers| { WorkerStepQuiet(s, cfg, a, w); }
    case Claim(w, _) => if w < |s.workers| { WorkerStepQuiet(s, cfg, a, w); }
    case Reread(w) => if w < |s.workers| { WorkerStepQuiet(s, cfg, a, w); }
  }

  lemma {:induction false} RunKeepsQuiet(s: System, cfg: Settings, run: seq<Action>)
    requires Fresh(s) && Admits(false, false, run)
    ensures Quiet(Execute(s, cfg, run))
    decreases |run|
  {
    if run != [] {
      var front := run[..|run| - 1];
      RunKeepsQuiet(s, cfg, front);
      RunKeepsUnreaped(s, cfg, front, false);
      StepKeepsQuiet(Execute(s, cfg, front), cfg, run[|run| - 1]);
    }
  }

  // ---------------------------------------------------------------- exactly when

  ghost predicate SentInVain(t: System, j: nat) {
    j < |t.jobs| && t.jobs[j].status.DeadLettered? && SendKey(j) in t.provider.sent
  }

  /** Delivered exactly when sent, unless a worker still holds the answer. */
  ghost predicate Answers(t: System, j: nat) {
    j < |t.jobs| && !WithWorker(t, j) ==> (t.jobs[j].status.Delivered? <==> SendKey(j) in t.provider.sent)
  }

  ghost predicate NothingSentInVain(crashes: bool, reaping: bool) {
    forall s, cfg, run, j: nat :: Fresh(s) && Admits(crashes, reaping, run) ==> !SentInVain(Execute(s, cfg, run), j)
  }

  ghost predicate DeliveredIffSent(crashes: bool, reaping: bool) {
    forall s, cfg, run, j: nat :: Fresh(s) && Admits(crashes, reaping, run) ==> Answers(Execute(s, cfg, run), j)
  }

  const NOTHING: System := System([], [], [], Provider(map[], [], {}), [Idle])
  const ONE_TRY := Settings(1, 5)

  /** The worker has the answer in hand. */
  const SENDING: seq<Action> := [] + [Create(0)] + [Take(0, 0)] + [Claim(0, 0)] + [Call(0, true)]

  function InHand(): System {
    System([Job(Delivering, 0, 1, 0)], [], [Change(0, StartDelivering)],
           Provider(map[SendKey(0) := "fake-" + SendKey(0)], [SendKey(0)], {}), [Answered(0, true)])
  }

  lemma ExecuteStep(s: System, cfg: Settings, front: seq<Action>, a: Action)
    ensures Execute(s, cfg, front + [a]) == Step(Execute(s, cfg, front), cfg, a)
  {
    assert (front + [a])[..|front|] == front;
  }

  lemma SendingLeadsThere()
    ensures Execute(NOTHING, ONE_TRY, SENDING) == InHand()
  {
    var s1 := System([Job(Pending, 0, 0, 0)], [], [], NOTHING.provider, [Idle]);
    var s2 := s1.(workers := [Claiming(0, Job(Pending, 0, 0, 0))]);
    var s3 := System([Job(Delivering, 0, 1, 0)], [], [Change(0, StartDelivering)], NOTHING.provider, [Sending(0)]);
    assert Step(NOTHING, ONE_TRY, Create(0)) == s1;
    assert Step(s1, ONE_TRY, Take(0, 0)) == s2;
    assert Step(s2, ONE_TRY, Claim(0, 0)) == s3;
    assert Step(s3, ONE_TRY, Call(0, true)) == InHand();
    ExecuteStep(NOTHING, ONE_TRY, [], Create(0));
    ExecuteStep(NOTHING, ONE_TRY, [] + [Create(0)], Take(0, 0));
    ExecuteStep(NOTHING, ONE_TRY, [] + [Create(0)] + [Take(0, 0)], Claim(0, 0));
    ExecuteStep(NOTHING, ONE_TRY, [] + [Create(0)] + [Take(0, 0)] + [Claim(0, 0)], Call(0, true));
  }

  /** A crash then leaves the job in delivery for good. */
  lemma CrashLosesTheAnswer()
    ensures !Answers(Execute(NOTHING, ONE_TRY, SENDING + [Crash(0)]), 0)
  {
    SendingLeadsThere();
    ExecuteStep(NOTHING, ONE_TRY, SENDING, Crash(0));
  }

  /** Reaping a worker that is merely slow makes its answer come too late. */
  const REAPED: seq<Action> := SENDING + [Reap(0, 10)] + [Reread(0)] + [Record(0, 10)] + [Take(0, 0)] + [Claim(0, 11)]

  lemma ReapingDeadLetters()
    ensures var t := Execute(NOTHING, ONE_TRY, REAPED); SentInVain(t, 0) && !Answers(t, 0)
  {
    SendingLeadsThere();
    var s, failed := InHand(), Job(Failed, 1, 2, 10);
    var s1 := System([failed], [Attempt(0, false)], s.audit + [Change(0, MarkFailed)], s.provider, s.workers);
    var s2 := s1.(workers := [Recording(0, true, failed)]);
    var s3 := s1.(workers := [Idle]);
    var s4 := s1.(workers := [Claiming(0, failed)]);
    assert Step(s, ONE_TRY, Reap(0, 10)) == s1;
    assert Step(s1, ONE_TRY, Reread(0)) == s2;
    assert Step(s2, ONE_TRY, Record(0, 10)) == s3;
    assert Step(s3, ONE_TRY, Take(0, 0)) == s4;
    ExecuteStep(NOTHING, ONE_TRY, SENDING, Reap(0, 10));
    ExecuteStep(NOTHING, ONE_TRY, SENDING + [Reap(0, 10)], Reread(0));
    ExecuteStep(NOTHING, ONE_TRY, SENDING + [Reap(0, 10)] + [Reread(0)], Record(0, 10));
    ExecuteStep(NOTHING, ONE_TRY, SENDING + [Reap(0, 10)] + [Reread(0)] + [Record(0, 10)], Take(0, 0));
    ExecuteStep(NOTHING, ONE_TRY, SENDING + [Reap(0, 10)] + [Reread(0)] + [Record(0, 10)] + [Take(0, 0)], Claim(0, 11));
  }

  /** No run dead-letters a job whose message was sent exactly when nothing is reaped, crashes or not. */
  lemma SentInVainExactly(crashes: bool, reaping: bool)
    ensures NothingSentInVain(crashes, reaping) <==> !reaping
  {
    if reaping {
      ReapingDeadLetters();
      assert Fresh(NOTHING) && Admits(crashes, reaping, REAPED);
    } else {
      forall s, cfg, run, j: nat | Fresh(s) && Admits(crashes, reaping, run) ensures !SentInVain(Execute(s, cfg, run), j) {
        RunKeepsUnreaped(s, cfg, run, crashes);
        var t := Execute(s, cfg, run);
        if j < |t.jobs| && SendKey(j) in t.provider.sent { SentIsUnderWay(t, j); }
      }
    }
  }

  /** A job is delivered exactly when its message was sent, over all runs and save while a worker holds
      the answer, exactly when there are neither crashes nor reaping. */
  lemma DeliveredIffSentExactly(crashes: bool, reaping: bool)
    ensures DeliveredIffSent(crashes, reaping) <==> !crashes && !reaping
  {
    if reaping {
      ReapingDeadLetters();
      assert Fresh(NOTHING) && Admits(crashes, reaping, REAPED);
    } else if crashes {
      CrashLosesTheAnswer();
      assert Fresh(NOTHING) && Admits(crashes, reaping, SENDING + [Crash(0)]);
    } else {
      forall s, cfg, run, j: nat | Fresh(s) && Admits(crashes, reaping, run) ensures Answers(Execute(s, cfg, run), j) {
        RunKeepsUnreaped(s, cfg, run, false);
        RunKeepsQuiet(s, cfg, run);
        if j < |Execute(s, cfg, run).jobs| { assert JobOk(Execute(s, cfg, run), cfg, j); }
      }
    }
  }
}
