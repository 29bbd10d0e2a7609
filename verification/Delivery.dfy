/**
 Notification delivery: a short transaction claims the job, the provider is called with no
 transaction open, a second transaction records the outcome.  Workers interleave at the grain of one
 read, one versioned save and one provider call, may crash anywhere, and a reaper takes back jobs
 left in delivery too long.
 */
module Delivery {
  import opened Outcomes
  import opened Text

  datatype Settings = Settings(maxRetries: int, timeout: int)
  {
    /** The first failure is always recorded before the ceiling is looked at. */
    function Ceiling(): nat {
      if maxRetries < 1 then 1 else maxRetries
    }
  }

  datatype Status = Pending | Delivering | Delivered | Failed | DeadLettered
  {
    predicate Final() {
      Delivered? || DeadLettered?
    }
  }

  datatype Transition = StartDelivering | MarkDelivered | MarkFailed | DeadLetter
  {
    predicate From(status: Status) {
      match this
      case StartDelivering => status.Pending? || status.Failed?
      case MarkDelivered => status.Delivering?
      case MarkFailed => status.Delivering?
      case DeadLetter => status.Failed?
    }

    function Target(): Status {
      match this
      case StartDelivering => Delivering
      case MarkDelivered => Delivered
      case MarkFailed => Failed
      case DeadLetter => DeadLettered
    }
  }

  datatype Job = Job(status: Status, retries: nat, version: nat, updated: int)

  datatype Attempt = Attempt(job: nat, succeeded: bool)

  /** The audit row of one transition. */
  datatype Change = Change(job: nat, transition: Transition)

  /** What the provider has accepted, by idempotency key, and the keys it will refuse once. */
  datatype Provider = Provider(sent: map<string, string>, recorded: seq<string>, failing: set<string>)

  datatype Worker =
    | Idle
    | Claiming(job: nat, seen: Job)                     // first transaction: the job has been read
    | Sending(job: nat)                                 // first transaction committed
    | Answered(job: nat, accepted: bool)                // the provider has answered
    | Recording(job: nat, accepted: bool, seen: Job)    // second transaction: the job has been read

  datatype System = System(
    jobs: seq<Job>, attempts: seq<Attempt>, audit: seq<Change>, provider: Provider, workers: seq<Worker>)

  function SendKey(job: nat): string {
    "notification-job-" + Decimal(job)
  }

  lemma SendKeyInjective(a: nat, b: nat)
    requires SendKey(a) == SendKey(b)
    ensures a == b
  {
    assert Decimal(a) == SendKey(a)[17..] == SendKey(b)[17..] == Decimal(b);
    NumberOfDecimal(a);
    NumberOfDecimal(b);
  }

  /** A key accepted before is accepted again without a second send; a failing key is refused once. */
  function Send(p: Provider, key: string): (Provider, bool) {
    if key in p.sent then (p, true)
    else if key in p.failing then (p.(failing := p.failing - {key}), false)
    else (Provider(p.sent[key := "fake-" + key], p.recorded + [key], p.failing), true)
  }

  // ---------------------------------------------------------------- steps

  /** The versioned save of a transition on a job as it was read; nothing if it has changed since. */
  function Save(s: System, j: nat, seen: Job, t: Transition, attempts: seq<Attempt>, now: int): Option<System>
    requires j < |s.jobs|
  {
    if !t.From(seen.status) || s.jobs[j].version != seen.version then None
    else
      var retries := if t.MarkFailed? then seen.retries + 1 else seen.retries;
      Some(s.(jobs := s.jobs[j := Job(t.Target(), retries, seen.version + 1, now)],
              attempts := s.attempts + attempts,
              audit := s.audit + [Change(j, t)]))
  }

  datatype Action =
    | Create(now: int)                     // the projector adds a job
    | Take(worker: nat, job: nat)          // first transaction reads
    | Claim(worker: nat, now: int)         // first transaction saves
    | Call(worker: nat, sendable: bool)    // template and address found or not, then the provider
    | Reread(worker: nat)                  // second transaction reads
    | Record(worker: nat, now: int)        // second transaction saves
    | Crash(worker: nat)
    | Reap(job: nat, now: int)             // one job of the reaper, under its row lock
    | FailNext(key: string)

  function SetWorker(s: System, w: nat, worker: Worker): System
    requires w < |s.workers|
  {
    s.(workers := s.workers[w := worker])
  }

  /** What the first transaction does with the job it has read. */
  function ClaimTransition(cfg: Settings, seen: Job): Transition {
    if seen.status.Failed? && seen.retries >= cfg.maxRetries then DeadLetter else StartDelivering
  }

  function RecordTransition(accepted: bool): Transition {
    if accepted then MarkDelivered else MarkFailed
  }

  function ReapOne(s: System, cfg: Settings, j: nat, now: int): Option<System>
    requires j < |s.jobs|
  {
    if !s.jobs[j].status.Delivering? || s.jobs[j].updated >= now - cfg.timeout then None
    else Save(s, j, s.jobs[j], MarkFailed, [Attempt(j, false)], now)
  }

  function StepWorker(s: System, cfg: Settings, a: Action, w: nat): System
    requires w < |s.workers|
  {
    match (a, s.workers[w])
    case (Take(_, j), Idle) => if j < |s.jobs| then SetWorker(s, w, Claiming(j, s.jobs[j])) else s
    case (Claim(_, now), Claiming(j, seen)) =>
      if j >= |s.jobs| then s
      else
        var t := ClaimTransition(cfg, seen);
        (match Save(s, j, seen, t, [], now)
         case None => SetWorker(s, w, Idle)
         case Some(saved) => SetWorker(saved, w, if t.DeadLetter? then Idle else Sending(j)))
    case (Call(_, sendable), Sending(j)) =>
      if !sendable then SetWorker(s, w, Answered(j, false))
      else
        var (provider, accepted) := Send(s.provider, SendKey(j));
        SetWorker(s.(provider := provider), w, Answered(j, accepted))
    case (Reread(_), Answered(j, accepted)) =>
      if j < |s.jobs| then SetWorker(s, w, Recording(j, accepted, s.jobs[j])) else s
    case (Record(_, now), Recording(j, accepted, seen)) =>
      if j >= |s.jobs| then s
      else
        (match Save(s, j, seen, RecordTransition(accepted), [Attempt(j, accepted)], now)
         case None => SetWorker(s, w, Idle)
         case Some(saved) => SetWorker(saved, w, Idle))
    case (Crash(_), _) => SetWorker(s, w, Idle)
    case _ => s
  }

  /** One step of the system; an action that does not apply does nothing. */
  function Step(s: System, cfg: Settings, a: Action): System {
    match a
    case Create(now) => s.(jobs := s.jobs + [Job(Pending, 0, 0, now)])
    case FailNext(key) => s.(provider := s.provider.(failing := s.provider.failing + {key}))
    case Reap(j, now) =>
      if j < |s.jobs| && ReapOne(s, cfg, j, now).Some? then ReapOne(s, cfg, j, now).value else s
    case _ => if a.worker < |s.workers| then StepWorker(s, cfg, a, a.worker) else s
  }

  function Execute(s: System, cfg: Settings, run: seq<Action>): System {
    if run == [] then s else Step(Execute(s, cfg, run[..|run| - 1]), cfg, run[|run| - 1])
  }

  /** No jobs yet, an unused provider, any number of workers. */
  predicate Fresh(s: System) {
    s.jobs == [] && s.attempts == [] && s.audit == [] && s.provider == Provider(map[], [], {}) &&
    forall w :: 0 <= w < |s.workers| ==> s.workers[w].Idle?
  }

  // ---------------------------------------------------------------- what is counted

  function Attempts(attempts: seq<Attempt>, j: nat, succeeded: bool): nat {
    if attempts == [] then 0
    else
      Attempts(attempts[..|attempts| - 1], j, succeeded) +
      if attempts[|attempts| - 1] == Attempt(j, succeeded) then 1 else 0
  }

  function Transitions(audit: seq<Change>, j: nat): nat {
    if audit == [] then 0
    else Transitions(audit[..|audit| - 1], j) + if audit[|audit| - 1].job == j then 1 else 0
  }

  /** The number of transitions that lead to a state, whatever happened on the way. */
  function Age(status: Status, retries: nat): nat {
    match status
    case Pending => 0
    case Delivering => 2 * retries + 1
    case Failed => 2 * retries
    case Delivered => 2 * retries + 2
    case DeadLettered => 2 * retries + 1
  }

  // ---------------------------------------------------------------- invariant

  ghost predicate JobOk(s: System, cfg: Settings, j: nat)
    requires j < |s.jobs|
  {
    Tallies(s.jobs[j], cfg, Attempts(s.attempts, j, false), Attempts(s.attempts, j, true), Transitions(s.audit, j)) &&
    (s.jobs[j].status.Delivered? ==> SendKey(j) in s.provider.sent)
  }

  /** A job against the numbers of its failed and successful attempts and of its transitions. */
  predicate Tallies(job: Job, cfg: Settings, failures: nat, successes: nat, moves: nat) {
    && job.retries == failures
    && successes == (if job.status.Delivered? then 1 else 0)
    && (match job.status
        case Pending => job.retries == 0
        case Failed => 1 <= job.retries <= cfg.Ceiling()
        case DeadLettered => job.retries == cfg.Ceiling()
        case _ => job.retries < cfg.Ceiling())
    && job.version == moves == Age(job.status, job.retries)
  }

  /** A job as read is the job as it is, unless its version has moved on. */
  ghost predicate SeenOk(s: System, j: nat, seen: Job) {
    j < |s.jobs| && seen.version <= s.jobs[j].version && (seen.version == s.jobs[j].version ==> seen == s.jobs[j])
  }

  ghost predicate WorkerOk(s: System, w: nat)
    requires w < |s.workers|
  {
    match s.workers[w]
    case Idle => true
    case Claiming(j, seen) => SeenOk(s, j, seen)
    case Sending(j) => j < |s.jobs|
    case Answered(j, accepted) => j < |s.jobs| && (accepted ==> SendKey(j) in s.provider.sent)
    case Recording(j, accepted, seen) => SeenOk(s, j, seen) && (accepted ==> SendKey(j) in s.provider.sent)
  }

  /** The provider keeps one record per accepted key. */
  ghost predicate ProviderOk(p: Provider) {
    && (forall k :: k in p.sent <==> k in p.recorded)
    && (forall a, b :: 0 <= a < b < |p.recorded| ==> p.recorded[a] != p.recorded[b])
  }

  ghost predicate Inv(s: System, cfg: Settings) {
    && (forall j :: 0 <= j < |s.jobs| ==> JobOk(s, cfg, j))
    && (forall w :: 0 <= w < |s.workers| ==> WorkerOk(s, w))
    && ProviderOk(s.provider)
    && (forall i :: 0 <= i < |s.attempts| ==> s.attempts[i].job < |s.jobs|)
    && (forall i :: 0 <= i < |s.audit| ==> s.audit[i].job < |s.jobs|)
  }

  // ---------------------------------------------------------------- every step keeps it

  lemma {:induction false} NothingYet(attempts: seq<Attempt>, audit: seq<Change>, j: nat)
    requires forall i :: 0 <= i < |attempts| ==> attempts[i].job < j
    requires forall i :: 0 <= i < |audit| ==> audit[i].job < j
    ensures Attempts(attempts, j, true) == Attempts(attempts, j, false) == Transitions(audit, j) == 0
    decreases |attempts| + |audit|
  {
    if attempts != [] {
      NothingYet(attempts[..|attempts| - 1], audit, j);
    } else if audit != [] {
      NothingYet([], audit[..|audit| - 1], j);
    }
  }

  lemma CreateKeeps(s: System, cfg: Settings, now: int)
    requires Inv(s, cfg)
    ensures Inv(Step(s, cfg, Create(now)), cfg)
  {
    var t := Step(s, cfg, Create(now));
    NothingYet(s.attempts, s.audit, |s.jobs|);
    forall j | 0 <= j < |t.jobs| ensures JobOk(t, cfg, j) {
      if j < |s.jobs| { assert JobOk(s, cfg, j); }
    }
    forall w | 0 <= w < |t.workers| ensures WorkerOk(t, w) { assert WorkerOk(s, w); }
  }

  /** A step that leaves the tables alone, and the provider's record with it. */
  lemma WorkerStepKeeps(s: System, cfg: Settings, w: nat, worker: Worker, provider: Provider)
    requires Inv(s, cfg) && w < |s.workers| && ProviderOk(provider)
    requires forall k :: k in s.provider.sent ==> k in provider.sent
    requires WorkerOk(SetWorker(s.(provider := provider), w, worker), w)
    ensures Inv(SetWorker(s.(provider := provider), w, worker), cfg)
  {
    var t := SetWorker(s.(provider := provider), w, worker);
    forall j | 0 <= j < |t.jobs| ensures JobOk(t, cfg, j) { assert JobOk(s, cfg, j); }
    forall v | 0 <= v < |t.workers| ensures WorkerOk(t, v) { assert WorkerOk(s, v); }
  }

  lemma SendKeeps(p: Provider, key: string)
    requires ProviderOk(p)
    ensures ProviderOk(Send(p, key).0)
    ensures Send(p, key).1 <==> key in Send(p, key).0.sent
    ensures forall k :: k in p.sent ==> k in Send(p, key).0.sent && Send(p, key).0.sent[k] == p.sent[k]
  {
  }

  /** A transition allowed on the job as read, saved at the version as read. */
  lemma SaveKeeps(s: System, cfg: Settings, j: nat, seen: Job, t: Transition, attempts: seq<Attempt>, now: int)
    requires Inv(s, cfg) && SeenOk(s, j, seen) && Save(s, j, seen, t, attempts, now).Some?
    requires attempts == match t
      case MarkFailed => [Attempt(j, false)]
      case MarkDelivered => [Attempt(j, true)]
      case _ => []
    requires t.MarkDelivered? ==> SendKey(j) in s.provider.sent
    requires t.DeadLetter? ==> seen.retries >= cfg.maxRetries
    requires t.StartDelivering? ==> !(seen.status.Failed? && seen.retries >= cfg.maxRetries)
    ensures Inv(Save(s, j, seen, t, attempts, now).value, cfg)
  {
    var u := Save(s, j, seen, t, attempts, now).value;
    SaveKeepsJob(s, cfg, j, seen, t, attempts, now);
    forall i | 0 <= i < |u.jobs| && i != j ensures JobOk(u, cfg, i) {
      assert JobOk(s, cfg, i);
      SaveKeepsOtherJob(s, cfg, j, seen, t, attempts, now, i);
    }
    SaveKeepsWorkers(s, cfg, j, seen, t, attempts, now);
  }

  lemma SaveKeepsOtherJob(s: System, cfg: Settings, j: nat, seen: Job, t: Transition, attempts: seq<Attempt>, now: int, i: nat)
    requires j < |s.jobs| && i < |s.jobs| && i != j && JobOk(s, cfg, i) && Save(s, j, seen, t, attempts, now).Some?
    requires attempts == [] || exists ok :: attempts == [Attempt(j, ok)]
    ensures JobOk(Save(s, j, seen, t, attempts, now).value, cfg, i)
  {
    var u := Save(s, j, seen, t, attempts, now).value;
    assert u.audit == s.audit + [Change(j, t)] && u.audit[..|s.audit|] == s.audit;
    assert attempts == [] ==> u.attempts == s.attempts;
    assert attempts != [] ==> u.attempts[..|s.attempts|] == s.attempts;
  }

  lemma TalliesAfter(job: Job, cfg: Settings, t: Transition, failures: nat, successes: nat, moves: nat, now: int)
    requires Tallies(job, cfg, failures, successes, moves) && t.From(job.status)
    requires t.DeadLetter? ==> job.retries >= cfg.maxRetries
    requires t.StartDelivering? ==> !(job.status.Failed? && job.retries >= cfg.maxRetries)
    ensures Tallies(Job(t.Target(), if t.MarkFailed? then job.retries + 1 else job.retries, job.version + 1, now), cfg,
                    if t.MarkFailed? then failures + 1 else failures, if t.MarkDelivered? then successes + 1 else successes, moves + 1)
  {
  }

  lemma SaveKeepsJob(s: System, cfg: Settings, j: nat, seen: Job, t: Transition, attempts: seq<Attempt>, now: int)
    requires SeenOk(s, j, seen) && JobOk(s, cfg, j) && Save(s, j, seen, t, attempts, now).Some?
    requires attempts == match t
      case MarkFailed => [Attempt(j, false)]
      case MarkDelivered => [Attempt(j, true)]
      case _ => []
    requires t.MarkDelivered? ==> SendKey(j) in s.provider.sent
    requires t.DeadLetter? ==> seen.retries >= cfg.maxRetries
    requires t.StartDelivering? ==> !(seen.status.Failed? && seen.retries >= cfg.maxRetries)
    ensures JobOk(Save(s, j, seen, t, attempts, now).value, cfg, j)
  {
    var u := Save(s, j, seen, t, attempts, now).value;
    assert u.audit == s.audit + [Change(j, t)] && u.audit[..|s.audit|] == s.audit;
    assert attempts == [] ==> u.attempts == s.attempts;
    assert attempts != [] ==> u.attempts[..|s.attempts|] == s.attempts;
    TalliesAfter(seen, cfg, t, Attempts(s.attempts, j, false), Attempts(s.attempts, j, true), Transitions(s.audit, j), now);
  }

  /** What other workers have read is as old as it was, or older. */
  lemma SaveKeepsWorkers(s: System, cfg: Settings, j: nat, seen: Job, t: Transition, attempts: seq<Attempt>, now: int)
    requires Inv(s, cfg) && j < |s.jobs| && Save(s, j, seen, t, attempts, now).Some?
    ensures var u := Save(s, j, seen, t, attempts, now).value;
      forall w :: 0 <= w < |u.workers| ==> WorkerOk(u, w)
  {
    var u := Save(s, j, seen, t, attempts, now).value;
    forall w | 0 <= w < |u.workers| ensures WorkerOk(u, w) { assert WorkerOk(s, w); }
  }

  lemma ClaimKeeps(s: System, cfg: Settings, w: nat, now: int)
    requires Inv(s, cfg) && w < |s.workers| && s.workers[w].Claiming?
    ensures Inv(StepWorker(s, cfg, Claim(w, now), w), cfg)
  {
    var j, seen := s.workers[w].job, s.workers[w].seen;
    var t := ClaimTransition(cfg, seen);
    assert WorkerOk(s, w);
    var saved := Save(s, j, seen, t, [], now);
    if saved.Some? {
      SaveKeeps(s, cfg, j, seen, t, [], now);
      WorkerStepKeeps(saved.value, cfg, w, if t.DeadLetter? then Idle else Sending(j), s.provider);
    } else {
      WorkerStepKeeps(s, cfg, w, Idle, s.provider);
    }
  }

  lemma RecordKeeps(s: System, cfg: Settings, w: nat, now: int)
    requires Inv(s, cfg) && w < |s.workers| && s.workers[w].Recording?
    ensures Inv(StepWorker(s, cfg, Record(w, now), w), cfg)
  {
    var j, seen, accepted := s.workers[w].job, s.workers[w].seen, s.workers[w].accepted;
    assert WorkerOk(s, w);
    var saved := Save(s, j, seen, RecordTransition(accepted), [Attempt(j, accepted)], now);
    if saved.Some? {
      SaveKeeps(s, cfg, j, seen, RecordTransition(accepted), [Attempt(j, accepted)], now);
      WorkerStepKeeps(saved.value, cfg, w, Idle, s.provider);
    } else {
      WorkerStepKeeps(s, cfg, w, Idle, s.provider);
    }
  }

  lemma StepWorkerKeeps(s: System, cfg: Settings, a: Action, w: nat)
    requires Inv(s, cfg) && w < |s.workers|
    ensures Inv(StepWorker(s, cfg, a, w), cfg)
  {
    assert WorkerOk(s, w);
    match (a, s.workers[w])
    case (Take(_, j), Idle) => if j < |s.jobs| { WorkerStepKeeps(s, cfg, w, Claiming(j, s.jobs[j]), s.provider); }
    case (Claim(v, now), Claiming(_, _)) => ClaimKeeps(s, cfg, w, now);
    case (Call(_, sendable), Sending(j)) =>
      SendKeeps(s.provider, SendKey(j));
      if sendable {
        WorkerStepKeeps(s, cfg, w, Answered(j, Send(s.provider, SendKey(j)).1), Send(s.provider, SendKey(j)).0);
      } else {
        WorkerStepKeeps(s, cfg, w, Answered(j, false), s.provider);
      }
    case (Reread(_), Answered(j, accepted)) =>
      if j < |s.jobs| { WorkerStepKeeps(s, cfg, w, Recording(j, accepted, s.jobs[j]), s.provider); }
    case (Record(_, now), Recording(_, _, _)) => RecordKeeps(s, cfg, w, now);
    case (Crash(_), _) => WorkerStepKeeps(s, cfg, w, Idle, s.provider);
    case _ =>
  }

  lemma StepKeeps(s: System, cfg: Settings, a: Action)
    requires Inv(s, cfg)
    ensures Inv(Step(s, cfg, a), cfg)
  {
    match a
    case Create(now) => CreateKeeps(s, cfg, now);
    case FailNext(key) =>
      var t := Step(s, cfg, a);
      forall j | 0 <= j < |t.jobs| ensures JobOk(t, cfg, j) { assert JobOk(s, cfg, j); }
      forall w | 0 <= w < |t.workers| ensures WorkerOk(t, w) { assert WorkerOk(s, w); }
    case Reap(j, now) =>
      if j < |s.jobs| && ReapOne(s, cfg, j, now).Some? {
        SaveKeeps(s, cfg, j, s.jobs[j], MarkFailed, [Attempt(j, false)], now);
      }
    case _ => if a.worker < |s.workers| { StepWorkerKeeps(s, cfg, a, a.worker); }
  }

  lemma {:induction false} ExecuteKeeps(s: System, cfg: Settings, run: seq<Action>)
    requires Inv(s, cfg)
    ensures Inv(Execute(s, cfg, run), cfg)
    decreases |run|
  {
    if run != [] {
      ExecuteKeeps(s, cfg, run[..|run| - 1]);
      StepKeeps(Execute(s, cfg, run[..|run| - 1]), cfg, run[|run| - 1]);
    }
  }
}
