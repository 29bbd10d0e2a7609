/**
 The notification service and its in-memory provider as they run, one call at a time, tied to the
 steps of `Delivery`.
 */
module NotificationService {
  import opened Outcomes
  import opened Delivery

  class FakeEmailProvider {
    var sent: map<string, string>
    var failing: set<string>
    ghost var recorded: seq<string>

    constructor (failing: set<string>)
      ensures State() == Provider(map[], [], failing)
    {
      sent, this.failing, recorded := map[], failing, [];
    }

    ghost function State(): Provider
      reads this
    {
      Provider(sent, recorded, failing)
    }

    method FailNext(key: string)
      modifies this`failing
      ensures State() == old(State()).(failing := old(failing) + {key})
    {
      failing := failing + {key};
    }

    /** The reference, or none when the provider refuses. */
    method SendMessage(key: string) returns (ref: Option<string>)
      modifies this
      ensures State() == Send(old(State()), key).0
      ensures ref.Some? <==> Send(old(State()), key).1
      ensures ref.Some? ==> key in sent && ref.value == sent[key]
      ensures key in old(sent) ==> ref == Some(old(sent)[key]) && sent == old(sent) && recorded == old(recorded)
      ensures key !in old(sent) && key in old(failing) ==>
        ref.None? && sent == old(sent) && recorded == old(recorded) && failing == old(failing) - {key}
      ensures key !in old(sent) && key !in old(failing) ==>
        ref == Some("fake-" + key) && sent == old(sent)[key := "fake-" + key] && recorded == old(recorded) + [key]
    {
      if key in sent { return Some(sent[key]); }
      if key in failing {
        failing := failing - {key};
        return None;
      }
      sent := sent[key := "fake-" + key];
      recorded := recorded + [key];
      return Some(sent[key]);
    }
  }

  /** One worker's uninterrupted call of `deliver`. */
  function DeliverSteps(j: nat, sendable: bool, now: int): seq<Action> {
    [Take(0, j), Claim(0, now), Call(0, sendable), Reread(0), Record(0, now)]
  }

  ghost function DeliverWhole(s: System, cfg: Settings, j: nat, sendable: bool, now: int): System {
    var claimed := Step(Step(s, cfg, Take(0, j)), cfg, Claim(0, now));
    Step(Step(Step(claimed, cfg, Call(0, sendable)), cfg, Reread(0)), cfg, Record(0, now))
  }

  lemma DeliverIsARun(s: System, cfg: Settings, j: nat, sendable: bool, now: int)
    ensures DeliverWhole(s, cfg, j, sendable, now) == Execute(s, cfg, DeliverSteps(j, sendable, now))
  {
    var r := DeliverSteps(j, sendable, now);
    assert r[..5] == r && r[..0] == [];
    assert forall n :: 0 <= n < 5 ==> r[..n + 1][..n] == r[..n];
    assert Execute(s, cfg, r[..0]) == s;
    assert Execute(s, cfg, r[..1]) == Step(s, cfg, r[0]);
    assert Execute(s, cfg, r[..2]) == Step(Execute(s, cfg, r[..1]), cfg, r[1]);
    assert Execute(s, cfg, r[..3]) == Step(Execute(s, cfg, r[..2]), cfg, r[2]);
    assert Execute(s, cfg, r[..4]) == Step(Execute(s, cfg, r[..3]), cfg, r[3]);
  }

  /** The provider takes the message: it has taken it before, or it is not set to refuse it. */
  predicate Takes(p: Provider, j: nat) {
    SendKey(j) in p.sent || SendKey(j) !in p.failing
  }

  /** The provider after it is handed a message: as it was if it has it already, one refusal fewer if it is set to
      refuse it, and one message more otherwise. */
  function Handed(p: Provider, key: string): Provider {
    if key in p.sent then p
    else if key in p.failing then Provider(p.sent, p.recorded, p.failing - {key})
    else Provider(p.sent[key := "fake-" + key], p.recorded + [key], p.failing)
  }

  /** A job that has been claimed and attempted: delivered, or failed once more. */
  ghost predicate Attempted(s: System, t: System, j: nat, sendable: bool, now: int)
    requires j < |s.jobs|
  {
    var accepted := sendable && Takes(s.provider, j);
    && t.jobs == s.jobs[j := Job(if accepted then Delivered else Failed,
                                 if accepted then s.jobs[j].retries else s.jobs[j].retries + 1, s.jobs[j].version + 2, now)]
    && t.attempts == s.attempts + [Attempt(j, accepted)]
    && t.provider == (if sendable then Handed(s.provider, SendKey(j)) else s.provider)
    && t.workers == [Idle]
  }

  /** What an uninterrupted `deliver` does: nothing to a job that may not be claimed; the end of the retries;
      or one attempt, which succeeds exactly when the message can be made up and the provider takes it. */
  lemma DeliverExact(s: System, cfg: Settings, j: nat, sendable: bool, now: int)
    requires s.workers == [Idle]
    ensures var t := Execute(s, cfg, DeliverSteps(j, sendable, now));
      if j >= |s.jobs| || s.jobs[j].status == Delivering || s.jobs[j].status == Delivered || s.jobs[j].status == DeadLettered
      then t == s
      else if s.jobs[j].status == Failed && s.jobs[j].retries >= cfg.maxRetries
      then
        && t.jobs == s.jobs[j := Job(DeadLettered, s.jobs[j].retries, s.jobs[j].version + 1, now)]
        && t.attempts == s.attempts && t.provider == s.provider && t.workers == [Idle]
      else Attempted(s, t, j, sendable, now)
  {
    DeliverIsARun(s, cfg, j, sendable, now);
    assert s.attempts + [] == s.attempts;
    if j < |s.jobs| && (s.jobs[j].status.Pending? || (s.jobs[j].status.Failed? && s.jobs[j].retries < cfg.maxRetries)) {
      ClaimedDelivers(s, cfg, j, sendable, now);
    }
  }

  lemma ClaimedDelivers(s: System, cfg: Settings, j: nat, sendable: bool, now: int)
    requires s.workers == [Idle] && j < |s.jobs|
    requires s.jobs[j].status == Pending || (s.jobs[j].status == Failed && s.jobs[j].retries < cfg.maxRetries)
    ensures Attempted(s, DeliverWhole(s, cfg, j, sendable, now), j, sendable, now)
  {
    var claimed := Job(Delivering, s.jobs[j].retries, s.jobs[j].version + 1, now);
    var s2 := Step(Step(s, cfg, Take(0, j)), cfg, Claim(0, now));
    assert s.attempts + [] == s.attempts;
    assert s2.jobs == s.jobs[j := claimed] && s2.workers == [Sending(j)] && s2.provider == s.provider && s2.attempts == s.attempts;
    SendingRecords(s2, cfg, j, sendable, now);
  }

  /** The rest of a delivery, from the claim on. */
  lemma SendingRecords(s: System, cfg: Settings, j: nat, sendable: bool, now: int)
    requires s.workers == [Sending(j)] && j < |s.jobs| && s.jobs[j].status == Delivering
    ensures var t := Step(Step(Step(s, cfg, Call(0, sendable)), cfg, Reread(0)), cfg, Record(0, now));
      var accepted := sendable && Takes(s.provider, j);
      && t.jobs == s.jobs[j := Job(if accepted then Delivered else Failed,
                                   if accepted then s.jobs[j].retries else s.jobs[j].retries + 1, s.jobs[j].version + 1, now)]
      && t.attempts == s.attempts + [Attempt(j, accepted)] && t.workers == [Idle]
      && t.provider == (if sendable then Handed(s.provider, SendKey(j)) else s.provider)
  {
    var accepted := sendable && Takes(s.provider, j);
    var s3 := Step(s, cfg, Call(0, sendable));
    assert s3.jobs == s.jobs && s3.workers == [Answered(j, accepted)];
    var s4 := Step(s3, cfg, Reread(0));
    assert s4.workers == [Recording(j, accepted, s.jobs[j])];
  }

  // ---------------------------------------------------------------- the reaper's run

  predicate Stuck(job: Job, cfg: Settings, now: int) {
    job.status.Delivering? && job.updated < now - cfg.timeout
  }

  /** The ids below n of jobs that look stuck. */
  function StuckIds(jobs: seq<Job>, cfg: Settings, now: int, n: nat): seq<nat>
    requires n <= |jobs|
  {
    if n == 0 then []
    else StuckIds(jobs, cfg, now, n - 1) + if Stuck(jobs[n - 1], cfg, now) then [n - 1] else []
  }

  function Reaps(ids: seq<nat>, now: int): seq<Action> {
    seq(|ids|, i requires 0 <= i < |ids| => Reap(ids[i], now))
  }

  function Reaped(job: Job, now: int): Job {
    Job(Failed, job.retries + 1, job.version + 1, now)
  }

  lemma {:induction false} StuckIdsExact(jobs: seq<Job>, cfg: Settings, now: int, n: nat)
    requires n <= |jobs|
    ensures var ids := StuckIds(jobs, cfg, now, n);
      && (forall j: nat :: j in ids <==> j < n && Stuck(jobs[j], cfg, now))
      && (forall a, b :: 0 <= a < b < |ids| ==> ids[a] != ids[b])
  {
    if n > 0 { StuckIdsExact(jobs, cfg, now, n - 1); }
  }

  /** Every one of these jobs failed once, with an attempt, and nothing else changed. */
  ghost predicate AfterReaps(s: System, t: System, ids: seq<nat>, now: int) {
    && |t.jobs| == |s.jobs|
    && (forall j: nat :: j < |s.jobs| ==> t.jobs[j] == if j in ids then Reaped(s.jobs[j], now) else s.jobs[j])
    && t.attempts == s.attempts + seq(|ids|, i requires 0 <= i < |ids| => Attempt(ids[i], false))
    && t.provider == s.provider && t.workers == s.workers
  }

  /** Reaping different stuck jobs one after the other fails each once and touches no other job. */
  lemma {:induction false} ReapsExact(s: System, cfg: Settings, ids: seq<nat>, now: int)
    requires forall a, b :: 0 <= a < b < |ids| ==> ids[a] != ids[b]
    requires forall j :: j in ids ==> j < |s.jobs| && Stuck(s.jobs[j], cfg, now)
    ensures AfterReaps(s, Execute(s, cfg, Reaps(ids, now)), ids, now)
    decreases |ids|
  {
    if ids != [] {
      var front, last := ids[..|ids| - 1], ids[|ids| - 1];
      assert ids == front + [last] && last !in front;
      assert forall j :: j in ids <==> j in front || j == last;
      assert last in ids;
      assert Reaps(ids, now)[..|ids| - 1] == Reaps(front, now);
      ReapsExact(s, cfg, front, now);
      var t := Execute(s, cfg, Reaps(front, now));
      assert Reaps(ids, now)[|ids| - 1] == Reap(last, now);
      ReapsOne(t, cfg, last, now);
      OneMoreReaped(s, t, Step(t, cfg, Reap(last, now)), front, last, now);
    }
  }

  lemma OneMoreReaped(s: System, t: System, u: System, ids: seq<nat>, id: nat, now: int)
    requires AfterReaps(s, t, ids, now) && id < |s.jobs| && id !in ids
    requires u.jobs == t.jobs[id := Reaped(t.jobs[id], now)] && u.attempts == t.attempts + [Attempt(id, false)]
    requires u.provider == t.provider && u.workers == t.workers
    ensures AfterReaps(s, u, ids + [id], now)
  {
  }

  /** One stuck job reaped. */
  lemma ReapsOne(s: System, cfg: Settings, j: nat, now: int)
    requires j < |s.jobs| && Stuck(s.jobs[j], cfg, now)
    ensures var t := Step(s, cfg, Reap(j, now));
      && t.jobs == s.jobs[j := Reaped(s.jobs[j], now)] && t.attempts == s.attempts + [Attempt(j, false)]
      && t.provider == s.provider && t.workers == s.workers
  {
  }

  /** Row by row: exactly the jobs in delivery for longer than the timeout fail, each once. */
  lemma SweepReaps(s: System, cfg: Settings, now: int, j: nat)
    requires j < |s.jobs|
    ensures var t := Execute(s, cfg, Reaps(StuckIds(s.jobs, cfg, now, |s.jobs|), now));
      && |t.jobs| == |s.jobs|
      && t.jobs[j] == if s.jobs[j].status == Delivering && s.jobs[j].updated + cfg.timeout < now
                      then Job(Failed, s.jobs[j].retries + 1, s.jobs[j].version + 1, now) else s.jobs[j]
  {
    StuckIdsExact(s.jobs, cfg, now, |s.jobs|);
    ReapsExact(s, cfg, StuckIds(s.jobs, cfg, now, |s.jobs|), now);
  }

  // ---------------------------------------------------------------- the service

  class Service {
    const cfg: Settings
    const provider: FakeEmailProvider
    var jobs: seq<Job>
    var attempts: seq<Attempt>
    var audit: seq<Change>

    constructor (cfg: Settings, provider: FakeEmailProvider)
      ensures this.cfg == cfg && this.provider == provider
      ensures State() == System([], [], [], provider.State(), [Idle])
    {
      this.cfg, this.provider := cfg, provider;
      jobs, attempts, audit := [], [], [];
    }

    /** The tables and the provider, with one worker at rest. */
    ghost function State(): System
      reads this, provider
    {
      System(jobs, attempts, audit, provider.State(), [Idle])
    }

    /** One transaction: the attempt, if any, and the versioned transition, or nothing. */
    method RunTransition(j: nat, seen: Job, t: Transition, attempt: seq<Attempt>, now: int) returns (done: bool)
      requires j < |jobs|
      modifies this
      ensures done <==> Save(old(State()), j, seen, t, attempt, now).Some?
      ensures State() == if done then Save(old(State()), j, seen, t, attempt, now).value else old(State())
    {
      if !t.From(seen.status) { return false; }
      if jobs[j].version != seen.version { return false; }
      var retries := if t.MarkFailed? then seen.retries + 1 else seen.retries;
      jobs := jobs[j := Job(t.Target(), retries, seen.version + 1, now)];
      attempts := attempts + attempt;
      audit := audit + [Change(j, t)];
      return true;
    }

    ghost function With(worker: Worker): System
      reads this, provider
    {
      System(jobs, attempts, audit, provider.State(), [worker])
    }

    /** First transaction: claim the job, or dead-letter it at the ceiling. */
    method ClaimJob(j: nat, now: int) returns (worker: Worker)
      modifies this
      ensures With(worker) == Step(Step(old(State()), cfg, Take(0, j)), cfg, Claim(0, now))
      ensures worker.Idle? || (worker.Sending? && worker.job == j < |jobs|)
    {
      if j >= |jobs| { return Idle; }
      var seen := jobs[j];
      var t := ClaimTransition(cfg, seen);
      var claimed := RunTransition(j, seen, t, [], now);
      return if claimed && t.StartDelivering? then Sending(j) else Idle;
    }

    /** No transaction open: the provider's answer, if the message can be addressed and rendered. */
    method CallProvider(j: nat, sendable: bool) returns (worker: Worker)
      modifies provider
      ensures With(worker) == Step(old(With(Sending(j))), cfg, Call(0, sendable))
      ensures worker.Answered? && worker.job == j
    {
      if !sendable { return Answered(j, false); }
      var ref := provider.SendMessage(SendKey(j));
      return Answered(j, ref.Some?);
    }

    /** Second transaction: the attempt and the outcome. */
    method RecordOutcome(j: nat, accepted: bool, now: int)
      requires j < |jobs|
      modifies this
      ensures State() == Step(Step(old(With(Answered(j, accepted))), cfg, Reread(0)), cfg, Record(0, now))
    {
      var done := RunTransition(j, jobs[j], RecordTransition(accepted), [Attempt(j, accepted)], now);
    }

    /** Claim, call the provider, record; nothing if there is no such job or it may not be claimed. */
    method Deliver(j: nat, sendable: bool, now: int)
      modifies this, provider
      ensures State() == Execute(old(State()), cfg, DeliverSteps(j, sendable, now))
    {
      DeliverIsARun(State(), cfg, j, sendable, now);
      var worker := ClaimJob(j, now);
      if worker.Sending? {
        worker := CallProvider(j, sendable);
        RecordOutcome(j, worker.accepted, now);
      }
    }

    /** The unlocked scan. */
    method ScanForStuck(now: int) returns (ids: seq<nat>)
      ensures ids == StuckIds(jobs, cfg, now, |jobs|)
    {
      ids := [];
      for j := 0 to |jobs|
        invariant ids == StuckIds(jobs, cfg, now, j)
      {
        if Stuck(jobs[j], cfg, now) { ids := ids + [j]; }
      }
    }

    /** One job, looked at again under its lock. */
    method ReapJob(id: nat, now: int) returns (done: bool)
      requires id < |jobs|
      modifies this
      ensures State() == Step(old(State()), cfg, Reap(id, now)) && |jobs| == |old(jobs)|
      ensures done <==> Stuck(old(jobs)[id], cfg, now)
      ensures forall k :: 0 <= k < |jobs| && k != id ==> jobs[k] == old(jobs)[k]
    {
      var job := jobs[id];
      if !Stuck(job, cfg, now) { return false; }
      done := RunTransition(id, job, MarkFailed, [Attempt(id, false)], now);
    }

    /** Scan for stuck jobs, then look at each again under its lock before failing it. */
    method ReapStuckDelivering(now: int) returns (reaped: nat)
      modifies this
      ensures var ids := StuckIds(old(jobs), cfg, now, |old(jobs)|);
        State() == Execute(old(State()), cfg, Reaps(ids, now)) && reaped == |ids|
    {
      var ids := ScanForStuck(now);
      StuckIdsExact(jobs, cfg, now, |jobs|);
      forall k | 0 <= k < |ids| ensures ids[k] < |jobs| && Stuck(jobs[ids[k]], cfg, now) { assert ids[k] in ids; }
      reaped := 0;
      assert Reaps(ids[..0], now) == [];
      for i := 0 to |ids|
        invariant reaped == i && |jobs| == |old(jobs)|
        invariant State() == Execute(old(State()), cfg, Reaps(ids[..i], now))
        invariant forall k :: i <= k < |ids| ==> Stuck(jobs[ids[k]], cfg, now)
      {
        assert Reaps(ids[..i + 1], now)[..i] == Reaps(ids[..i], now);
        var done := ReapJob(ids[i], now);
        if done { reaped := reaped + 1; }
      }
      assert ids[..|ids|] == ids;
    }
  }
}
