/**
 When a claimed job may be taken back: the claim stamps the row, and the reaper goes by that stamp.
 */
module DeliveryTiming {
  import opened Outcomes
  import opened Delivery

  /** A job begins pending, never tried, and stamped with its creation. */
  lemma CreateExact(s: System, cfg: Settings, now: int)
    ensures Step(s, cfg, Create(now)) == s.(jobs := s.jobs + [Job(Pending, 0, 0, now)])
  {
  }

  /** What a claim makes of the job its worker has read: a delivery that begins now, the end of the retries,
      or nothing when the job has moved on or may not be claimed. */
  lemma ClaimExact(s: System, cfg: Settings, w: nat, c: int)
    requires w < |s.workers| && s.workers[w].Claiming? && s.workers[w].job < |s.jobs|
    ensures var j, seen := s.workers[w].job, s.workers[w].seen;
      var u := Step(s, cfg, Claim(w, c));
      if s.jobs[j].version != seen.version || seen.status == Delivering || seen.status == Delivered || seen.status == DeadLettered
      then u == s.(workers := s.workers[w := Idle])
      else if seen.status == Failed && seen.retries >= cfg.maxRetries
      then
        && u.jobs == s.jobs[j := Job(DeadLettered, seen.retries, seen.version + 1, c)]
        && u.workers == s.workers[w := Idle] && u.attempts == s.attempts && u.provider == s.provider
      else
        && u.jobs == s.jobs[j := Job(Delivering, seen.retries, seen.version + 1, c)]
        && u.workers == s.workers[w := Sending(j)] && u.attempts == s.attempts && u.provider == s.provider
  {
    assert s.attempts + [] == s.attempts;
  }

  /** Every transition of a job raises its version: at the same version it is the same row. */
  lemma StepRaises(s: System, cfg: Settings, a: Action, j: nat)
    requires j < |s.jobs|
    ensures var t := Step(s, cfg, a);
      j < |t.jobs| && t.jobs[j].version >= s.jobs[j].version && (t.jobs[j].version == s.jobs[j].version ==> t.jobs[j] == s.jobs[j])
  {
  }

  lemma {:induction false} RunRaises(s: System, cfg: Settings, run: seq<Action>, j: nat)
    requires j < |s.jobs|
    ensures var t := Execute(s, cfg, run);
      j < |t.jobs| && t.jobs[j].version >= s.jobs[j].version && (t.jobs[j].version == s.jobs[j].version ==> t.jobs[j] == s.jobs[j])
    decreases |run|
  {
    if run != [] {
      RunRaises(s, cfg, run[..|run| - 1], j);
      StepRaises(Execute(s, cfg, run[..|run| - 1]), cfg, run[|run| - 1], j);
    }
  }

  /** A delivery of job j began with a claim at time c. */
  ghost predicate Began(s: System, cfg: Settings, w: nat, c: int, j: nat) {
    && w < |s.workers| && s.workers[w].Claiming? && s.workers[w].job == j < |s.jobs|
    && Step(s, cfg, Claim(w, c)).workers[w] == Sending(j)
  }

  /** No transition of the job lies between the two states. */
  predicate SameDelivery(u: System, t: System, j: nat) {
    j < |u.jobs| && j < |t.jobs| && t.jobs[j].version == u.jobs[j].version
  }

  /** One job looked at by the reaper. */
  lemma ReapExact(s: System, cfg: Settings, j: nat, now: int)
    requires j < |s.jobs|
    ensures var t := Step(s, cfg, Reap(j, now));
      if s.jobs[j].status == Delivering && s.jobs[j].updated + cfg.timeout < now
      then
        && t.jobs == s.jobs[j := Job(Failed, s.jobs[j].retries + 1, s.jobs[j].version + 1, now)]
        && t.attempts == s.attempts + [Attempt(j, false)] && t.provider == s.provider && t.workers == s.workers
      else t == s
  {
  }

  /**
   Whatever else happens, while a delivery that began at time c is still that delivery, the reaper leaves the
   job alone at every time up to c plus the timeout, and takes it back, as one more failure, at every later one.
   */
  lemma ReapedExactlyAfter(s: System, cfg: Settings, w: nat, c: int, j: nat, run: seq<Action>, now: int)
    requires Began(s, cfg, w, c, j)
    requires SameDelivery(Step(s, cfg, Claim(w, c)), Execute(Step(s, cfg, Claim(w, c)), cfg, run), j)
    ensures var t := Execute(Step(s, cfg, Claim(w, c)), cfg, run);
      var reaped := Step(t, cfg, Reap(j, now));
      && t.jobs[j].status == Delivering && t.jobs[j].updated == c
      && (now <= c + cfg.timeout ==> reaped == t)
      && (now > c + cfg.timeout ==>
            && reaped.jobs == t.jobs[j := Job(Failed, t.jobs[j].retries + 1, t.jobs[j].version + 1, now)]
            && reaped.attempts == t.attempts + [Attempt(j, false)]
            && reaped.provider == t.provider && reaped.workers == t.workers)
  {
    ClaimExact(s, cfg, w, c);
    var u := Step(s, cfg, Claim(w, c));
    assert u.jobs[j].status == Delivering && u.jobs[j].updated == c;
    RunRaises(u, cfg, run, j);
    ReapExact(Execute(u, cfg, run), cfg, j, now);
  }
}
