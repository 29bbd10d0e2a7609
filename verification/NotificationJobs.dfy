/**
 Folding notifiable events into notification jobs: at most one job per event and channel, however
 often, by however many projectors and in whatever order an event is folded.
 */
module NotificationJobs {
  import opened Outcomes
  import opened EventLog
  import opened KeyOrder

  const CHANNELS: seq<string> := ["email"]

  /** One guest's answer to being notified: the channels not suppressed for it. */
  datatype Recipient = Recipient(guest: int, wanted: set<string>)

  /** A job belongs to one event and one channel; that pair is unique. */
  datatype Job = Job(event: nat, channel: string, guest: int)

  /** The unique constraint on (source event, channel). */
  predicate Exists(jobs: seq<Job>, event: nat, channel: string) {
    exists i :: 0 <= i < |jobs| && jobs[i].event == event && jobs[i].channel == channel
  }

  /** One insert, in its own savepoint: a violation of the constraint is swallowed. */
  function Insert(jobs: seq<Job>, job: Job): seq<Job> {
    if Exists(jobs, job.event, job.channel) then jobs else jobs + [job]
  }

  /** The first n channels of one event. */
  function ApplyChannels(jobs: seq<Job>, event: nat, to: Recipient, n: nat): seq<Job>
    requires n <= |CHANNELS|
  {
    if n == 0 then jobs
    else
      var before := ApplyChannels(jobs, event, to, n - 1);
      if CHANNELS[n - 1] in to.wanted then Insert(before, Job(event, CHANNELS[n - 1], to.guest)) else before
  }

  function ApplyEvent(jobs: seq<Job>, event: nat, to: Option<Recipient>): seq<Job> {
    if to.None? then jobs else ApplyChannels(jobs, event, to.value, |CHANNELS|)
  }

  /** One application of an event, with whoever is its recipient at that moment. */
  datatype Folding = Folding(event: nat, to: Option<Recipient>)

  function Jobs(history: seq<Folding>): seq<Job> {
    if history == [] then []
    else
      var last := history[|history| - 1];
      ApplyEvent(Jobs(history[..|history| - 1]), last.event, last.to)
  }

  predicate Unique(jobs: seq<Job>) {
    forall a, b :: 0 <= a < b < |jobs| ==> jobs[a].event != jobs[b].event || jobs[a].channel != jobs[b].channel
  }

  lemma {:induction false} ApplyChannelsExact(jobs: seq<Job>, event: nat, to: Recipient, n: nat)
    requires Unique(jobs) && n <= |CHANNELS|
    ensures Unique(ApplyChannels(jobs, event, to, n)) && jobs <= ApplyChannels(jobs, event, to, n)
    ensures forall e, c :: Exists(ApplyChannels(jobs, event, to, n), e, c) <==>
      Exists(jobs, e, c) || (e == event && c in CHANNELS[..n] && c in to.wanted)
  {
    if n > 0 {
      ApplyChannelsExact(jobs, event, to, n - 1);
      var before, after := ApplyChannels(jobs, event, to, n - 1), ApplyChannels(jobs, event, to, n);
      assert CHANNELS[..n] == CHANNELS[..n - 1] + [CHANNELS[n - 1]];
      forall e, c | Exists(before, e, c) ensures Exists(after, e, c) {
        var i :| 0 <= i < |before| && before[i].event == e && before[i].channel == c;
        assert after[i] == before[i];
      }
      if CHANNELS[n - 1] in to.wanted && after != before {
        assert after[|before|] == Job(event, CHANNELS[n - 1], to.guest);
        assert Exists(after, event, CHANNELS[n - 1]);
      }
    }
  }

  /** An event was folded while its recipient wanted the channel. */
  ghost predicate Wanted(history: seq<Folding>, event: nat, channel: string) {
    exists i :: 0 <= i < |history| && history[i].event == event && history[i].to.Some? && channel in history[i].to.value.wanted
  }

  /** For any history of foldings: one job per event and channel, and exactly where one was ever wanted, which
      for now can be by e-mail only. */
  lemma {:induction false} JobsExact(history: seq<Folding>)
    ensures Unique(Jobs(history))
    ensures forall e, c :: Exists(Jobs(history), e, c) <==> c == "email" && Wanted(history, e, c)
    ensures forall e, c :: Exists(Jobs(history), e, c) <==> c in CHANNELS && Wanted(history, e, c)
  {
    if history != [] {
      var front, last := history[..|history| - 1], history[|history| - 1];
      JobsExact(front);
      forall e, c ensures Wanted(history, e, c) <==>
        Wanted(front, e, c) || (last.event == e && last.to.Some? && c in last.to.value.wanted)
      {
        if Wanted(front, e, c) {
          var i :| 0 <= i < |front| && front[i].event == e && front[i].to.Some? && c in front[i].to.value.wanted;
          assert history[i] == front[i];
        }
      }
      if last.to.Some? { ApplyChannelsExact(Jobs(front), last.event, last.to.value, |CHANNELS|); }
      assert CHANNELS[..|CHANNELS|] == CHANNELS;
    }
  }

  /** Folding an event again changes nothing while its recipient is the same. */
  lemma RefoldIsNoop(history: seq<Folding>, again: Folding)
    requires again in history
    ensures Jobs(history + [again]) == Jobs(history)
  {
    assert (history + [again])[..|history|] == history;
    JobsExact(history);
    if again.to.Some? {
      var i :| 0 <= i < |history| && history[i] == again;
      forall c | c in CHANNELS && c in again.to.value.wanted ensures Exists(Jobs(history), again.event, c) {
        assert Wanted(history, again.event, c);
      }
      NothingToAdd(Jobs(history), again.event, again.to.value, |CHANNELS|);
    }
  }

  lemma {:induction false} NothingToAdd(jobs: seq<Job>, event: nat, to: Recipient, n: nat)
    requires n <= |CHANNELS|
    requires forall c :: c in CHANNELS && c in to.wanted ==> Exists(jobs, event, c)
    ensures ApplyChannels(jobs, event, to, n) == jobs
  {
    if n > 0 { NothingToAdd(jobs, event, to, n - 1); }
  }

  // ---------------------------------------------------------------- the projector

  /** The events folded, in the order they were. */
  function Events(history: seq<Folding>): (ids: seq<nat>)
    ensures |ids| == |history|
  {
    seq(|history|, i requires 0 <= i < |history| => history[i].event)
  }

  /** Whom an event concerns when it is folded; reading it may raise. */
  type Resolver = nat -> Result<Option<Recipient>>

  /** The foldings of the given events, each with the recipient it then has. */
  function FoldingsOf(ids: seq<nat>, resolve: Resolver): (fs: seq<Folding>)
    requires forall i :: 0 <= i < |ids| ==> resolve(ids[i]).Ok?
    ensures |fs| == |ids|
  {
    seq(|ids|, i requires 0 <= i < |ids| => Folding(ids[i], resolve(ids[i]).value))
  }

  /** The first n events of a batch have been folded. */
  ghost predicate FoldedUpTo(was: seq<Folding>, history: seq<Folding>, batch: seq<nat>, resolve: Resolver, n: nat) {
    && n <= |batch| && (forall i :: 0 <= i < n ==> resolve(batch[i]).Ok?)
    && history == was + FoldingsOf(batch[..n], resolve)
  }

  lemma FoldOneMore(was: seq<Folding>, history: seq<Folding>, batch: seq<nat>, resolve: Resolver, n: nat)
    requires FoldedUpTo(was, history, batch, resolve, n) && n < |batch| && resolve(batch[n]).Ok?
    ensures var folding := Folding(batch[n], resolve(batch[n]).value);
      && FoldedUpTo(was, history + [folding], batch, resolve, n + 1)
      && Jobs(history + [folding]) == ApplyEvent(Jobs(history), folding.event, folding.to)
  {
    var folding := Folding(batch[n], resolve(batch[n]).value);
    assert (history + [folding])[..|history|] == history;
    assert FoldingsOf(batch[..n + 1], resolve) == FoldingsOf(batch[..n], resolve) + [folding];
  }

  class NotificationProjector {
    var times: seq<int>
    var checkpoint: Option<Key>
    var failed: bool
    var jobs: seq<Job>
    ghost var history: seq<Folding>

    constructor ()
      ensures Valid() && Log() == Begin(1) && history == []
    {
      times, checkpoint, failed, jobs, history := [], None, false, [], [];
      BeginReached();
    }

    /** The jobs are those of the events folded so far. */
    ghost predicate Valid()
      reads this
    {
      jobs == Jobs(history) && Reached(Log())
    }

    ghost function Log(): System
      reads this
    {
      System(times, checkpoint, Events(history), [[]])
    }

    /** An event arrives. */
    method Publish(at: int)
      requires Valid()
      modifies this`times
      ensures Valid() && Log() == Step(old(Log()), Append(at))
    {
      AppendReached(Log(), at);
      times := times + [at];
    }

    method HasJob(event: nat, channel: string) returns (found: bool)
      ensures found <==> Exists(jobs, event, channel)
    {
      for i := 0 to |jobs|
        invariant forall j :: 0 <= j < i ==> jobs[j].event != event || jobs[j].channel != channel
      {
        if jobs[i].event == event && jobs[i].channel == channel { return true; }
      }
      return false;
    }

    method Apply(event: nat, to: Option<Recipient>)
      modifies this`jobs
      ensures jobs == ApplyEvent(old(jobs), event, to)
    {
      if to.None? { return; }
      for n := 0 to |CHANNELS|
        invariant jobs == ApplyChannels(old(jobs), event, to.value, n)
      {
        if CHANNELS[n] in to.value.wanted {
          var taken := HasJob(event, CHANNELS[n]);
          if !taken { jobs := jobs + [Job(event, CHANNELS[n], to.value.guest)]; }
        }
      }
    }

    /**
     Exactly the events of the batch before the first whose recipient cannot be read are folded, each with
     the recipient it has then, and the checkpoint ends at the last of them.
     */
    method ProcessBatch(resolve: Resolver, size: nat) returns (processed: nat)
      requires Valid()
      modifies this`checkpoint, this`failed, this`jobs, this`history
      ensures Valid()
      ensures var batch := Batch(times, old(checkpoint), size);
        && FoldedUpTo(old(history), history, batch, resolve, processed)
        && (processed < |batch| ==> failed && resolve(batch[processed]).Err?)
        && (processed == |batch| > 0 ==> !failed)
      ensures Log() == AfterBatch(old(Log()), size, processed)
    {
      var batch := Batch(times, checkpoint, size);
      processed := FoldEvents(batch, resolve);
      assert Events(history) == Events(old(history)) + batch[..processed];
      BatchReached(old(Log()), size, processed);
    }

    /** One transaction an event, up to the first that raises. */
    method FoldEvents(batch: seq<nat>, resolve: Resolver) returns (processed: nat)
      requires jobs == Jobs(history) && Within(times, batch)
      modifies this`checkpoint, this`failed, this`jobs, this`history
      ensures jobs == Jobs(history) && FoldedUpTo(old(history), history, batch, resolve, processed)
      ensures processed < |batch| ==> failed && resolve(batch[processed]).Err?
      ensures processed == |batch| > 0 ==> !failed
      ensures checkpoint == if processed == 0 then old(checkpoint) else Some(KeyOf(times, batch[processed - 1]))
    {
      processed := 0;
      assert history + FoldingsOf([], resolve) == history;
      while processed < |batch|
        invariant jobs == Jobs(history) && FoldedUpTo(old(history), history, batch, resolve, processed)
        invariant processed > 0 ==> !failed
        invariant checkpoint == if processed == 0 then old(checkpoint) else Some(KeyOf(times, batch[processed - 1]))
      {
        var event := batch[processed];
        var recipient := resolve(event);
        if recipient.Err? {
          failed := true;
          return;
        }
        Apply(event, recipient.value);
        checkpoint, failed := Some(KeyOf(times, event)), false;
        FoldOneMore(old(history), history, batch, resolve, processed);
        history := history + [Folding(event, recipient.value)];
        processed := processed + 1;
      }
    }
  }
}
