/**
 The producer and the relay as they run, over the tables of `Outbox`.
 */
module OutboxService {
  import opened KeyOrder
  import opened Outbox

  /** How many rows of a batch are published. */
  function Succeeding(batch: seq<Seen>, failing: set<nat>): nat {
    if batch == [] then 0 else (if batch[0].id in failing then 0 else 1) + Succeeding(batch[1..], failing)
  }

  /** Each row of the batch that is not failing counts once. */
  lemma {:induction false} SucceedingCounted(batch: seq<Seen>, failing: set<nat>)
    ensures Succeeding(batch, failing) == |set a | 0 <= a < |batch| && batch[a].id !in failing|
  {
    var all := set a | 0 <= a < |batch| && batch[a].id !in failing;
    if batch == [] {
      assert all == {};
    } else {
      var n := |batch| - 1;
      SucceedingCounted(batch[..n], failing);
      SucceedingAppend(batch[..n], batch[n], failing);
      assert batch == batch[..n] + [batch[n]];
      var before := set a | 0 <= a < |batch[..n]| && batch[..n][a].id !in failing;
      assert all == if batch[n].id in failing then before else before + {n};
    }
  }

  lemma {:induction false} SucceedingAppend(front: seq<Seen>, last: Seen, failing: set<nat>)
    ensures Succeeding(front + [last], failing) == Succeeding(front, failing) + if last.id in failing then 0 else 1
  {
    if front == [] {
      assert front + [last] == [last];
    } else {
      assert (front + [last])[1..] == front[1..] + [last];
      SucceedingAppend(front[1..], last, failing);
    }
  }

  class OutboxRelay {
    const maxAttempts: int
    var times: seq<int>
    var rows: seq<Row>
    var events: seq<nat>

    constructor (maxAttempts: int)
      ensures this.maxAttempts == maxAttempts && State() == Box([], [], [])
      ensures Valid()
    {
      this.maxAttempts := maxAttempts;
      times, rows, events := [], [], [];
    }

    function State(): Box
      reads this
    {
      Box(times, rows, events)
    }

    /** One event per row at most, each published row has its event, pending rows have attempts left. */
    ghost predicate Valid()
      reads this
    {
      BoxOk(State()) && RowsOk(State(), maxAttempts)
    }

    method RecordEvent(at: int, tenant: int)
      requires Valid()
      modifies this
      ensures Valid()
      ensures State() == Box(old(times) + [at], old(rows) + [Row(tenant, Pending, 0)], old(events))
    {
      assert |rows| !in events;
      times, rows := times + [at], rows + [Row(tenant, Pending, 0)];
    }

    method PromoteRow(id: nat)
      requires id < |rows|
      modifies this`rows, this`events
      ensures State() == Promote(old(State()), id)
    {
      if id !in events { events := events + [id]; }
      if rows[id].status.Pending? { rows := rows[id := rows[id].(status := Published)]; }
    }

    method DeadLetterRow(seen: Seen)
      requires seen.id < |rows|
      modifies this`rows
      ensures State() == DeadLetter(old(State()), seen, maxAttempts)
    {
      rows := rows[seen.id := rows[seen.id].(attempts := rows[seen.id].attempts + 1)];
      if seen.attempts + 1 >= maxAttempts && rows[seen.id].status.Pending? {
        rows := rows[seen.id := rows[seen.id].(status := DeadLettered)];
      }
    }

    /** One transaction a row; a bad row does not stop the others. */
    method PublishRows(batch: seq<Seen>, failing: set<nat>) returns (published: nat)
      requires forall a :: 0 <= a < |batch| ==> batch[a].id < |rows|
      modifies this`rows, this`events
      ensures State() == PublishAll(old(State()), batch, failing, maxAttempts)
      ensures published == Succeeding(batch, failing)
    {
      published := 0;
      var i := 0;
      assert batch[0..] == batch;
      while i < |batch|
        invariant 0 <= i <= |batch| && |rows| == |old(rows)|
        invariant PublishAll(old(State()), batch, failing, maxAttempts) == PublishAll(State(), batch[i..], failing, maxAttempts)
        invariant published + Succeeding(batch[i..], failing) == Succeeding(batch, failing)
      {
        assert batch[i..][0] == batch[i] && batch[i..][1..] == batch[i + 1..];
        if batch[i].id in failing {
          DeadLetterRow(batch[i]);
        } else {
          PromoteRow(batch[i].id);
          published := published + 1;
        }
        i := i + 1;
      }
      assert batch[i..] == [];
    }

    /** The invariant is kept, and the failures still possible go down by at least the size of the batch. */
    method PublishBatch(size: nat, failing: set<nat>) returns (published: nat)
      requires Valid()
      modifies this`rows, this`events
      ensures Valid()
      ensures State() == PublishAll(old(State()), ReadBatch(old(State()), size), failing, maxAttempts)
      ensures published == Succeeding(ReadBatch(old(State()), size), failing)
      ensures TotalLeft(rows, maxAttempts) + |ReadBatch(old(State()), size)| <= TotalLeft(old(rows), maxAttempts)
    {
      var batch := ReadBatch(State(), size);
      ReadIsCurrent(State(), size);
      BatchProgresses(State(), batch, failing, maxAttempts);
      published := PublishRows(batch, failing);
    }
  }
}
