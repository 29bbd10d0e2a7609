/**
 The (time, id) order in which queries list rows, and sorting by it.
 */
module KeyOrder {
  /** Ids are positions in the log; the log holds when each event occurred. */
  datatype Key = Key(at: int, id: nat)
  {
    predicate Less(other: Key) {
      at < other.at || (at == other.at && id < other.id)
    }
  }

  type Log = seq<int>

  function KeyOf(log: Log, id: nat): Key
    requires id < |log|
  {
    Key(log[id], id)
  }

  predicate Within(log: Log, order: seq<nat>) {
    forall a :: 0 <= a < |order| ==> order[a] < |log|
  }

  /** Put an id behind all with a smaller key. */
  function Insert(log: Log, order: seq<nat>, id: nat): (r: seq<nat>)
    requires id < |log| && Within(log, order)
    ensures Within(log, r) && |r| == |order| + 1
    ensures forall i: nat :: i in r <==> i in order || i == id
  {
    if order == [] then [id]
    else
      var front, last := order[..|order| - 1], order[|order| - 1];
      assert order == front + [last];
      if KeyOf(log, id).Less(KeyOf(log, last)) then Insert(log, front, id) + [last] else order + [id]
  }

  ghost predicate Sorted(log: Log, order: seq<nat>) {
    && Within(log, order)
    && (forall a, b :: 0 <= a < b < |order| ==> KeyOf(log, order[a]).Less(KeyOf(log, order[b])))
  }

  lemma {:induction false} InsertSorts(log: Log, order: seq<nat>, id: nat)
    requires id < |log| && Sorted(log, order) && id !in order
    ensures Sorted(log, Insert(log, order, id))
  {
    if order != [] {
      var front, last := order[..|order| - 1], order[|order| - 1];
      assert order == front + [last];
      if KeyOf(log, id).Less(KeyOf(log, last)) {
        InsertSorts(log, front, id);
        var r := Insert(log, front, id);
        forall a | 0 <= a < |r| ensures KeyOf(log, r[a]).Less(KeyOf(log, last)) {
          assert r[a] in r;
          if r[a] in front { assert exists b :: 0 <= b < |front| && front[b] == r[a]; }
        }
      } else {
        forall a | 0 <= a < |order| ensures KeyOf(log, order[a]).Less(KeyOf(log, id)) {
          assert order[a] in order && last in order;
        }
      }
    }
  }
}
