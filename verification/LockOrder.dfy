/**
 Why taking locks in ascending order cannot deadlock, for any kind of resource.
 */
module LockOrder {
  import opened Outcomes

  /** Each waiting party waits for something above everything it holds. */
  ghost predicate Ascending<R(!new)>(waits: seq<Option<R>>, owner: map<R, nat>, rank: R -> int) {
    forall r :: r in owner ==>
      owner[r] < |waits| && (waits[owner[r]].Some? ==> rank(waits[owner[r]].value) > rank(r))
  }

  /** Nothing it waits for is held. */
  ghost predicate Runnable<R>(waits: seq<Option<R>>, owner: map<R, nat>, j: nat)
    requires j < |waits|
  {
    waits[j].None? || waits[j].value !in owner
  }

  /**
   Following the chain of owners from any party leads to one that can run: ranks only go up along
   the chain, so it cannot come round again.
   */
  lemma {:induction false} SomeoneCanRun<R(!new)>(waits: seq<Option<R>>, owner: map<R, nat>, rank: R -> int, i: nat)
    returns (j: nat)
    requires i < |waits| && Ascending(waits, owner, rank)
    ensures j < |waits| && Runnable(waits, owner, j)
    ensures j == i || exists r :: r in owner && owner[r] == j
    decreases |Above(owner, rank, waits[i])|
  {
    if Runnable(waits, owner, i) { return i; }
    var r := waits[i].value;
    j := owner[r];
    if !Runnable(waits, owner, j) {
      assert r in Above(owner, rank, waits[i]) && r !in Above(owner, rank, waits[j]);
      assert Above(owner, rank, waits[j]) < Above(owner, rank, waits[i]);
      Smaller(Above(owner, rank, waits[j]), Above(owner, rank, waits[i]));
      j := SomeoneCanRun(waits, owner, rank, j);
    }
  }

  /** The held resources at or above the one waited for. */
  ghost function Above<R>(owner: map<R, nat>, rank: R -> int, wait: Option<R>): set<R> {
    set r | r in owner && wait.Some? && rank(r) >= rank(wait.value)
  }

  lemma {:induction false} Smaller<T>(a: set<T>, b: set<T>)
    requires a < b
    ensures |a| < |b|
    decreases a
  {
    if a == {} {
      assert b != {};
    } else {
      var x :| x in a;
      Smaller(a - {x}, b - {x});
    }
  }

  // ---------------------------------------------------------------- going round in circles

  /** Every party in play has a next one in play. */
  ghost predicate Onward(next: seq<nat>, live: set<nat>) {
    forall i :: i in live ==> i < |next| && next[i] in live
  }

  ghost predicate Distinct(path: seq<nat>) {
    forall a, b :: 0 <= a < b < |path| ==> path[a] != path[b]
  }

  ghost predicate Path(next: seq<nat>, live: set<nat>, path: seq<nat>) {
    && path != [] && Distinct(path)
    && (forall a :: 0 <= a < |path| ==> path[a] in live && path[a] < |next|)
    && (forall a :: 0 <= a < |path| - 1 ==> next[path[a]] == path[a + 1])
  }

  ghost predicate Cycle(next: seq<nat>, live: set<nat>, path: seq<nat>) {
    Path(next, live, path) && next[path[|path| - 1]] == path[0]
  }

  lemma {:induction false} DistinctWithin(path: seq<nat>, members: set<nat>)
    requires Distinct(path) && forall a :: 0 <= a < |path| ==> path[a] in members
    ensures |path| <= |members|
  {
    if path != [] {
      var n := |path| - 1;
      DistinctWithin(path[..n], members - {path[n]});
    }
  }

  lemma PathTail(next: seq<nat>, live: set<nat>, path: seq<nat>, a: nat)
    requires Path(next, live, path) && a < |path| && next[path[|path| - 1]] == path[a]
    ensures Cycle(next, live, path[a..])
  {
    var tail := path[a..];
    assert forall b :: 0 <= b < |tail| ==> tail[b] == path[a + b];
  }

  /** Going on from anyone comes round. */
  lemma {:induction false} ComesRound(next: seq<nat>, live: set<nat>, path: seq<nat>) returns (cycle: seq<nat>)
    requires Onward(next, live) && Path(next, live, path)
    ensures Cycle(next, live, cycle)
    decreases |live| - |path|
  {
    var following := next[path[|path| - 1]];
    if following in path {
      var a :| 0 <= a < |path| && path[a] == following;
      PathTail(next, live, path, a);
      return path[a..];
    }
    DistinctWithin(path + [following], live);
    cycle := ComesRound(next, live, path + [following]);
  }
}
