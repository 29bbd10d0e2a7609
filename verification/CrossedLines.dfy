/**
 What the ring condition means for two reservations of two lines each: the lines are locked in the
 caller's order, and two callers may choose opposite ones.
 */
module CrossedLines {
  import opened Slots
  import opened LockOrder
  import opened WindowLocks
  import opened WindowProgress
  import opened Deadlocks

  /** One night, any change. */
  function One(k: SlotKey, c: Change): Call {
    Call(Window(k.cell, k.night, k.night + 1), c)
  }

  lemma OneCovers(k: SlotKey, c: Change, x: SlotKey)
    ensures One(k, c).window.Covers(x) <==> x == k
  {
    assert x == SlotKey(x.cell, x.night);
  }

  function TwoLines(a: SlotKey, ca: Change, b: SlotKey, cb: Change): Transaction {
    [One(a, ca), One(b, cb)]
  }

  /** The second line's row asked for while the first line's is locked. */
  lemma AtSecondLine(txns: seq<Transaction>, i: nat, a: SlotKey, ca: Change, b: SlotKey, cb: Change, x: SlotKey)
    requires i < |txns| && txns[i] == TwoLines(a, ca, b, cb)
    ensures var p := Place(i, 1, b.night); Inside(txns, p) && Next(txns, p) == b && (Holds(txns, p, x) <==> x == a)
  {
    var head := txns[i][..1];
    OneCovers(a, ca, x);
    assert head[0] == One(a, ca);
    if x == a { assert head[0].window.Covers(x); }
  }

  /** A place where a two-line transaction has locked anything is that one. */
  lemma OnlySecondLine(txns: seq<Transaction>, p: Place, a: SlotKey, ca: Change, b: SlotKey, cb: Change, x: SlotKey)
    requires Inside(txns, p) && txns[p.who] == TwoLines(a, ca, b, cb) && Holds(txns, p, x)
    ensures p == Place(p.who, 1, b.night)
  {
  }

  /** A ring of two transactions is made of two places holding something. */
  lemma RingOfTwo(keys: set<SlotKey>, txns: seq<Transaction>, ring: seq<Place>)
    requires |txns| == 2 && Ring(keys, txns, ring)
    ensures |ring| == 2 && Inside(txns, ring[0]) && Inside(txns, ring[1]) && ring[0].who == 1 - ring[1].who
    ensures Holds(txns, ring[1], Next(txns, ring[0])) && Holds(txns, ring[0], Next(txns, ring[1]))
    ensures !Holds(txns, ring[0], Next(txns, ring[0]))
  {
    assert forall a :: 0 <= a < |ring| ==> Asks(keys, txns, ring[a]);
    var whos := seq(|ring|, a requires 0 <= a < |ring| => ring[a].who);
    DistinctWithin(whos, {0, 1});
    assert After(2, 0) == 1 && After(2, 1) == 0;
  }

  lemma CrossedIsRing(keys: set<SlotKey>, txns: seq<Transaction>,
                      a: SlotKey, ca: Change, b: SlotKey, cb: Change, cc: Change, cd: Change)
    requires txns == [TwoLines(a, ca, b, cb), TwoLines(b, cc, a, cd)] && a != b && a in keys && b in keys
    ensures Ring(keys, txns, [Place(0, 1, b.night), Place(1, 1, a.night)])
  {
    var p, q := Place(0, 1, b.night), Place(1, 1, a.night);
    forall x
      ensures Inside(txns, p) && Inside(txns, q) && Next(txns, p) == b && Next(txns, q) == a
      ensures (Holds(txns, p, x) <==> x == a) && (Holds(txns, q, x) <==> x == b)
    {
      AtSecondLine(txns, 0, a, ca, b, cb, x);
      AtSecondLine(txns, 1, b, cc, a, cd, x);
    }
    OneNightOpened(keys, a, ca);
    OneNightOpened(keys, b, cc);
    assert txns[0][..1] == [One(a, ca)] && txns[1][..1] == [One(b, cc)];
    assert After(2, 0) == 1 && After(2, 1) == 0;
  }

  lemma OneNightOpened(keys: set<SlotKey>, k: SlotKey, c: Change)
    requires k in keys
    ensures AllOpened(keys, [One(k, c)])
  {
  }

  lemma RingIsCrossed(keys: set<SlotKey>, txns: seq<Transaction>, ring: seq<Place>,
                      a: SlotKey, ca: Change, b: SlotKey, cb: Change, c: SlotKey, cc: Change, d: SlotKey, cd: Change)
    requires txns == [TwoLines(a, ca, b, cb), TwoLines(c, cc, d, cd)] && Ring(keys, txns, ring)
    ensures a == d && b == c && a != b
  {
    RingOfTwo(keys, txns, ring);
    var p, q := if ring[0].who == 0 then ring[0] else ring[1], if ring[0].who == 0 then ring[1] else ring[0];
    OnlySecondLine(txns, p, a, ca, b, cb, Next(txns, q));
    OnlySecondLine(txns, q, c, cc, d, cd, Next(txns, p));
    AtSecondLine(txns, 0, a, ca, b, cb, Next(txns, q));
    AtSecondLine(txns, 1, c, cc, d, cd, Next(txns, p));
    AtSecondLine(txns, 0, a, ca, b, cb, Next(txns, p));
    AtSecondLine(txns, 1, c, cc, d, cd, Next(txns, q));
  }

  /**
   Two transactions of two one-night lines each can deadlock exactly when the first row of each is the
   second row of the other.
   */
  lemma TwoLinesExactly(keys: set<SlotKey>, a: SlotKey, ca: Change, b: SlotKey, cb: Change,
                        c: SlotKey, cc: Change, d: SlotKey, cd: Change)
    requires a in keys && b in keys && c in keys && d in keys
    ensures AlwaysFinishes(keys, [TwoLines(a, ca, b, cb), TwoLines(c, cc, d, cd)]) <==> !(a == d && b == c && a != b)
  {
    var txns := [TwoLines(a, ca, b, cb), TwoLines(c, cc, d, cd)];
    DeadlockFreeExactly(keys, txns);
    if a == d && b == c && a != b {
      CrossedIsRing(keys, txns, a, ca, b, cb, cc, cd);
    }
    if ring :| Ring(keys, txns, ring) {
      RingIsCrossed(keys, txns, ring, a, ca, b, cb, c, cc, d, cd);
    }
  }
}
