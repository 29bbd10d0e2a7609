/**
 Exact effect of holding, releasing and selling a whole list of lines, line by line:
 the per-night counters move by the summed quantity of the lines covering that night.
 */
module Lines {
  import opened Outcomes
  import opened Slots
  import opened Store
  import opened Text
  import opened Reservations

  /** Units of the given lines on one night. */
  function Units(lines: seq<Line>, tenant: int, property: int, k: SlotKey): int {
    if lines == [] then 0
    else
      (if lines[0].Stay(tenant, property).Covers(k) then lines[0].quantity else 0) +
      Units(lines[1..], tenant, property, k)
  }

  ghost predicate Storable(lines: seq<Line>) {
    forall i :: 0 <= i < |lines| ==> lines[i].Storable()
  }

  lemma {:induction false} UnitsNonNegative(lines: seq<Line>, tenant: int, property: int, k: SlotKey)
    requires Storable(lines)
    ensures Units(lines, tenant, property, k) >= 0
  {
    if lines != [] {
      assert lines[0].Storable();
      UnitsNonNegative(lines[1..], tenant, property, k);
    }
  }

  lemma UnitsNonNegativeOnAll(slots: SlotTable, lines: seq<Line>, tenant: int, property: int)
    requires Storable(lines)
    ensures forall k :: k in slots ==> Units(lines, tenant, property, k) >= 0
  {
    forall k | k in slots ensures Units(lines, tenant, property, k) >= 0 {
      UnitsNonNegative(lines, tenant, property, k);
    }
  }

  /** Every night of every line has a row. */
  ghost predicate AllOpen(slots: SlotTable, tenant: int, property: int, lines: seq<Line>) {
    forall i :: 0 <= i < |lines| ==> Open(slots, lines[i].Stay(tenant, property))
  }

  /** Overlapping lines are added up: on every night the demand fits what remains. */
  ghost predicate Fits(slots: SlotTable, tenant: int, property: int, lines: seq<Line>) {
    forall k :: k in slots ==> Units(lines, tenant, property, k) <= slots[k].Remaining()
  }

  /** On every night the units are on hold. */
  ghost predicate OnHold(slots: SlotTable, tenant: int, property: int, lines: seq<Line>) {
    forall k :: k in slots ==> Units(lines, tenant, property, k) <= slots[k].reserved
  }

  datatype Kind = Holding | Releasing | Selling

  function Moved(slot: Slot, kind: Kind, n: int): Slot {
    match kind
    case Holding => slot.(reserved := slot.reserved + n)
    case Releasing => slot.(reserved := slot.reserved - n)
    case Selling => slot.(reserved := slot.reserved - n, sold := slot.sold + n)
  }

  /** Every row moved by the units of the lines that cover it. */
  ghost function Shifted(slots: SlotTable, kind: Kind, tenant: int, property: int, lines: seq<Line>): SlotTable {
    map k | k in slots :: Moved(slots[k], kind, Units(lines, tenant, property, k))
  }

  /** Shifting by the first line and then by the others is shifting by all of them. */
  lemma ShiftInTwo(slots: SlotTable, kind: Kind, tenant: int, property: int, lines: seq<Line>)
    requires lines != []
    ensures Shifted(Shifted(slots, kind, tenant, property, lines[..1]), kind, tenant, property, lines[1..])
         == Shifted(slots, kind, tenant, property, lines)
  {
    forall k | k in slots
      ensures Units(lines, tenant, property, k) ==
              Units(lines[..1], tenant, property, k) + Units(lines[1..], tenant, property, k)
    {
      assert lines[..1][1..] == [];
    }
  }

  lemma UnitsOfOne(line: Line, tenant: int, property: int, k: SlotKey)
    ensures Units([line], tenant, property, k) ==
            if line.Stay(tenant, property).Covers(k) then line.quantity else 0
  {
    assert [line][1..] == [];
  }

  lemma ChangedIsShifted(slots: SlotTable, line: Line, tenant: int, property: int)
    requires line.quantity > 0
    ensures var w := line.Stay(tenant, property);
      && Changed(slots, w, Consume(Reserved, line.quantity)) == Shifted(slots, Holding, tenant, property, [line])
      && (OnHold(slots, tenant, property, [line]) ==>
            Changed(slots, w, Release(Reserved, line.quantity)) == Shifted(slots, Releasing, tenant, property, [line]))
      && Changed(slots, w, Convert(line.quantity)) == Shifted(slots, Selling, tenant, property, [line])
  {
    forall k | k in slots
      ensures Units([line], tenant, property, k) == if line.Stay(tenant, property).Covers(k) then line.quantity else 0
    {
      UnitsOfOne(line, tenant, property, k);
    }
  }

  /** The lines after the first see a table where the first has been accounted for. */
  lemma Remainder(slots: SlotTable, kind: Kind, tenant: int, property: int, lines: seq<Line>)
    requires lines != [] && Storable(lines)
    ensures var rest := Shifted(slots, kind, tenant, property, lines[..1]);
      && (AllOpen(slots, tenant, property, lines) <==>
            Open(slots, lines[0].Stay(tenant, property)) && AllOpen(rest, tenant, property, lines[1..]))
      && (kind.Holding? ==> (Fits(slots, tenant, property, lines) <==> Fits(rest, tenant, property, lines[1..])))
      && (!kind.Holding? ==> (OnHold(slots, tenant, property, lines) <==> OnHold(rest, tenant, property, lines[1..])))
      && (Fits(slots, tenant, property, lines) ==> Fits(slots, tenant, property, lines[..1]))
      && (OnHold(slots, tenant, property, lines) ==> OnHold(slots, tenant, property, lines[..1]))
  {
    var first, rest := lines[..1], Shifted(slots, kind, tenant, property, lines[..1]);
    assert first[1..] == [];
    UnitsNonNegativeOnAll(slots, lines[1..], tenant, property);
    forall k | k in slots
      ensures Units(lines, tenant, property, k) ==
              Units(first, tenant, property, k) + Units(lines[1..], tenant, property, k)
      ensures k in rest && rest[k] == Moved(slots[k], kind, Units(first, tenant, property, k))
    {
    }
    assert rest.Keys == slots.Keys;
    if AllOpen(rest, tenant, property, lines[1..]) && Open(slots, lines[0].Stay(tenant, property)) {
      forall i | 0 <= i < |lines| ensures Open(slots, lines[i].Stay(tenant, property)) {
        if i > 0 { assert lines[i] == lines[1..][i - 1]; }
      }
    }
    if AllOpen(slots, tenant, property, lines) {
      forall i | 0 <= i < |lines[1..]| ensures Open(rest, lines[1..][i].Stay(tenant, property)) {
        assert lines[1..][i] == lines[i + 1];
      }
    }
  }

  // ---------------------------------------------------------------- one line

  lemma HoldOne(slots: SlotTable, tenant: int, property: int, line: Line)
    requires AllGood(slots) && line.Storable()
    ensures var r := Apply(slots, line.Stay(tenant, property), Consume(Reserved, line.quantity));
      && (r.Ok? <==> Open(slots, line.Stay(tenant, property)) && Fits(slots, tenant, property, [line]))
      && (r.Ok? ==> r.value == Shifted(slots, Holding, tenant, property, [line]) && AllGood(r.value))
      && r != Err(IntegrityError)
  {
    var w, c := line.Stay(tenant, property), Consume(Reserved, line.quantity);
    ChangedIsShifted(slots, line, tenant, property);
    forall k | k in slots
      ensures Units([line], tenant, property, k) == if w.Covers(k) then line.quantity else 0
    {
      UnitsOfOne(line, tenant, property, k);
    }
    assert AllAllowed(slots, w, c) <==> Fits(slots, tenant, property, [line]);
  }

  lemma ReleaseOne(slots: SlotTable, tenant: int, property: int, line: Line)
    requires AllGood(slots) && line.Storable()
    requires Open(slots, line.Stay(tenant, property)) && OnHold(slots, tenant, property, [line])
    ensures var r := Apply(slots, line.Stay(tenant, property), Release(Reserved, line.quantity));
      r == Ok(Shifted(slots, Releasing, tenant, property, [line])) && AllGood(r.value)
  {
    ChangedIsShifted(slots, line, tenant, property);
  }

  lemma SellOne(slots: SlotTable, tenant: int, property: int, line: Line)
    requires AllGood(slots) && line.Storable()
    requires Open(slots, line.Stay(tenant, property)) && OnHold(slots, tenant, property, [line])
    ensures var r := Apply(slots, line.Stay(tenant, property), Convert(line.quantity));
      r == Ok(Shifted(slots, Selling, tenant, property, [line])) && AllGood(r.value)
  {
    ChangedIsShifted(slots, line, tenant, property);
    forall k | k in slots
      ensures Units([line], tenant, property, k) ==
              if line.Stay(tenant, property).Covers(k) then line.quantity else 0
    {
      UnitsOfOne(line, tenant, property, k);
    }
  }

  // ---------------------------------------------------------------- all lines

  /** Records only appear, already completed, and only under the given scope. */
  ghost predicate RecordsAdded(before: map<RecordId, Record>, after: map<RecordId, Record>, tenant: int, scope: Scope) {
    && (forall id :: id in before ==> id in after && after[id] == before[id])
    && (forall id :: id in after && id !in before ==> id.tenant == tenant && id.scope == scope && after[id].Completed?)
  }

  /** No line of the request from the n-th on has been held under this key before. */
  ghost predicate FreshLineKeys(records: map<RecordId, Record>, tenant: int, key: string, n: nat) {
    forall m: nat :: m >= n ==> RecordId(tenant, HoldScope, LineKey(key, m)) !in records
  }

  /** The hold records a request added are those of its own lines. */
  ghost predicate OwnLineKeys(before: map<RecordId, Record>, after: map<RecordId, Record>, tenant: int, key: string, n: nat) {
    forall id :: id in after && id !in before ==> exists m: nat :: m >= n && id == RecordId(tenant, HoldScope, LineKey(key, m))
  }

  /** The next lines' keys are still free when one line's record has been added. */
  lemma FreshAfterOne(before: map<RecordId, Record>, after: map<RecordId, Record>, tenant: int, key: string, n: nat)
    requires FreshLineKeys(before, tenant, key, n)
    requires forall id :: id in after ==> id in before || id == RecordId(tenant, HoldScope, LineKey(key, n))
    ensures FreshLineKeys(after, tenant, key, n + 1)
  {
    forall m: nat | m >= n + 1 ensures RecordId(tenant, HoldScope, LineKey(key, m)) !in after {
      if LineKey(key, m) == LineKey(key, n) { LineKeyInjective(key, m, key, n); }
    }
  }

  /**
   Holding a request's lines one after the other, each under its own key, succeeds exactly when
   every night is open and the lines together fit; then every night is reserved by their sum.
   */
  lemma {:induction false} HoldLinesExact(s: Store, tenant: int, property: int, lines: seq<Line>, key: string, n: nat)
    requires AllGood(s.slots) && Storable(lines) && FreshLineKeys(s.records, tenant, key, n)
    ensures var r := HoldLines(s, tenant, property, lines, key, n);
      && (r.Ok? <==> AllOpen(s.slots, tenant, property, lines) && Fits(s.slots, tenant, property, lines))
      && (r.Ok? ==>
            && r.value.slots == Shifted(s.slots, Holding, tenant, property, lines)
            && AllGood(r.value.slots)
            && RecordsAdded(s.records, r.value.records, tenant, HoldScope)
            && OwnLineKeys(s.records, r.value.records, tenant, key, n))
      && r != Err(IntegrityError)
    decreases lines
  {
    if lines == [] {
      assert Shifted(s.slots, Holding, tenant, property, lines) == s.slots;
      assert Fits(s.slots, tenant, property, lines);
    } else {
      assert lines[..1] == [lines[0]];
      HoldOne(s.slots, tenant, property, lines[0]);
      Remainder(s.slots, Holding, tenant, property, lines);
      var id := RecordId(tenant, HoldScope, LineKey(key, n));
      var first := Hold(s, lines[0].Stay(tenant, property), lines[0].quantity, LineKey(key, n));
      if first.Ok? {
        var t := first.value.store;
        assert t.slots == Shifted(s.slots, Holding, tenant, property, lines[..1]);
        FreshAfterOne(s.records, t.records, tenant, key, n);
        HoldLinesExact(t, tenant, property, lines[1..], key, n + 1);
        ShiftInTwo(s.slots, Holding, tenant, property, lines);
      }
    }
  }

  /** Releasing lines that are on hold gives back exactly what they held: no cap bites. */
  lemma {:induction false} ReleaseLinesExact(s: Store, tenant: int, property: int, lines: seq<Line>)
    requires AllGood(s.slots) && Storable(lines)
    requires AllOpen(s.slots, tenant, property, lines) && OnHold(s.slots, tenant, property, lines)
    ensures ReleaseLines(s, tenant, property, lines) ==
            Ok(s.(slots := Shifted(s.slots, Releasing, tenant, property, lines)))
    ensures AllGood(Shifted(s.slots, Releasing, tenant, property, lines))
    decreases lines
  {
    if lines == [] {
      assert Shifted(s.slots, Releasing, tenant, property, lines) == s.slots;
    } else {
      assert lines[..1] == [lines[0]];
      Remainder(s.slots, Releasing, tenant, property, lines);
      ReleaseOne(s.slots, tenant, property, lines[0]);
      ReleaseLinesExact(s.(slots := Shifted(s.slots, Releasing, tenant, property, lines[..1])),
                        tenant, property, lines[1..]);
      ShiftInTwo(s.slots, Releasing, tenant, property, lines);
    }
  }

  /** No line of the reservation from the n-th on has been sold before. */
  ghost predicate FreshConvertKeys(records: map<RecordId, Record>, tenant: int, id: nat, n: nat) {
    forall m: nat :: m >= n ==> RecordId(tenant, ConvertScope, ConvertKey(id, m)) !in records
  }

  ghost predicate OwnConvertKeys(before: map<RecordId, Record>, after: map<RecordId, Record>, tenant: int, id: nat, n: nat) {
    forall i :: i in after && i !in before ==> exists m: nat :: m >= n && i == RecordId(tenant, ConvertScope, ConvertKey(id, m))
  }

  lemma FreshAfterConverting(before: map<RecordId, Record>, after: map<RecordId, Record>, tenant: int, id: nat, n: nat)
    requires FreshConvertKeys(before, tenant, id, n)
    requires forall i :: i in after ==> i in before || i == RecordId(tenant, ConvertScope, ConvertKey(id, n))
    ensures FreshConvertKeys(after, tenant, id, n + 1)
  {
    forall m: nat | m >= n + 1 ensures RecordId(tenant, ConvertScope, ConvertKey(id, m)) !in after {
      if ConvertKey(id, m) == ConvertKey(id, n) { ConvertKeyInjective(id, m, id, n); }
    }
  }

  /** Selling lines that are on hold moves exactly their units from reserved to sold. */
  lemma {:induction false} ConvertLinesExact(s: Store, id: nat, tenant: int, property: int, lines: seq<Line>, n: nat)
    requires AllGood(s.slots) && Storable(lines) && FreshConvertKeys(s.records, tenant, id, n)
    requires AllOpen(s.slots, tenant, property, lines) && OnHold(s.slots, tenant, property, lines)
    ensures var r := ConvertLines(s, id, tenant, property, lines, n);
      && r.Ok?
      && r.value.slots == Shifted(s.slots, Selling, tenant, property, lines)
      && AllGood(r.value.slots)
      && RecordsAdded(s.records, r.value.records, tenant, ConvertScope)
      && OwnConvertKeys(s.records, r.value.records, tenant, id, n)
    decreases lines
  {
    if lines == [] {
      assert Shifted(s.slots, Selling, tenant, property, lines) == s.slots;
    } else {
      assert lines[..1] == [lines[0]];
      Remainder(s.slots, Selling, tenant, property, lines);
      SellOne(s.slots, tenant, property, lines[0]);
      var first := ConvertHold(s, lines[0].Stay(tenant, property), lines[0].quantity, ConvertKey(id, n));
      var t := first.value.store;
      FreshAfterConverting(s.records, t.records, tenant, id, n);
      ConvertLinesExact(t, id, tenant, property, lines[1..], n + 1);
      ShiftInTwo(s.slots, Selling, tenant, property, lines);
    }
  }
}
