/**
 What a stay costs: base rate, the one override and every calendar modifier of each night, the
 segment modifiers of the whole stay, then the policy's ceiling and floor.
 */
module Pricing {
  import opened Outcomes
  import opened Money

  datatype Adjustment = Absolute(minor: int) | Percent(percent: int)

  /** Dates are day numbers; the range is inclusive on both ends. */
  datatype Override = Override(id: nat, start: int, end: int, adjustment: Adjustment)
  {
    predicate Covers(night: int) {
      start <= night <= end
    }

    predicate Overlaps(other: Override) {
      start <= other.end && end >= other.start
    }

    /** The table's constraints. */
    predicate Storable() {
      start <= end && (match adjustment case Absolute(n) => n != 0 case Percent(n) => n != 0)
    }
  }

  datatype Modifier =
    | Season(id: nat, start: int, end: int, percent: int)
    | Weekend(id: nat, weekdays: set<int>, percent: int)
    | Holiday(id: nat, dates: set<int>, percent: int)
    | LongStay(id: nat, minNights: int, percent: int)
    | Corporate(id: nat, percent: int)
  {
    predicate MatchesNight(night: int) {
      match this
      case Season(_, start, end, _) => start <= night <= end
      case Weekend(_, weekdays, _) => IsoWeekday(night) in weekdays
      case Holiday(_, dates, _) => night in dates
      case _ => false
    }

    predicate MatchesStay(stay: Stay) {
      match this
      case LongStay(_, minNights, _) => stay.nights >= minNights
      case Corporate(_, _) => stay.corporate
      case _ => false
    }
  }

  /** Day 1 was a Monday. */
  function IsoWeekday(day: int): int {
    (day - 1) % 7 + 1
  }

  datatype Stay = Stay(arrival: int, nights: nat, corporate: bool)

  datatype Bounds = Bounds(floor: Option<int>, ceiling: Option<int>)

  datatype Plan = Plan(active: bool, base: Money, overrides: seq<Override>, modifiers: seq<Modifier>)

  datatype Label = OverrideLabel(id: nat) | ModifierLabel(modifier: Modifier)

  datatype LineItem = LineItem(reason: Label, amount: Money)

  datatype NightlyPrice = NightlyPrice(night: int, base: Money, adjustments: seq<LineItem>, total: Money)

  datatype Breakdown = Breakdown(
    nightly: seq<NightlyPrice>, subtotal: Money, total: Money, stayAdjustments: seq<LineItem>, bounds: Bounds)

  // ---------------------------------------------------------------- checks of the value objects

  predicate AllIn(items: seq<LineItem>, currency: string) {
    forall i :: 0 <= i < |items| ==> items[i].amount.currency == currency
  }

  function SumItems(items: seq<LineItem>): int {
    if items == [] then 0 else SumItems(items[..|items| - 1]) + items[|items| - 1].amount.amount
  }

  function SumNights(nightly: seq<NightlyPrice>): int {
    if nightly == [] then 0 else SumNights(nightly[..|nightly| - 1]) + nightly[|nightly| - 1].total.amount
  }

  function MakeNight(night: int, base: Money, adjustments: seq<LineItem>, total: Money): Result<NightlyPrice> {
    if total.currency != base.currency || total.amount < 0 || !AllIn(adjustments, base.currency)
    then Err(InvalidPriceBreakdown)
    else Ok(NightlyPrice(night, base, adjustments, total))
  }

  /** Construction of the result: currencies, signs, and the sum that must come to the subtotal. */
  predicate Sound(b: Breakdown) {
    && b.nightly != []
    && b.total.currency == b.subtotal.currency
    && (forall i :: 0 <= i < |b.nightly| ==> b.nightly[i].base.currency == b.subtotal.currency)
    && AllIn(b.stayAdjustments, b.subtotal.currency)
    && b.total.amount >= 0 && b.subtotal.amount >= 0
    && SumNights(b.nightly) + SumItems(b.stayAdjustments) == b.subtotal.amount
  }

  function MakeBreakdown(b: Breakdown): Result<Breakdown> {
    if Sound(b) then Ok(b) else Err(InvalidPriceBreakdown)
  }

  // ---------------------------------------------------------------- specification

  /** A percentage of the base, where it is defined. */
  function Share(base: Money, percent: int): int {
    var r := base.PercentageOf(percent);
    if r.Ok? then r.value.amount else 0
  }

  function FirstCovering(overrides: seq<Override>, night: int): Option<Override> {
    if overrides == [] then None
    else if overrides[0].Covers(night) then Some(overrides[0])
    else FirstCovering(overrides[1..], night)
  }

  function AdjustmentOf(a: Adjustment, base: Money): int {
    match a
    case Absolute(minor) => minor
    case Percent(percent) => Share(base, percent)
  }

  predicate Defined(a: Adjustment, base: Money) {
    a.Percent? ==> base.PercentageOf(a.percent).Ok?
  }

  function OverrideItems(plan: Plan, night: int): seq<LineItem> {
    match FirstCovering(plan.overrides, night)
    case None => []
    case Some(o) => [LineItem(OverrideLabel(o.id), Money(AdjustmentOf(o.adjustment, plan.base), plan.base.currency))]
  }

  function CalendarItems(base: Money, modifiers: seq<Modifier>, night: int): seq<LineItem> {
    if modifiers == [] then []
    else
      var last := modifiers[|modifiers| - 1];
      CalendarItems(base, modifiers[..|modifiers| - 1], night) +
      if last.MatchesNight(night) then [LineItem(ModifierLabel(last), Money(Share(base, last.percent), base.currency))] else []
  }

  function SegmentItems(subtotal: Money, modifiers: seq<Modifier>, stay: Stay): seq<LineItem> {
    if modifiers == [] then []
    else
      var last := modifiers[|modifiers| - 1];
      SegmentItems(subtotal, modifiers[..|modifiers| - 1], stay) +
      if last.MatchesStay(stay)
      then [LineItem(ModifierLabel(last), Money(Share(subtotal, last.percent), subtotal.currency))] else []
  }

  function NightItems(plan: Plan, night: int): seq<LineItem> {
    OverrideItems(plan, night) + CalendarItems(plan.base, plan.modifiers, night)
  }

  function NightTotal(plan: Plan, night: int): int {
    plan.base.amount + SumItems(NightItems(plan, night))
  }

  function NightsTotal(plan: Plan, arrival: int, n: nat): int {
    if n == 0 then 0 else NightsTotal(plan, arrival, n - 1) + NightTotal(plan, arrival + n - 1)
  }

  function NightsMoney(plan: Plan, stay: Stay): Money {
    Money(NightsTotal(plan, stay.arrival, stay.nights), plan.base.currency)
  }

  function Subtotal(plan: Plan, stay: Stay): int {
    NightsMoney(plan, stay).amount + SumItems(SegmentItems(NightsMoney(plan, stay), plan.modifiers, stay))
  }

  /** Ceiling first, then floor. */
  function Clamped(total: int, bounds: Bounds): int {
    var capped := if bounds.ceiling.Some? && total > bounds.ceiling.value then bounds.ceiling.value else total;
    if bounds.floor.Some? && capped < bounds.floor.value then bounds.floor.value else capped
  }

  predicate CalendarDefined(base: Money, modifiers: seq<Modifier>, night: int) {
    forall m :: m in modifiers && m.MatchesNight(night) ==> base.PercentageOf(m.percent).Ok?
  }

  predicate NightDefined(plan: Plan, night: int) {
    && (FirstCovering(plan.overrides, night).Some? ==>
          Defined(FirstCovering(plan.overrides, night).value.adjustment, plan.base))
    && CalendarDefined(plan.base, plan.modifiers, night)
  }

  predicate NightPriceable(plan: Plan, night: int) {
    NightDefined(plan, night) && NightTotal(plan, night) >= 0
  }

  predicate NightsPriceable(plan: Plan, arrival: int, n: nat) {
    forall night :: arrival <= night < arrival + n ==> NightPriceable(plan, night)
  }

  predicate SegmentsDefined(subtotal: Money, modifiers: seq<Modifier>, stay: Stay) {
    forall m :: m in modifiers && m.MatchesStay(stay) ==> subtotal.PercentageOf(m.percent).Ok?
  }

  /** When a price comes out: an active plan, percentages within the arithmetic, nothing negative. */
  predicate Priceable(plan: Plan, stay: Stay, bounds: Bounds) {
    && plan.active
    && NightsPriceable(plan, stay.arrival, stay.nights)
    && SegmentsDefined(NightsMoney(plan, stay), plan.modifiers, stay)
    && Subtotal(plan, stay) >= 0 && Clamped(Subtotal(plan, stay), bounds) >= 0
  }

  // ---------------------------------------------------------------- clamping

  predicate Inside(total: int, bounds: Bounds) {
    (bounds.floor.Some? ==> bounds.floor.value <= total) && (bounds.ceiling.Some? ==> total <= bounds.ceiling.value)
  }

  /** The total is the subtotal brought within the bounds; when they contradict each other the floor wins. */
  lemma ClampedExact(total: int, bounds: Bounds)
    ensures var r := Clamped(total, bounds);
      && (bounds.floor.Some? ==> r >= bounds.floor.value)
      && (bounds.ceiling.Some? && (bounds.floor.Some? ==> bounds.floor.value <= bounds.ceiling.value) ==>
            r <= bounds.ceiling.value)
      && (bounds.floor.Some? && bounds.ceiling.Some? && bounds.floor.value > bounds.ceiling.value ==>
            r == bounds.floor.value)
      && (r != total ==> bounds.floor == Some(r) || bounds.ceiling == Some(r))
      && (Inside(total, bounds) ==> r == total)
  {
  }

  // ---------------------------------------------------------------- overrides

  ghost predicate Disjoint(overrides: seq<Override>) {
    && (forall i :: 0 <= i < |overrides| ==> overrides[i].Storable())
    && (forall i, j :: 0 <= i < j < |overrides| ==> !overrides[i].Overlaps(overrides[j]))
  }

  /** `add_override`: refused if it overlaps an active one, or does not pass the validation. */
  function AddOverride(overrides: seq<Override>, o: Override): Result<seq<Override>> {
    if exists i :: 0 <= i < |overrides| && o.Overlaps(overrides[i]) then Err(OverlappingRateOverride)
    else if !o.Storable() then Err(ValidationError)
    else Ok(overrides + [o])
  }

  function AddAll(overrides: seq<Override>, added: seq<Override>): seq<Override> {
    if added == [] then overrides
    else
      var before := AddAll(overrides, added[..|added| - 1]);
      var r := AddOverride(before, added[|added| - 1]);
      if r.Ok? then r.value else before
  }

  /** Whatever overrides are tried in whatever order, those on the plan stay pairwise disjoint. */
  lemma {:induction false} DisjointOverRuns(overrides: seq<Override>, added: seq<Override>)
    requires Disjoint(overrides)
    ensures Disjoint(AddAll(overrides, added))
  {
    if added != [] {
      DisjointOverRuns(overrides, added[..|added| - 1]);
      var before, o := AddAll(overrides, added[..|added| - 1]), added[|added| - 1];
      forall i | 0 <= i < |before| && AddOverride(before, o).Ok? ensures !before[i].Overlaps(o) {
        assert !o.Overlaps(before[i]);
      }
    }
  }

  /** Two ranges that are not inverted have a night in common exactly when they overlap. */
  lemma OverlapsExactly(a: Override, b: Override)
    requires a.start <= a.end && b.start <= b.end
    ensures a.Overlaps(b) <==> exists night :: a.Covers(night) && b.Covers(night)
  {
    if a.Overlaps(b) {
      var night := if a.start > b.start then a.start else b.start;
      assert a.Covers(night) && b.Covers(night);
    }
  }

  /** With disjoint overrides the first match is the only match. */
  lemma {:induction false} OnlyMatch(overrides: seq<Override>, night: int, o: Override)
    requires Disjoint(overrides)
    ensures FirstCovering(overrides, night) == Some(o) <==> o in overrides && o.Covers(night)
  {
    if overrides != [] {
      var rest := overrides[1..];
      assert forall i :: 0 <= i < |rest| ==> rest[i] == overrides[i + 1];
      OnlyMatch(rest, night, o);
      assert overrides == [overrides[0]] + rest;
      if overrides[0].Covers(night) && o in rest {
        var i :| 0 <= i < |rest| && rest[i] == o;
        assert !overrides[0].Overlaps(overrides[i + 1]);
      }
    }
  }

  lemma CoveringPermutes(a: seq<Override>, b: seq<Override>, night: int)
    requires Disjoint(a) && Disjoint(b) && multiset(a) == multiset(b)
    ensures FirstCovering(a, night) == FirstCovering(b, night)
  {
    var x, y := FirstCovering(a, night), FirstCovering(b, night);
    if x.Some? {
      OnlyMatch(a, night, x.value);
      assert x.value in multiset(a) && x.value in multiset(b);
      OnlyMatch(b, night, x.value);
    } else if y.Some? {
      OnlyMatch(b, night, y.value);
      assert y.value in multiset(b) && y.value in multiset(a);
      OnlyMatch(a, night, y.value);
    }
  }

  // ---------------------------------------------------------------- order independence

  lemma SumItemsSplit(a: seq<LineItem>, item: LineItem)
    ensures SumItems(a + [item]) == SumItems(a) + item.amount.amount
  {
    assert (a + [item])[..|a|] == a;
  }

  lemma {:induction false} SumItemsConcat(a: seq<LineItem>, b: seq<LineItem>)
    ensures SumItems(a + b) == SumItems(a) + SumItems(b)
  {
    if b == [] {
      assert a + b == a;
    } else {
      var front, last := b[..|b| - 1], b[|b| - 1];
      assert a + b == (a + front) + [last];
      SumItemsConcat(a, front);
      SumItemsSplit(a + front, last);
    }
  }

  function CalendarShare(base: Money, m: Modifier, night: int): int {
    if m.MatchesNight(night) then Share(base, m.percent) else 0
  }

  function SegmentShare(subtotal: Money, m: Modifier, stay: Stay): int {
    if m.MatchesStay(stay) then Share(subtotal, m.percent) else 0
  }

  /** A sum over modifiers in list order. */
  ghost function SumBy(modifiers: seq<Modifier>, share: Modifier -> int): int {
    if modifiers == [] then 0
    else SumBy(modifiers[..|modifiers| - 1], share) + share(modifiers[|modifiers| - 1])
  }

  lemma {:induction false} SumByWithout(modifiers: seq<Modifier>, i: nat, share: Modifier -> int)
    requires i < |modifiers|
    ensures SumBy(modifiers, share) == SumBy(modifiers[..i] + modifiers[i + 1..], share) + share(modifiers[i])
  {
    var n := |modifiers| - 1;
    var front := modifiers[..n];
    if i == n {
      assert modifiers[..i] + modifiers[i + 1..] == front;
    } else {
      SumByWithout(front, i, share);
      var without := modifiers[..i] + modifiers[i + 1..];
      assert without[..n - 1] == front[..i] + front[i + 1..];
    }
  }

  lemma WithoutOne(b: seq<Modifier>, i: nat)
    requires i < |b|
    ensures multiset(b[..i] + b[i + 1..]) == multiset(b) - multiset{b[i]}
  {
    assert b == b[..i] + [b[i]] + b[i + 1..];
  }

  /** The order of the modifiers does not matter to a sum over them. */
  lemma {:induction false} SumByPermutes(a: seq<Modifier>, b: seq<Modifier>, share: Modifier -> int)
    requires multiset(a) == multiset(b)
    ensures SumBy(a, share) == SumBy(b, share)
    decreases |a|
  {
    if a == [] {
      assert |multiset(b)| == 0;
    } else {
      var n := |a| - 1;
      assert a[n] in multiset(b);
      var i :| 0 <= i < |b| && b[i] == a[n];
      WithoutOne(a, n);
      WithoutOne(b, i);
      assert a[..n] + a[n + 1..] == a[..n];
      SumByWithout(b, i, share);
      SumByPermutes(a[..n], b[..i] + b[i + 1..], share);
    }
  }

  lemma {:induction false} CalendarIsSum(base: Money, modifiers: seq<Modifier>, night: int, share: Modifier -> int)
    requires forall m :: share(m) == CalendarShare(base, m, night)
    ensures SumItems(CalendarItems(base, modifiers, night)) == SumBy(modifiers, share)
  {
    if modifiers != [] {
      var front, last := modifiers[..|modifiers| - 1], modifiers[|modifiers| - 1];
      CalendarIsSum(base, front, night, share);
      var item := LineItem(ModifierLabel(last), Money(Share(base, last.percent), base.currency));
      SumItemsSplit(CalendarItems(base, front, night), item);
      assert CalendarItems(base, front, night) + [] == CalendarItems(base, front, night);
    }
  }

  lemma {:induction false} SegmentIsSum(subtotal: Money, modifiers: seq<Modifier>, stay: Stay, share: Modifier -> int)
    requires forall m :: share(m) == SegmentShare(subtotal, m, stay)
    ensures SumItems(SegmentItems(subtotal, modifiers, stay)) == SumBy(modifiers, share)
  {
    if modifiers != [] {
      var front, last := modifiers[..|modifiers| - 1], modifiers[|modifiers| - 1];
      SegmentIsSum(subtotal, front, stay, share);
      var item := LineItem(ModifierLabel(last), Money(Share(subtotal, last.percent), subtotal.currency));
      SumItemsSplit(SegmentItems(subtotal, front, stay), item);
      assert SegmentItems(subtotal, front, stay) + [] == SegmentItems(subtotal, front, stay);
    }
  }

  /** The same rules, listed in another order. */
  ghost predicate Reordered(a: Plan, b: Plan) {
    && b.active == a.active && b.base == a.base
    && multiset(a.overrides) == multiset(b.overrides) && multiset(a.modifiers) == multiset(b.modifiers)
    && Disjoint(a.overrides) && Disjoint(b.overrides)
  }

  lemma NightPermutes(a: Plan, b: Plan, night: int)
    requires Reordered(a, b)
    ensures NightTotal(a, night) == NightTotal(b, night) && (NightDefined(a, night) <==> NightDefined(b, night))
  {
    CoveringPermutes(a.overrides, b.overrides, night);
    var share := m => CalendarShare(a.base, m, night);
    CalendarIsSum(a.base, a.modifiers, night, share);
    CalendarIsSum(a.base, b.modifiers, night, share);
    SumByPermutes(a.modifiers, b.modifiers, share);
    SumItemsConcat(OverrideItems(a, night), CalendarItems(a.base, a.modifiers, night));
    SumItemsConcat(OverrideItems(b, night), CalendarItems(b.base, b.modifiers, night));
    SameMembers(a.modifiers, b.modifiers);
  }

  lemma SameMembers(a: seq<Modifier>, b: seq<Modifier>)
    requires multiset(a) == multiset(b)
    ensures forall m :: m in a <==> m in b
  {
    forall m ensures m in a <==> m in b {
      assert m in multiset(a) <==> m in multiset(b);
    }
  }

  lemma {:induction false} NightsPermute(a: Plan, b: Plan, arrival: int, n: nat)
    requires Reordered(a, b)
    ensures NightsTotal(a, arrival, n) == NightsTotal(b, arrival, n)
  {
    if n > 0 {
      NightsPermute(a, b, arrival, n - 1);
      NightPermutes(a, b, arrival + n - 1);
    }
  }

  /** The price does not depend on the order in which overrides and modifiers are returned: every night,
      the subtotal, the total and whether there is a price at all stay the same. */
  lemma PriceIsOrderIndependent(a: Plan, b: Plan, stay: Stay, bounds: Bounds)
    requires Reordered(a, b)
    ensures forall night :: NightTotal(a, night) == NightTotal(b, night)
    ensures Subtotal(a, stay) == Subtotal(b, stay)
    ensures Clamped(Subtotal(a, stay), bounds) == Clamped(Subtotal(b, stay), bounds)
    ensures Priceable(a, stay, bounds) <==> Priceable(b, stay, bounds)
  {
    forall night
      ensures NightTotal(a, night) == NightTotal(b, night) && (NightPriceable(a, night) <==> NightPriceable(b, night))
    {
      NightPermutes(a, b, night);
    }
    NightsPermute(a, b, stay.arrival, stay.nights);
    var subtotal := NightsMoney(a, stay);
    SegmentsPermute(subtotal, a.modifiers, b.modifiers, stay);
  }

  lemma SegmentsPermute(subtotal: Money, a: seq<Modifier>, b: seq<Modifier>, stay: Stay)
    requires multiset(a) == multiset(b)
    ensures SumItems(SegmentItems(subtotal, a, stay)) == SumItems(SegmentItems(subtotal, b, stay))
    ensures SegmentsDefined(subtotal, a, stay) <==> SegmentsDefined(subtotal, b, stay)
  {
    var share := m => SegmentShare(subtotal, m, stay);
    SegmentIsSum(subtotal, a, stay, share);
    SegmentIsSum(subtotal, b, stay, share);
    SumByPermutes(a, b, share);
    SameMembers(a, b);
  }

  // ---------------------------------------------------------------- rounding over a stay

  /** A hundred times the exact value of the adjustments of a night. */
  function ExactOverride(plan: Plan, night: int): int {
    match FirstCovering(plan.overrides, night)
    case None => 0
    case Some(o) =>
      match o.adjustment
      case Absolute(minor) => 100 * minor
      case Percent(percent) => plan.base.amount * percent
  }

  function ExactCalendar(base: Money, modifiers: seq<Modifier>, night: int): int {
    if modifiers == [] then 0
    else
      var last := modifiers[|modifiers| - 1];
      ExactCalendar(base, modifiers[..|modifiers| - 1], night) +
      if last.MatchesNight(night) then base.amount * last.percent else 0
  }

  function ExactNight(plan: Plan, night: int): int {
    100 * plan.base.amount + ExactOverride(plan, night) + ExactCalendar(plan.base, plan.modifiers, night)
  }

  function ExactNights(plan: Plan, arrival: int, n: nat): int {
    if n == 0 then 0 else ExactNights(plan, arrival, n - 1) + ExactNight(plan, arrival + n - 1)
  }

  /** How many percentages were applied. */
  function CalendarCount(modifiers: seq<Modifier>, night: int): nat {
    if modifiers == [] then 0
    else
      CalendarCount(modifiers[..|modifiers| - 1], night) + if modifiers[|modifiers| - 1].MatchesNight(night) then 1 else 0
  }

  function OverrideCount(plan: Plan, night: int): nat {
    var o := FirstCovering(plan.overrides, night);
    if o.Some? && o.value.adjustment.Percent? then 1 else 0
  }

  function NightCount(plan: Plan, night: int): nat {
    OverrideCount(plan, night) + CalendarCount(plan.modifiers, night)
  }

  function NightsCount(plan: Plan, arrival: int, n: nat): nat {
    if n == 0 then 0 else NightsCount(plan, arrival, n - 1) + NightCount(plan, arrival + n - 1)
  }

  /** Every percentage of the plan is rounded faithfully. */
  ghost predicate AllFaithful(plan: Plan) {
    && (forall m :: m in plan.modifiers ==> Faithful(plan.base.amount * m.percent))
    && (forall o :: o in plan.overrides && o.adjustment.Percent? ==> Faithful(plan.base.amount * o.adjustment.percent))
  }

  /** Off by at most half a minor unit per percentage: `exact` is in hundredths. */
  predicate Near(amount: int, exact: int, count: nat) {
    -50 * count <= 100 * amount - exact <= 50 * count
  }

  lemma NearAdds(a: int, e: int, m: nat, b: int, f: int, n: nat)
    requires Near(a, e, m) && Near(b, f, n)
    ensures Near(a + b, e + f, m + n)
  {
  }

  lemma {:induction false} CalendarRounding(base: Money, modifiers: seq<Modifier>, night: int)
    requires forall m :: m in modifiers ==> Faithful(base.amount * m.percent)
    ensures Near(SumItems(CalendarItems(base, modifiers, night)), ExactCalendar(base, modifiers, night),
                 CalendarCount(modifiers, night))
  {
    if modifiers != [] {
      var front, last := modifiers[..|modifiers| - 1], modifiers[|modifiers| - 1];
      CalendarRounding(base, front, night);
      var item := LineItem(ModifierLabel(last), Money(Share(base, last.percent), base.currency));
      SumItemsSplit(CalendarItems(base, front, night), item);
      assert CalendarItems(base, front, night) + [] == CalendarItems(base, front, night);
      assert last in modifiers;
    }
  }

  lemma {:induction false} CoveringIsListed(overrides: seq<Override>, night: int)
    ensures FirstCovering(overrides, night).Some? ==> FirstCovering(overrides, night).value in overrides
  {
    if overrides != [] { CoveringIsListed(overrides[1..], night); }
  }

  lemma NightRounding(plan: Plan, night: int)
    requires AllFaithful(plan)
    ensures Near(NightTotal(plan, night), ExactNight(plan, night), NightCount(plan, night))
  {
    var overriding, calendar := OverrideItems(plan, night), CalendarItems(plan.base, plan.modifiers, night);
    CalendarRounding(plan.base, plan.modifiers, night);
    OverrideRounding(plan, night);
    SumItemsConcat(overriding, calendar);
    NearAdds(SumItems(overriding), ExactOverride(plan, night), OverrideCount(plan, night),
             SumItems(calendar), ExactCalendar(plan.base, plan.modifiers, night), CalendarCount(plan.modifiers, night));
  }

  lemma OverrideRounding(plan: Plan, night: int)
    requires AllFaithful(plan)
    ensures Near(SumItems(OverrideItems(plan, night)), ExactOverride(plan, night), OverrideCount(plan, night))
  {
    CoveringIsListed(plan.overrides, night);
    var o := FirstCovering(plan.overrides, night);
    if o.Some? { SumItemsSplit([], OverrideItems(plan, night)[0]); }
  }

  lemma OneNightMore(plan: Plan, arrival: int, n: nat)
    ensures NightsTotal(plan, arrival, n + 1) == NightsTotal(plan, arrival, n) + NightTotal(plan, arrival + n)
    ensures ExactNights(plan, arrival, n + 1) == ExactNights(plan, arrival, n) + ExactNight(plan, arrival + n)
    ensures NightsCount(plan, arrival, n + 1) == NightsCount(plan, arrival, n) + NightCount(plan, arrival + n)
  {
  }

  ghost predicate NightNear(plan: Plan, night: int) {
    Near(NightTotal(plan, night), ExactNight(plan, night), NightCount(plan, night))
  }

  lemma NearOneNightMore(plan: Plan, arrival: int, n: nat)
    requires Near(NightsTotal(plan, arrival, n), ExactNights(plan, arrival, n), NightsCount(plan, arrival, n))
    requires NightNear(plan, arrival + n)
    ensures Near(NightsTotal(plan, arrival, n + 1), ExactNights(plan, arrival, n + 1), NightsCount(plan, arrival, n + 1))
  {
    OneNightMore(plan, arrival, n);
  }

  lemma {:induction false} NearNights(plan: Plan, arrival: int, n: nat)
    requires forall night :: arrival <= night < arrival + n ==> NightNear(plan, night)
    ensures Near(NightsTotal(plan, arrival, n), ExactNights(plan, arrival, n), NightsCount(plan, arrival, n))
  {
    if n > 0 {
      var m: nat := n - 1;
      NearNights(plan, arrival, m);
      NearOneNightMore(plan, arrival, m);
    }
  }

  /** Over a whole stay the nightly subtotal is off by at most half a minor unit per percentage applied. */
  lemma StayRounding(plan: Plan, arrival: int, n: nat)
    requires AllFaithful(plan)
    ensures Near(NightsTotal(plan, arrival, n), ExactNights(plan, arrival, n), NightsCount(plan, arrival, n))
  {
    forall night | arrival <= night < arrival + n ensures NightNear(plan, night) { NightRounding(plan, night); }
    NearNights(plan, arrival, n);
  }
}
