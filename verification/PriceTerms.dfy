/**
 A price term by term: which override and which modifiers count on which nights, and what each adds.
 */
module PriceTerms {
  import opened Outcomes
  import opened Money
  import opened Pricing

  // ---------------------------------------------------------------- days of the week

  /** Days of the week run from 1 to 7 and over again, day 1 being a Monday. */
  lemma WeekGoesRound(day: int)
    ensures IsoWeekday(1) == 1
    ensures 1 <= IsoWeekday(day) <= 7
    ensures IsoWeekday(day + 1) == if IsoWeekday(day) == 7 then 1 else IsoWeekday(day) + 1
  {
  }

  /** So a day has weekday n exactly when it is a whole number of weeks from day n. */
  lemma WeekdayExactly(day: int, n: int)
    requires 1 <= n <= 7
    ensures IsoWeekday(day) == n <==> (day - n) % 7 == 0
  {
  }

  // ---------------------------------------------------------------- what counts when

  /** The nights a modifier counts on. */
  ghost predicate CountsOn(m: Modifier, night: int) {
    match m
    case Season(_, start, end, _) => start <= night && night <= end
    case Weekend(_, weekdays, _) => exists n :: n in weekdays && 1 <= n <= 7 && (night - n) % 7 == 0
    case Holiday(_, dates, _) => night in dates
    case LongStay(_, _, _) => false
    case Corporate(_, _) => false
  }

  /** The stays a modifier counts for as a whole. */
  predicate CountsFor(m: Modifier, stay: Stay) {
    match m
    case LongStay(_, minNights, _) => minNights <= stay.nights
    case Corporate(_, _) => stay.corporate
    case Season(_, _, _, _) => false
    case Weekend(_, _, _) => false
    case Holiday(_, _, _) => false
  }

  lemma NightMatchesExactly(m: Modifier, night: int)
    ensures m.MatchesNight(night) <==> CountsOn(m, night)
  {
    if m.Weekend? {
      WeekGoesRound(night);
      WeekdayExactly(night, IsoWeekday(night));
      forall n | n in m.weekdays && 1 <= n <= 7 ensures IsoWeekday(night) == n <==> (night - n) % 7 == 0 {
        WeekdayExactly(night, n);
      }
    }
  }

  lemma StayMatchesExactly(m: Modifier, stay: Stay)
    ensures m.MatchesStay(stay) <==> CountsFor(m, stay)
  {
  }

  /** A hundredth, rounded to the nearest, halves away from zero. */
  function Hundredth(n: int): int {
    if n >= 0 then (n + 50) / 100 else -((50 - n) / 100)
  }

  /** Below ten to the twenty-eighth a percentage is the rounded hundredth of the product. */
  lemma ShareIsHundredth(base: Money, percent: int)
    requires -E28 < base.amount * percent < E28
    ensures base.PercentageOf(percent) == Ok(Money(Hundredth(base.amount * percent), base.currency))
    ensures Share(base, percent) == Hundredth(base.amount * percent)
  {
  }

  /** There is a result exactly for products that round to no more than thirty digits. */
  lemma PercentageDefined(base: Money, percent: int)
    ensures base.PercentageOf(percent).Ok? <==> -(E30 - 50) < base.amount * percent < E30 - 50
  {
    var n := base.amount * percent;
    if Abs(n) < E30 {
      InContextBounds(Abs(n));
      if E29 <= Abs(n) { LastHundred(Abs(n)); } else if E28 <= Abs(n) { assert InContext(Abs(n)) <= E29; }
    }
  }

  lemma LastHundred(m: nat)
    requires E29 <= m < E30
    ensures InContext(m) < E30 <==> m < E30 - 50
  {
    var q, rest := m / 100, m % 100;
    assert m == 100 * q + rest;
  }

  // ---------------------------------------------------------------- one night

  /** What the override of a night adds: that of the first in the list whose days, both ends included,
      hold the night; nothing without one. */
  ghost predicate Overriding(plan: Plan, night: int, part: int) {
    || (part == 0 && forall o :: o in plan.overrides ==> night < o.start || o.end < night)
    || exists i :: 0 <= i < |plan.overrides| && FirstOf(plan.overrides, i, night) &&
                   part == match plan.overrides[i].adjustment
                           case Absolute(minor) => minor
                           case Percent(percent) => Share(plan.base, percent)
  }

  predicate FirstOf(overrides: seq<Override>, i: nat, night: int)
    requires i < |overrides|
  {
    overrides[i].start <= night <= overrides[i].end && forall j :: 0 <= j < i ==> night < overrides[j].start || overrides[j].end < night
  }

  /** What the modifiers that count on a night add: a percentage of the base each, never of each other. */
  ghost function Surcharges(base: Money, modifiers: seq<Modifier>, night: int): int {
    if modifiers == [] then 0
    else
      var last := modifiers[|modifiers| - 1];
      Surcharges(base, modifiers[..|modifiers| - 1], night) + if CountsOn(last, night) then Share(base, last.percent) else 0
  }

  /** What the modifiers that count for a stay add: a percentage of the nights each. */
  function StaySurcharges(nights: Money, modifiers: seq<Modifier>, stay: Stay): int {
    if modifiers == [] then 0
    else
      var last := modifiers[|modifiers| - 1];
      StaySurcharges(nights, modifiers[..|modifiers| - 1], stay) + if CountsFor(last, stay) then Share(nights, last.percent) else 0
  }

  lemma {:induction false} CalendarAdds(base: Money, modifiers: seq<Modifier>, night: int)
    ensures SumItems(CalendarItems(base, modifiers, night)) == Surcharges(base, modifiers, night)
  {
    if modifiers != [] {
      var front, last := modifiers[..|modifiers| - 1], modifiers[|modifiers| - 1];
      CalendarAdds(base, front, night);
      NightMatchesExactly(last, night);
      if last.MatchesNight(night) {
        SumItemsSplit(CalendarItems(base, front, night), LineItem(ModifierLabel(last), Money(Share(base, last.percent), base.currency)));
      } else {
        assert CalendarItems(base, front, night) + [] == CalendarItems(base, front, night);
      }
    }
  }

  lemma {:induction false} SegmentsAdd(nights: Money, modifiers: seq<Modifier>, stay: Stay)
    ensures SumItems(SegmentItems(nights, modifiers, stay)) == StaySurcharges(nights, modifiers, stay)
  {
    if modifiers != [] {
      SegmentsAdd(nights, modifiers[..|modifiers| - 1], stay);
      LastSegmentAdds(nights, modifiers, stay);
    }
  }

  lemma LastSegmentAdds(nights: Money, modifiers: seq<Modifier>, stay: Stay)
    requires modifiers != []
    ensures var front, last := modifiers[..|modifiers| - 1], modifiers[|modifiers| - 1];
      SumItems(SegmentItems(nights, modifiers, stay)) == SumItems(SegmentItems(nights, front, stay)) +
        if CountsFor(last, stay) then Share(nights, last.percent) else 0
  {
    var front, last := modifiers[..|modifiers| - 1], modifiers[|modifiers| - 1];
    StayMatchesExactly(last, stay);
    var before := SegmentItems(nights, front, stay);
    if last.MatchesStay(stay) {
      SumItemsSplit(before, LineItem(ModifierLabel(last), Money(Share(nights, last.percent), nights.currency)));
    } else {
      assert before + [] == before;
    }
  }

  lemma {:induction false} FirstCoveringIsFirst(overrides: seq<Override>, night: int)
    ensures match FirstCovering(overrides, night)
      case None => forall o :: o in overrides ==> night < o.start || o.end < night
      case Some(o) => exists i :: 0 <= i < |overrides| && FirstOf(overrides, i, night) && overrides[i] == o
  {
    if overrides != [] {
      var rest := overrides[1..];
      FirstCoveringIsFirst(rest, night);
      assert overrides == [overrides[0]] + rest;
      if overrides[0].start <= night <= overrides[0].end {
        assert FirstOf(overrides, 0, night);
      } else if FirstCovering(rest, night).Some? {
        var i :| 0 <= i < |rest| && FirstOf(rest, i, night) && rest[i] == FirstCovering(rest, night).value;
        forall j | 0 <= j < i + 1 ensures night < overrides[j].start || overrides[j].end < night {
          if j > 0 { assert overrides[j] == rest[j - 1]; }
        }
        assert FirstOf(overrides, i + 1, night) && overrides[i + 1] == rest[i];
      }
    }
  }

  /** A night costs the base, what its override adds and what the modifiers that count on it add. */
  lemma NightInFull(plan: Plan, night: int) returns (part: int)
    ensures Overriding(plan, night, part)
    ensures NightTotal(plan, night) == plan.base.amount + part + Surcharges(plan.base, plan.modifiers, night)
  {
    var overriding, calendar := OverrideItems(plan, night), CalendarItems(plan.base, plan.modifiers, night);
    part := SumItems(overriding);
    SumItemsConcat(overriding, calendar);
    CalendarAdds(plan.base, plan.modifiers, night);
    FirstCoveringIsFirst(plan.overrides, night);
    if overriding != [] { SumItemsSplit([], overriding[0]); }
  }

  /** A weekend modifier more adds its percentage on exactly the nights that are whole weeks from one of
      its weekdays. */
  lemma WeekendAdds(plan: Plan, id: nat, weekdays: set<int>, percent: int, night: int)
    ensures var more := plan.(modifiers := plan.modifiers + [Weekend(id, weekdays, percent)]);
      NightTotal(more, night) == NightTotal(plan, night) +
        if exists n :: n in weekdays && 1 <= n <= 7 && (night - n) % 7 == 0 then Share(plan.base, percent) else 0
  {
    var m := Weekend(id, weekdays, percent);
    var more := plan.(modifiers := plan.modifiers + [m]);
    assert more.modifiers[..|plan.modifiers|] == plan.modifiers;
    CalendarAdds(plan.base, plan.modifiers, night);
    CalendarAdds(plan.base, more.modifiers, night);
    SumItemsConcat(OverrideItems(plan, night), CalendarItems(plan.base, plan.modifiers, night));
    SumItemsConcat(OverrideItems(more, night), CalendarItems(plan.base, more.modifiers, night));
  }

  // ---------------------------------------------------------------- the whole stay

  /** The subtotal is the sum of the nights and what the stay's own modifiers add to it; the total is the
      subtotal, but no more than the ceiling, and whatever the ceiling no less than the floor. */
  lemma StayInFull(plan: Plan, stay: Stay, bounds: Bounds)
    ensures Subtotal(plan, stay) == NightsTotal(plan, stay.arrival, stay.nights)
      + StaySurcharges(Money(NightsTotal(plan, stay.arrival, stay.nights), plan.base.currency), plan.modifiers, stay)
    ensures stay.nights == 0 ==> NightsTotal(plan, stay.arrival, stay.nights) == 0
    ensures stay.nights > 0 ==> NightsTotal(plan, stay.arrival, stay.nights) ==
                                NightsTotal(plan, stay.arrival, stay.nights - 1) + NightTotal(plan, stay.arrival + stay.nights - 1)
    ensures var total := Clamped(Subtotal(plan, stay), bounds);
      && (bounds.floor.Some? ==> total >= bounds.floor.value)
      && (bounds.ceiling.Some? && (bounds.floor.None? || bounds.floor.value <= bounds.ceiling.value) ==> total <= bounds.ceiling.value)
  {
    SegmentsAdd(NightsMoney(plan, stay), plan.modifiers, stay);
  }

  /** The modifiers that count on a night, in list order. */
  ghost function Counting(modifiers: seq<Modifier>, night: int): seq<Modifier> {
    if modifiers == [] then []
    else
      var last := modifiers[|modifiers| - 1];
      Counting(modifiers[..|modifiers| - 1], night) + if CountsOn(last, night) then [last] else []
  }

  /** The itemised adjustments of a night name what they are for, in list order. */
  lemma {:induction false} ItemsNameModifiers(base: Money, modifiers: seq<Modifier>, night: int)
    ensures var items, counting := CalendarItems(base, modifiers, night), Counting(modifiers, night);
      |items| == |counting| && forall i :: 0 <= i < |items| ==>
        items[i] == LineItem(ModifierLabel(counting[i]), Money(Share(base, counting[i].percent), base.currency))
  {
    if modifiers != [] {
      ItemsNameModifiers(base, modifiers[..|modifiers| - 1], night);
      NightMatchesExactly(modifiers[|modifiers| - 1], night);
    }
  }

  /** And the override of the night comes first, named by its id. */
  lemma ItemsNameOverride(plan: Plan, night: int)
    ensures var items, calendar := NightItems(plan, night), CalendarItems(plan.base, plan.modifiers, night);
      if forall o :: o in plan.overrides ==> night < o.start || o.end < night then items == calendar
      else exists i :: 0 <= i < |plan.overrides| && FirstOf(plan.overrides, i, night) &&
                       items == [LineItem(OverrideLabel(plan.overrides[i].id),
                                          Money(AdjustmentOf(plan.overrides[i].adjustment, plan.base), plan.base.currency))] + calendar
  {
    FirstCoveringIsFirst(plan.overrides, night);
    var o := FirstCovering(plan.overrides, night);
    if o.Some? {
      var i :| 0 <= i < |plan.overrides| && FirstOf(plan.overrides, i, night) && plan.overrides[i] == o.value;
      assert plan.overrides[i] in plan.overrides;
    } else {
      assert [] + CalendarItems(plan.base, plan.modifiers, night) == CalendarItems(plan.base, plan.modifiers, night);
    }
  }

  // ---------------------------------------------------------------- when there is a price

  /** A percentage the arithmetic can give. */
  predicate InRange(product: int) {
    -(E30 - 50) < product < E30 - 50
  }

  /** Every percentage that counts on a night is in range, and the night does not come out negative. */
  ghost predicate NightComesOut(plan: Plan, night: int) {
    && (forall i :: 0 <= i < |plan.overrides| && FirstOf(plan.overrides, i, night) && plan.overrides[i].adjustment.Percent? ==>
          InRange(plan.base.amount * plan.overrides[i].adjustment.percent))
    && (forall m :: m in plan.modifiers && CountsOn(m, night) ==> InRange(plan.base.amount * m.percent))
    && NightTotal(plan, night) >= 0
  }

  lemma NightComesOutExactly(plan: Plan, night: int)
    ensures NightPriceable(plan, night) <==> NightComesOut(plan, night)
  {
    forall percent ensures plan.base.PercentageOf(percent).Ok? <==> InRange(plan.base.amount * percent) {
      PercentageDefined(plan.base, percent);
    }
    forall m | m in plan.modifiers ensures m.MatchesNight(night) <==> CountsOn(m, night) { NightMatchesExactly(m, night); }
    FirstCoveringIsFirst(plan.overrides, night);
    forall i | 0 <= i < |plan.overrides| && FirstOf(plan.overrides, i, night)
      ensures FirstCovering(plan.overrides, night) == Some(plan.overrides[i])
    {
      assert plan.overrides[i] in plan.overrides;
    }
  }

  /** A price comes out exactly for an active plan each of whose nights comes out, whose stay percentages are
      in range, and whose subtotal and total are not negative. */
  lemma PriceComesOutExactly(plan: Plan, stay: Stay, bounds: Bounds)
    ensures Priceable(plan, stay, bounds) <==>
      && plan.active
      && (forall night :: stay.arrival <= night < stay.arrival + stay.nights ==> NightComesOut(plan, night))
      && (forall m :: m in plan.modifiers && CountsFor(m, stay) ==>
            InRange(NightsTotal(plan, stay.arrival, stay.nights) * m.percent))
      && Subtotal(plan, stay) >= 0 && Clamped(Subtotal(plan, stay), bounds) >= 0
  {
    forall night ensures NightPriceable(plan, night) <==> NightComesOut(plan, night) { NightComesOutExactly(plan, night); }
    var nights := NightsMoney(plan, stay);
    forall m | m in plan.modifiers
      ensures nights.PercentageOf(m.percent).Ok? <==> InRange(nights.amount * m.percent)
      ensures m.MatchesStay(stay) <==> CountsFor(m, stay)
    {
      PercentageDefined(nights, m.percent);
      StayMatchesExactly(m, stay);
    }
  }

  /** What a night's price is checked for. */
  lemma NightChecked(night: int, base: Money, items: seq<LineItem>, total: Money)
    ensures MakeNight(night, base, items, total) ==
      if && total.currency == base.currency && total.amount >= 0
         && (forall i :: 0 <= i < |items| ==> items[i].amount.currency == base.currency)
      then Ok(NightlyPrice(night, base, items, total)) else Err(InvalidPriceBreakdown)
  {
  }

  /** What the finished price is checked for: one currency, nothing negative, and items that add up. */
  lemma BreakdownChecked(b: Breakdown)
    ensures MakeBreakdown(b) ==
      if && |b.nightly| >= 1 && b.total.currency == b.subtotal.currency
         && (forall i :: 0 <= i < |b.nightly| ==> b.nightly[i].base.currency == b.subtotal.currency)
         && (forall i :: 0 <= i < |b.stayAdjustments| ==> b.stayAdjustments[i].amount.currency == b.subtotal.currency)
         && b.total.amount >= 0 && b.subtotal.amount >= 0
         && SumNights(b.nightly) + SumItems(b.stayAdjustments) == b.subtotal.amount
      then Ok(b) else Err(InvalidPriceBreakdown)
  {
  }

  /** An override is refused exactly if its days meet those of one on the plan, or it is inverted or adjusts
      nothing; and for the first reason first. */
  lemma AddOverrideExact(overrides: seq<Override>, o: Override)
    ensures AddOverride(overrides, o) ==
      if exists i :: 0 <= i < |overrides| && overrides[i].start <= o.end && o.start <= overrides[i].end then Err(OverlappingRateOverride)
      else if o.end < o.start || o.adjustment == Absolute(0) || o.adjustment == Percent(0) then Err(ValidationError)
      else Ok(overrides + [o])
  {
  }
}
