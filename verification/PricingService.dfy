/**
 The rate plan and its price computation as they run: lists built up night by night, amounts added
 one at a time with their currency checks, and the value objects checked as they are constructed.
 */
module PricingService {
  import opened Outcomes
  import opened Money
  import opened Pricing

  ghost function NightEntry(plan: Plan, night: int): NightlyPrice {
    NightlyPrice(night, plan.base, NightItems(plan, night), Money(NightTotal(plan, night), plan.base.currency))
  }

  /** The entries of the nights from the first on, in order. */
  ghost predicate NightsInOrder(plan: Plan, arrival: int, nightly: seq<NightlyPrice>) {
    forall i :: 0 <= i < |nightly| ==> nightly[i] == NightEntry(plan, arrival + i)
  }

  /** Column by column: consecutive nights from the first, each with the base, its adjustments and its total. */
  lemma EntriesInTables(plan: Plan, arrival: int, nightly: seq<NightlyPrice>)
    ensures NightsInOrder(plan, arrival, nightly) <==> forall i :: 0 <= i < |nightly| ==>
      && nightly[i].night == arrival + i && nightly[i].base == plan.base
      && nightly[i].adjustments == NightItems(plan, arrival + i)
      && nightly[i].total.amount == NightTotal(plan, arrival + i) && nightly[i].total.currency == plan.base.currency
  {
  }

  /** The first nights, as many as there are entries, priced. */
  ghost predicate Priced(plan: Plan, arrival: int, nightly: seq<NightlyPrice>) {
    NightsInOrder(plan, arrival, nightly) && NightsPriceable(plan, arrival, |nightly|)
  }

  ghost predicate PricedOrNot(plan: Plan, night: int, r: Result<NightlyPrice>) {
    if NightPriceable(plan, night) then r == Ok(NightEntry(plan, night))
    else r.Err? && (r.error == InvalidOperation || r.error == InvalidPriceBreakdown)
  }

  /** All nights priced, or one that cannot be. */
  ghost predicate AllPricedOrNot(plan: Plan, arrival: int, nights: nat, r: Result<seq<NightlyPrice>>) {
    if NightsPriceable(plan, arrival, nights) then r.Ok? && |r.value| == nights && NightsInOrder(plan, arrival, r.value)
    else r.Err? && (r.error == InvalidOperation || r.error == InvalidPriceBreakdown)
  }

  /** One more night priced, or one that cannot be. */
  lemma OneMoreNight(plan: Plan, arrival: int, nightly: seq<NightlyPrice>, nights: nat, r: Result<NightlyPrice>)
    requires Priced(plan, arrival, nightly) && |nightly| < nights && PricedOrNot(plan, arrival + |nightly|, r)
    ensures r.Ok? ==> Priced(plan, arrival, nightly + [r.value])
    ensures r.Err? ==> AllPricedOrNot(plan, arrival, nights, Err(r.error))
  {
  }

  lemma {:induction false} NightsAddUp(plan: Plan, arrival: int, nightly: seq<NightlyPrice>)
    requires NightsInOrder(plan, arrival, nightly)
    ensures SumNights(nightly) == NightsTotal(plan, arrival, |nightly|)
  {
    if nightly != [] { NightsAddUp(plan, arrival, nightly[..|nightly| - 1]); }
  }

  lemma {:induction false} ItemsInCurrency(plan: Plan, subtotal: Money, modifiers: seq<Modifier>, night: int, stay: Stay)
    ensures AllIn(CalendarItems(plan.base, modifiers, night), plan.base.currency)
    ensures AllIn(SegmentItems(subtotal, modifiers, stay), subtotal.currency)
  {
    if modifiers != [] { ItemsInCurrency(plan, subtotal, modifiers[..|modifiers| - 1], night, stay); }
  }

  class RatePlan {
    var active: bool
    var base: Money
    var overrides: seq<Override>
    var modifiers: seq<Modifier>

    constructor (base: Money)
      ensures State() == Plan(false, base, [], []) && Valid()
    {
      active, this.base, overrides, modifiers := false, base, [], [];
    }

    function State(): Plan
      reads this
    {
      Plan(active, base, overrides, modifiers)
    }

    /** Active overrides never overlap. */
    ghost predicate Valid()
      reads this
    {
      Disjoint(overrides)
    }

    method Activate()
      requires Valid()
      modifies this`active
      ensures Valid() && State() == old(State()).(active := true)
    {
      active := true;
    }

    method AddOverride(o: Override) returns (r: Result<()>)
      requires Valid()
      modifies this`overrides
      ensures Valid()
      ensures match Pricing.AddOverride(old(overrides), o)
        case Ok(added) => r.Ok? && overrides == added
        case Err(e) => r == Err(e) && overrides == old(overrides)
    {
      for i := 0 to |overrides|
        invariant forall j :: 0 <= j < i ==> !o.Overlaps(overrides[j])
      {
        if o.Overlaps(overrides[i]) { return Err(OverlappingRateOverride); }
      }
      if !o.Storable() { return Err(ValidationError); }
      assert forall i :: 0 <= i < |overrides| ==> !overrides[i].Overlaps(o) == !o.Overlaps(overrides[i]);
      overrides := overrides + [o];
      return Ok(());
    }

    /** The first override in the list that covers the night. */
    method OverrideCovering(night: int) returns (found: Option<Override>)
      ensures found == FirstCovering(overrides, night)
    {
      var i := 0;
      while i < |overrides|
        invariant 0 <= i <= |overrides| && FirstCovering(overrides, night) == FirstCovering(overrides[i..], night)
      {
        if overrides[i].Covers(night) { return Some(overrides[i]); }
        assert overrides[i..][1..] == overrides[i + 1..];
        i := i + 1;
      }
      return None;
    }

    /** The adjustment of the override covering the night, if there is one. */
    method OverrideAdjustment(night: int) returns (r: Result<seq<LineItem>>)
      ensures r.Ok? <==> FirstCovering(overrides, night).Some? ==>
        Defined(FirstCovering(overrides, night).value.adjustment, base)
      ensures r.Ok? ==> r.value == OverrideItems(State(), night)
      ensures r.Err? ==> r.error == InvalidOperation
    {
      var found := OverrideCovering(night);
      if found.None? { return Ok([]); }
      match found.value.adjustment {
        case Absolute(minor) =>
          return Ok([LineItem(OverrideLabel(found.value.id), Money(minor, base.currency))]);
        case Percent(percent) =>
          var share := base.PercentageOf(percent);
          if share.Err? { return Err(share.error); }
          return Ok([LineItem(OverrideLabel(found.value.id), share.value)]);
      }
    }

    /** The calendar modifiers that match the night, in list order. */
    method CalendarAdjustments(night: int) returns (r: Result<seq<LineItem>>)
      ensures r.Ok? <==> CalendarDefined(base, modifiers, night)
      ensures r.Ok? ==> r.value == CalendarItems(base, modifiers, night)
      ensures r.Err? ==> r.error == InvalidOperation
    {
      var items: seq<LineItem> := [];
      var i := 0;
      while i < |modifiers|
        invariant 0 <= i <= |modifiers| && items == CalendarItems(base, modifiers[..i], night)
        invariant CalendarDefined(base, modifiers[..i], night)
      {
        var m := modifiers[i];
        assert modifiers[..i + 1][..i] == modifiers[..i] && modifiers[..i + 1] == modifiers[..i] + [m];
        if m.MatchesNight(night) {
          var share := base.PercentageOf(m.percent);
          if share.Err? { return Err(share.error); }
          items := items + [LineItem(ModifierLabel(m), share.value)];
        }
        i := i + 1;
      }
      assert modifiers[..i] == modifiers;
      return Ok(items);
    }

    /** The adjustments of one night; an error when a percentage is outside the arithmetic. */
    method Adjustments(night: int) returns (r: Result<seq<LineItem>>)
      ensures r.Ok? <==> NightDefined(State(), night)
      ensures r.Ok? ==> r.value == NightItems(State(), night)
      ensures r.Err? ==> r.error == InvalidOperation
    {
      var overriding :- OverrideAdjustment(night);
      var calendar :- CalendarAdjustments(night);
      return Ok(overriding + calendar);
    }

    /** Base plus adjustments, one addition at a time; the currencies always agree. */
    static method AddUp(start: Money, items: seq<LineItem>) returns (total: Money)
      requires AllIn(items, start.currency)
      ensures total == Money(start.amount + SumItems(items), start.currency)
    {
      total := start;
      for i := 0 to |items|
        invariant total == Money(start.amount + SumItems(items[..i]), start.currency)
      {
        assert items[..i + 1][..i] == items[..i];
        var sum := total.Add(items[i].amount);
        assert sum.Ok?;
        total := sum.value;
      }
      assert items[..|items|] == items;
    }

    method PriceNight(night: int) returns (r: Result<NightlyPrice>)
      ensures PricedOrNot(State(), night, r)
    {
      var items :- Adjustments(night);
      ItemsInCurrency(State(), base, modifiers, night, Stay(night, 1, false));
      var total := AddUp(base, items);
      return MakeNight(night, base, items, total);
    }

    method PriceNights(stay: Stay) returns (r: Result<seq<NightlyPrice>>)
      ensures AllPricedOrNot(State(), stay.arrival, stay.nights, r)
    {
      ghost var plan := State();
      var nightly: seq<NightlyPrice> := [];
      for offset := 0 to stay.nights
        invariant |nightly| == offset && Priced(plan, stay.arrival, nightly)
      {
        var night := PriceNight(stay.arrival + offset);
        OneMoreNight(plan, stay.arrival, nightly, stay.nights, night);
        if night.Err? { return Err(night.error); }
        nightly := nightly + [night.value];
      }
      return Ok(nightly);
    }

    /** Segment modifiers, each a percentage of the same nightly subtotal. */
    method StayAdjustments(subtotal: Money, stay: Stay) returns (r: Result<seq<LineItem>>)
      ensures r.Ok? <==> SegmentsDefined(subtotal, modifiers, stay)
      ensures r.Ok? ==> r.value == SegmentItems(subtotal, modifiers, stay)
      ensures r.Err? ==> r.error == InvalidOperation
    {
      var items: seq<LineItem> := [];
      var i := 0;
      while i < |modifiers|
        invariant 0 <= i <= |modifiers| && items == SegmentItems(subtotal, modifiers[..i], stay)
        invariant SegmentsDefined(subtotal, modifiers[..i], stay)
      {
        var m := modifiers[i];
        assert modifiers[..i + 1][..i] == modifiers[..i] && modifiers[..i + 1] == modifiers[..i] + [m];
        if m.MatchesStay(stay) {
          var share := subtotal.PercentageOf(m.percent);
          if share.Err? { return Err(share.error); }
          items := items + [LineItem(ModifierLabel(m), share.value)];
        }
        i := i + 1;
      }
      assert modifiers[..i] == modifiers;
      return Ok(items);
    }

    /** The sum over the nights. */
    static method SumOfNights(nightly: seq<NightlyPrice>, currency: string) returns (total: Money)
      requires forall i :: 0 <= i < |nightly| ==> nightly[i].total.currency == currency
      ensures total == Money(SumNights(nightly), currency)
    {
      total := Money(0, currency);
      for i := 0 to |nightly|
        invariant total == Money(SumNights(nightly[..i]), currency)
      {
        assert nightly[..i + 1][..i] == nightly[..i];
        var sum := total.Add(nightly[i].total);
        assert sum.Ok?;
        total := sum.value;
      }
      assert nightly[..|nightly|] == nightly;
    }

    /** Both bounds, ceiling first. */
    static method Clamp(subtotal: Money, bounds: Bounds) returns (total: Money)
      ensures total == Money(Clamped(subtotal.amount, bounds), subtotal.currency)
    {
      total := subtotal;
      if bounds.ceiling.Some? && total.amount > bounds.ceiling.value {
        total := Money(bounds.ceiling.value, subtotal.currency);
      }
      if bounds.floor.Some? && total.amount < bounds.floor.value {
        total := Money(bounds.floor.value, subtotal.currency);
      }
    }

    /** The nights in order and their sum. */
    method NightlySubtotal(stay: Stay) returns (r: Result<(seq<NightlyPrice>, Money)>)
      ensures r.Ok? <==> NightsPriceable(State(), stay.arrival, stay.nights)
      ensures r.Ok? ==> |r.value.0| == stay.nights && NightsInOrder(State(), stay.arrival, r.value.0)
      ensures r.Ok? ==> r.value.1 == NightsMoney(State(), stay) && SumNights(r.value.0) == r.value.1.amount
      ensures r.Err? ==> r.error == InvalidOperation || r.error == InvalidPriceBreakdown
    {
      var nightly :- PriceNights(stay);
      NightsAddUp(State(), stay.arrival, nightly);
      var nights := SumOfNights(nightly, base.currency);
      return Ok((nightly, nights));
    }

    /** The stay's adjustments on top of its nights, clamped; only a negative amount can be refused. */
    method Conclude(stay: Stay, bounds: Bounds, nightly: seq<NightlyPrice>, adjustments: seq<LineItem>)
      returns (r: Result<Breakdown>)
      requires nightly != [] && NightsInOrder(State(), stay.arrival, nightly)
      requires SumNights(nightly) == NightsMoney(State(), stay).amount
      requires adjustments == SegmentItems(NightsMoney(State(), stay), modifiers, stay)
      ensures r.Ok? <==> Subtotal(State(), stay) >= 0 && Clamped(Subtotal(State(), stay), bounds) >= 0
      ensures r.Ok? ==> r.value == Breakdown(
        nightly, Money(Subtotal(State(), stay), base.currency),
        Money(Clamped(Subtotal(State(), stay), bounds), base.currency), adjustments, bounds)
      ensures r.Err? ==> r.error == InvalidPriceBreakdown
    {
      var nights := NightsMoney(State(), stay);
      ItemsInCurrency(State(), nights, modifiers, stay.arrival, stay);
      var subtotal := AddUp(nights, adjustments);
      var total := Clamp(subtotal, bounds);
      return MakeBreakdown(Breakdown(nightly, subtotal, total, adjustments, bounds));
    }

    /**
     `_compute`: a price comes out exactly when the plan is active, every percentage is within the
     arithmetic and no night, subtotal or total is negative; the sum and currency checks of the result
     never fail.
     */
    method Compute(stay: Stay, bounds: Bounds) returns (r: Result<Breakdown>)
      requires stay.nights >= 1
      ensures r.Ok? <==> Priceable(State(), stay, bounds)
      ensures !active <==> r == Err(RatePlanNotActive)
      ensures r.Err? && active ==> r.error == InvalidOperation || r.error == InvalidPriceBreakdown
      ensures r.Ok? ==>
        && |r.value.nightly| == stay.nights && NightsInOrder(State(), stay.arrival, r.value.nightly)
        && r.value.stayAdjustments == SegmentItems(NightsMoney(State(), stay), modifiers, stay)
        && r.value.subtotal == Money(Subtotal(State(), stay), base.currency)
        && r.value.total == Money(Clamped(Subtotal(State(), stay), bounds), base.currency)
        && r.value.bounds == bounds
    {
      if !active { return Err(RatePlanNotActive); }
      var nights :- NightlySubtotal(stay);
      var adjustments :- StayAdjustments(nights.1, stay);
      r := Conclude(stay, bounds, nights.0, adjustments);
    }
  }
}
