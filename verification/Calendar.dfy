/**
 Month arithmetic on calendar dates, and the months of a range.
 */
module Calendar {
  import opened Outcomes

  const MAX_YEAR := 9999

  datatype Date = Date(year: int, month: int, day: int)
  {
    predicate Valid() {
      1 <= year <= MAX_YEAR && 1 <= month <= 12 && 1 <= day <= DaysIn(year, month)
    }

    predicate Before(other: Date) {
      year < other.year || (year == other.year && (month < other.month || (month == other.month && day < other.day)))
    }

    predicate AtMost(other: Date) {
      this == other || Before(other)
    }

    /** Months since the beginning of the calendar. */
    function Index(): int {
      12 * (year - 1) + month - 1
    }

    predicate IsMonth() {
      Valid() && day == 1
    }
  }

  predicate Leap(year: int) {
    year % 4 == 0 && (year % 100 != 0 || year % 400 == 0)
  }

  function DaysIn(year: int, month: int): int {
    if month == 2 then if Leap(year) then 29 else 28
    else if month == 4 || month == 6 || month == 9 || month == 11 then 30 else 31
  }

  function MonthStart(d: Date): Date {
    d.(day := 1)
  }

  /** The first day of the following month; there is none after the last year. */
  function NextMonthStart(d: Date): Option<Date> {
    if d.month == 12 then if d.year == MAX_YEAR then None else Some(Date(d.year + 1, 1, 1))
    else Some(Date(d.year, d.month + 1, 1))
  }

  /** Half-open. */
  datatype Span = Span(lower: Date, upper: Date)
  {
    predicate Has(d: Date) {
      lower.AtMost(d) && d.Before(upper)
    }

    predicate Overlaps(other: Span) {
      lower.Before(other.upper) && other.lower.Before(upper)
    }
  }

  predicate HasNext(month: Date) {
    NextMonthStart(month).Some?
  }

  function SpanOf(month: Date): Span
    requires HasNext(month)
  {
    Span(month, NextMonthStart(month).value)
  }

  /** The span of a month has exactly the dates of that month. */
  lemma SpanIsMonth(month: Date, d: Date)
    requires month.IsMonth() && HasNext(month) && d.Valid()
    ensures SpanOf(month).Has(d) <==> MonthStart(d) == month
  {
  }

  /** Months are the dates of their index: the next one has the next index, and order is that of the index. */
  lemma IndexOrders(a: Date, b: Date)
    requires a.IsMonth() && b.IsMonth()
    ensures a.Before(b) <==> a.Index() < b.Index()
    ensures a == b <==> a.Index() == b.Index()
    ensures HasNext(a) ==> NextMonthStart(a).value.IsMonth() && NextMonthStart(a).value.Index() == a.Index() + 1
    ensures !HasNext(a) ==> b.Index() <= a.Index()
  {
  }

  /** The months from one to another, both included. */
  ghost predicate AllMonths(months: seq<Date>, from: Date, to: Date) {
    && (forall i :: 0 <= i < |months| ==> months[i].IsMonth() && months[i].Index() == from.Index() + i)
    && |months| == if from.Index() <= to.Index() then to.Index() - from.Index() + 1 else 0
  }

  /** Where stepping from month to month stops: nowhere, or past the last month there is. */
  method IterMonths(start: Date, end: Date) returns (r: Result<seq<Date>>)
    requires start.Valid() && end.Valid()
    ensures r.Ok? ==> AllMonths(r.value, MonthStart(start), MonthStart(end))
    ensures r.Err? <==> start.Index() <= end.Index() && end.year == MAX_YEAR && end.month == 12
  {
    var current, stop := MonthStart(start), MonthStart(end);
    var months: seq<Date> := [];
    while current.AtMost(stop)
      invariant current.IsMonth() && current.Index() == start.Index() + |months|
      invariant current.Index() <= stop.Index() + 1 || months == []
      invariant forall i :: 0 <= i < |months| ==> months[i].IsMonth() && months[i].Index() == start.Index() + i
      decreases stop.Index() - current.Index()
    {
      IndexOrders(current, stop);
      months := months + [current];
      var next := NextMonthStart(current);
      if next.None? { return Err(InvalidRequest); }
      current := next.value;
    }
    IndexOrders(current, stop);
    return Ok(months);
  }

  /** The months of a range are disjoint and cover each of its dates, the last one included, exactly once. */
  lemma MonthsTile(months: seq<Date>, start: Date, end: Date, d: Date)
    requires start.Valid() && end.Valid() && d.Valid()
    requires AllMonths(months, MonthStart(start), MonthStart(end))
    requires forall i :: 0 <= i < |months| ==> HasNext(months[i])
    ensures start.AtMost(d) && d.AtMost(end) ==> exists i :: 0 <= i < |months| && SpanOf(months[i]).Has(d)
    ensures forall i, j :: 0 <= i < |months| && 0 <= j < |months| && SpanOf(months[i]).Has(d) && SpanOf(months[j]).Has(d) ==> i == j
    ensures forall i :: 0 <= i < |months| && SpanOf(months[i]).Has(d) ==>
      MonthStart(start).AtMost(d) && MonthStart(d).AtMost(MonthStart(end))
  {
    forall i | 0 <= i < |months| && SpanOf(months[i]).Has(d)
      ensures i == d.Index() - start.Index() && MonthStart(start).AtMost(d) && MonthStart(d).AtMost(MonthStart(end))
    {
      SpanIsMonth(months[i], d);
      IndexOrders(MonthStart(start), MonthStart(d));
      IndexOrders(MonthStart(d), MonthStart(end));
    }
    if start.AtMost(d) && d.AtMost(end) {
      IndexOrders(MonthStart(start), MonthStart(d));
      IndexOrders(MonthStart(d), MonthStart(end));
      var i := d.Index() - start.Index();
      IndexOrders(months[i], MonthStart(d));
      SpanIsMonth(months[i], d);
    }
  }

  // ---------------------------------------------------------------- how long years and months are

  function LeapYears(last: nat): nat {
    if last == 0 then 0 else LeapYears(last - 1) + if Leap(last) then 1 else 0
  }

  /** Up to any year there have been one leap year in four, less one in a hundred, and one in four hundred. */
  lemma {:induction false} LeapYearsCounted(last: nat)
    ensures LeapYears(last) == last / 4 - last / 100 + last / 400
  {
    if last > 0 {
      LeapYearsCounted(last - 1);
      OneMoreDivides(last, 4);
      OneMoreDivides(last, 100);
      OneMoreDivides(last, 400);
      DivisibleBy400(last);
    }
  }

  lemma OneMoreDivides(n: nat, k: nat)
    requires n > 0 && (k == 4 || k == 100 || k == 400)
    ensures n / k == (n - 1) / k + if n % k == 0 then 1 else 0
  {
  }

  lemma DivisibleBy400(n: nat)
    ensures n % 400 == 0 ==> n % 100 == 0
    ensures n % 100 == 0 ==> n % 4 == 0
  {
    var q, m, k := n / 400, n / 100, n / 4;
    assert n == 400 * q + n % 400 && n == 100 * m + n % 100 && n == 4 * k + n % 4;
    if n % 400 == 0 { MultipleOf(n, m, 4 * q, 100); }
    if n % 100 == 0 { MultipleOf(n, k, 25 * m, 4); }
  }

  lemma MultipleOf(n: nat, m: nat, p: nat, unit: nat)
    requires unit == 4 || unit == 100
    requires n == unit * p && n == unit * m + n % unit
    ensures n % unit == 0
  {
    assert m == p;
  }

  /** Days from the first of March of a year up to a month; months beyond December are those of the next year. */
  function DaysFromMarch(year: int, months: nat): int {
    if months == 0 then 0
    else
      var month := months + 2;
      DaysFromMarch(year, months - 1) + if month <= 12 then DaysIn(year, month) else DaysIn(year + 1, month - 12)
  }

  /** From March on the months come to 30.6 days each, rounded; with February the year is complete. */
  lemma MonthsAddUp(year: int)
    ensures forall months: nat :: months <= 11 ==> DaysFromMarch(year, months) == (153 * months + 2) / 5
    ensures DaysFromMarch(year, 12) == if Leap(year + 1) then 366 else 365
  {
    assert DaysFromMarch(year, 0) == 0 && DaysFromMarch(year, 1) == 31 && DaysFromMarch(year, 2) == 61;
    assert DaysFromMarch(year, 3) == 92 && DaysFromMarch(year, 4) == 122 && DaysFromMarch(year, 5) == 153;
    assert DaysFromMarch(year, 6) == 184 && DaysFromMarch(year, 7) == 214 && DaysFromMarch(year, 8) == 245;
    assert DaysFromMarch(year, 9) == 275 && DaysFromMarch(year, 10) == 306 && DaysFromMarch(year, 11) == 337;
    forall months: nat | months <= 11 ensures DaysFromMarch(year, months) == (153 * months + 2) / 5 {
      assert months == 0 || months == 1 || months == 2 || months == 3 || months == 4 || months == 5 ||
             months == 6 || months == 7 || months == 8 || months == 9 || months == 10 || months == 11;
    }
  }
}
