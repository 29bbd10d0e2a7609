/**
 The monthly partitions of the slot table: named after their month, created ahead of the horizon,
 dropped by the month their name parses to.
 */
module Partitions {
  import opened Outcomes
  import opened Text
  import opened Calendar

  const PREFIX := "availability_slot_y"

  function Pad(n: nat, width: nat): string {
    if width == 0 then "" else Pad(n / 10, width - 1) + [Digit(n % 10)]
  }

  function PartitionName(month: Date): string
    requires month.Valid()
  {
    PREFIX + Pad(month.year, 4) + "m" + Pad(month.month, 2)
  }

  // ---------------------------------------------------------------- the parser

  predicate IsSpace(c: char) {
    c == ' ' || '\t' <= c <= '\r' || '\U{1c}' <= c <= '\U{1f}'
  }

  function TrimLeft(s: string): string {
    if s != [] && IsSpace(s[0]) then TrimLeft(s[1..]) else s
  }

  function TrimRight(s: string): string {
    if s != [] && IsSpace(s[|s| - 1]) then TrimRight(s[..|s| - 1]) else s
  }

  /** What comes before the last digit, and before an underscore that separates it. */
  function BeforeLast(s: string): (front: string)
    requires |s| >= 2
    ensures |front| < |s|
  {
    if s[|s| - 2] == '_' then s[..|s| - 2] else s[..|s| - 1]
  }

  /** Digits, with single underscores between them. */
  function Digits(s: string): Option<nat>
    decreases |s|
  {
    if s == [] then None
    else if !IsDigit(s[|s| - 1]) then None
    else if |s| == 1 then Some(Value(s[0]))
    else
      match Digits(BeforeLast(s))
      case None => None
      case Some(n) => Some(10 * n + Value(s[|s| - 1]))
  }

  /** What `int` makes of a string of ASCII characters. */
  function ParseInt(s: string): Option<int> {
    var t := TrimRight(TrimLeft(s));
    if t == [] then None
    else if t[0] == '-' then
      match Digits(t[1..]) { case None => None case Some(n) => Some(0 - n) }
    else
      match Digits(if t[0] == '+' then t[1..] else t) { case None => None case Some(n) => Some(n) }
  }

  function Slice(s: string, from: nat, to: nat): string
    requires from <= to
  {
    if to <= |s| then s[from..to] else if from <= |s| then s[from..] else []
  }

  /** Whatever follows the prefix: four characters of year, one of anything, two of month, the rest ignored. */
  function MonthFromPartitionName(name: string): Option<Date> {
    if !(PREFIX <= name) then None
    else
      var digits := name[|PREFIX|..];
      match (ParseInt(Slice(digits, 0, 4)), ParseInt(Slice(digits, 5, 7)))
      case (Some(year), Some(month)) => if Date(year, month, 1).Valid() then Some(Date(year, month, 1)) else None
      case _ => None
  }

  lemma {:induction false} PadIsDigits(n: nat, width: nat)
    ensures |Pad(n, width)| == width && AllDigits(Pad(n, width))
    decreases width
  {
    if width > 0 { PadIsDigits(n / 10, width - 1); }
  }

  lemma BeforeLastDigit(front: string, c: char)
    requires front != [] && IsDigit(front[|front| - 1])
    ensures BeforeLast(front + [c]) == front
  {
    var s := front + [c];
    assert s[|s| - 2] == front[|front| - 1];
    assert s[..|s| - 1] == front;
  }

  lemma {:induction false} DigitsOfPad(n: nat, width: nat)
    requires n < Power(width + 1)
    ensures Digits(Pad(n, width + 1)) == Some(n)
    decreases width
  {
    var q, u := n / 10, n % 10;
    ValueOfDigit(u);
    if width > 0 {
      var front := Pad(q, width);
      DigitsOfPad(q, width - 1);
      PadIsDigits(q, width);
      BeforeLastDigit(front, Digit(u));
      DigitsStep(front + [Digit(u)], front, q);
    } else {
      OneDigit(n);
    }
  }

  lemma OneDigit(n: nat)
    requires n < 10
    ensures Digits(Pad(n, 1)) == Some(n)
  {
    ValueOfDigit(n);
    assert Pad(n / 10, 0) == "";
    assert Pad(n, 1) == [Digit(n)];
  }

  lemma DigitsStep(s: string, front: string, n: nat)
    requires |s| >= 2 && IsDigit(s[|s| - 1]) && BeforeLast(s) == front && Digits(front) == Some(n)
    ensures Digits(s) == Some(10 * n + Value(s[|s| - 1]))
  {
  }

  function Power(width: nat): nat {
    if width == 0 then 1 else 10 * Power(width - 1)
  }

  lemma ParsePadded(n: nat, width: nat)
    requires width > 0 && n < Power(width)
    ensures |Pad(n, width)| == width && ParseInt(Pad(n, width)) == Some(n)
  {
    DigitsOfPad(n, width - 1);
    PadIsDigits(n, width);
    var s := Pad(n, width);
    assert IsDigit(s[0]) && IsDigit(s[|s| - 1]);
    assert TrimLeft(s) == s && TrimRight(s) == s;
  }

  /** Parsing a printed name gives the month back, for every year there is. */
  lemma ParsePrinted(month: Date)
    requires month.IsMonth()
    ensures MonthFromPartitionName(PartitionName(month)) == Some(month)
  {
    assert Power(4) == 10000 && Power(2) == 100;
    ParsePadded(month.year, 4);
    ParsePadded(month.month, 2);
    var name := PartitionName(month);
    var digits := name[|PREFIX|..];
    assert name == PREFIX + (Pad(month.year, 4) + "m" + Pad(month.month, 2));
    assert digits == Pad(month.year, 4) + "m" + Pad(month.month, 2);
    assert digits[0..4] == Pad(month.year, 4) && digits[5..7] == Pad(month.month, 2);
  }

  lemma {:induction false} NumberOfPad(n: nat, width: nat)
    requires n < Power(width)
    ensures AllDigits(Pad(n, width)) && Number(Pad(n, width)) == n
    decreases width
  {
    PadIsDigits(n, width);
    if width > 0 {
      NumberOfPad(n / 10, width - 1);
      ValueOfDigit(n % 10);
      assert Pad(n, width)[..width - 1] == Pad(n / 10, width - 1);
    }
  }

  /** A partition is named after the table, the year in four digits and the month in two. */
  lemma NameSpelled(month: Date)
    requires month.IsMonth()
    ensures var name := PartitionName(month);
      && |name| == 26 && name[..19] == "availability_slot_y" && name[23] == 'm'
      && AllDigits(name[19..23]) && Number(name[19..23]) == month.year
      && AllDigits(name[24..26]) && Number(name[24..26]) == month.month
  {
    assert Power(4) == 10000 && Power(2) == 100;
    NumberOfPad(month.year, 4);
    NumberOfPad(month.month, 2);
    PadIsDigits(month.year, 4);
    PadIsDigits(month.month, 2);
    var name, year, digits := PartitionName(month), Pad(month.year, 4), Pad(month.month, 2);
    assert |PREFIX| == 19 && name == PREFIX + year + "m" + digits;
    assert name[..19] == PREFIX && name[19..23] == year && name[24..26] == digits;
  }

  lemma NameInjective(a: Date, b: Date)
    requires a.IsMonth() && b.IsMonth() && PartitionName(a) == PartitionName(b)
    ensures a == b
  {
    ParsePrinted(a);
    ParsePrinted(b);
  }

  // ---------------------------------------------------------------- names nobody printed

  /** What is read as a number besides plain digits: a sign, single underscores between digits, space around. */
  lemma IntegersAsWritten()
    ensures ParseInt("07") == Some(7) && ParseInt("+7") == Some(7) && ParseInt("-7") == Some(-7)
    ensures ParseInt(" 7") == Some(7) && ParseInt("7\n") == Some(7) && ParseInt("\t7") == Some(7)
    ensures ParseInt("1_2") == Some(12)
  {
    assert Digits("7") == Some(7) && Digits("07") == Some(7) && Digits("1") == Some(1);
    Trimmed("07");
    Trimmed("+7");
    Trimmed("-7");
    Trimmed("7");
    Trimmed("1_2");
    assert "+7"[1..] == "7" && "-7"[1..] == "7";
    assert " 7"[1..] == "7" && "\t7"[1..] == "7" && "7\n"[..1] == "7";
    assert TrimLeft("7\n") == "7\n" && TrimRight("7\n") == "7" && TrimLeft(" 7") == "7" && TrimLeft("\t7") == "7";
    assert BeforeLast("1_2") == "1";
  }

  /** And what is not. */
  lemma NotIntegers()
    ensures ParseInt("") == None && ParseInt("+") == None && ParseInt("_7") == None && ParseInt("7_") == None
    ensures ParseInt("1__2") == None && ParseInt("x7") == None && ParseInt("7x") == None
  {
    Trimmed("+");
    Trimmed("_7");
    Trimmed("7_");
    Trimmed("1__2");
    Trimmed("x7");
    Trimmed("7x");
    assert "+"[1..] == "";
    assert BeforeLast("_7") == "" && BeforeLast("1__2") == "1_" && BeforeLast("x7") == "x";
    assert Digits("") == None && Digits("_7") == None && Digits("1_") == None && Digits("x") == None;
  }

  lemma Trimmed(s: string)
    requires s != [] && !IsSpace(s[0]) && !IsSpace(s[|s| - 1])
    ensures TrimRight(TrimLeft(s)) == s
  {
  }

  lemma MonthRead(year: string, any: char, month: string, rest: string)
    requires |year| == 4 && |month| == 2
    ensures MonthFromPartitionName("availability_slot_y" + year + [any] + month + rest) ==
      match (ParseInt(year), ParseInt(month))
      case (Some(y), Some(m)) => if 1 <= y <= 9999 && 1 <= m <= 12 then Some(Date(y, m, 1)) else None
      case _ => None
  {
    var name := "availability_slot_y" + year + [any] + month + rest;
    assert PREFIX <= name;
    var digits := name[|PREFIX|..];
    assert digits == year + [any] + month + rest;
    assert Slice(digits, 0, 4) == year && Slice(digits, 5, 7) == month;
  }

  /** A name is read from four characters and two: the one between them and whatever follows are ignored. */
  lemma MonthsAsWritten()
    ensures MonthFromPartitionName("availability_slot_y" + "2026" + ['m'] + "03" + "") == Some(Date(2026, 3, 1))
    ensures MonthFromPartitionName("availability_slot_y" + "2026" + ['x'] + "+3" + "1_old") == Some(Date(2026, 3, 1))
    ensures MonthFromPartitionName("availability_slot_y" + "2026" + ['m'] + "13" + "") == None
    ensures MonthFromPartitionName("availability_slots") == None
  {
    MonthRead("2026", 'm', "03", "");
    MonthRead("2026", 'x', "+3", "1_old");
    MonthRead("2026", 'm', "13", "");
    YearRead();
    MonthNumbersRead();
  }

  lemma MonthNumbersRead()
    ensures ParseInt("03") == Some(3) && ParseInt("+3") == Some(3) && ParseInt("13") == Some(13)
  {
    Trimmed("+3");
    Trimmed("03");
    Trimmed("13");
    assert Digits("3") == Some(3) && Digits("03") == Some(3) && Digits("1") == Some(1) && Digits("13") == Some(13);
    assert "+3"[1..] == "3";
  }

  lemma YearRead()
    ensures ParseInt("2026") == Some(2026)
  {
    Trimmed("2026");
    assert Digits("2") == Some(2) && Digits("20") == Some(20) && Digits("202") == Some(202) && Digits("2026") == Some(2026);
  }

  // ---------------------------------------------------------------- the partitioned table

  type Catalog = map<string, Span>

  /** No two partitions overlap, and one named after a month holds that month. */
  ghost predicate CatalogOk(c: Catalog) {
    && (forall a, b :: a in c && b in c && a != b ==> !c[a].Overlaps(c[b]))
    && (forall m: Date :: m.IsMonth() && PartitionName(m) in c ==> HasNext(m) && c[PartitionName(m)] == SpanOf(m))
  }

  ghost predicate Holds(c: Catalog, name: string, d: Date) {
    name in c && c[name].Has(d)
  }

  ghost predicate InExactlyOne(c: Catalog, d: Date) {
    (exists a :: Holds(c, a, d)) && forall a, b :: Holds(c, a, d) && Holds(c, b, d) ==> a == b
  }

  /** CREATE TABLE IF NOT EXISTS ... PARTITION OF. */
  function Create(c: Catalog, month: Date): Result<Catalog>
    requires month.IsMonth()
  {
    if !HasNext(month) then Err(InvalidRequest)
    else if PartitionName(month) in c then Ok(c)
    else if exists a | a in c :: c[a].Overlaps(SpanOf(month)) then Err(IntegrityError)
    else Ok(c[PartitionName(month) := SpanOf(month)])
  }

  lemma OverlapsSymmetric(a: Span, b: Span)
    ensures a.Overlaps(b) <==> b.Overlaps(a)
  {
  }

  lemma CreateKeepsOk(c: Catalog, month: Date)
    requires CatalogOk(c) && month.IsMonth() && Create(c, month).Ok?
    ensures CatalogOk(Create(c, month).value)
    ensures Create(c, month).value.Keys == c.Keys + {PartitionName(month)} && Within(c, Create(c, month).value)
  {
    var t := Create(c, month).value;
    if PartitionName(month) !in c {
      forall a, b | a in t && b in t && a != b ensures !t[a].Overlaps(t[b]) { OverlapsSymmetric(t[a], t[b]); }
      forall m: Date | m.IsMonth() && PartitionName(m) in t ensures HasNext(m) && t[PartitionName(m)] == SpanOf(m) {
        if PartitionName(m) == PartitionName(month) { NameInjective(m, month); }
      }
    }
  }

  ghost predicate NamedAfter(name: string, month: Date) {
    month.IsMonth() && name == PartitionName(month)
  }

  /** Only monthly partitions, as every one this module has created is. */
  ghost predicate Monthly(c: Catalog) {
    forall a :: a in c ==> exists m :: NamedAfter(a, m)
  }

  lemma MonthsApart(a: Date, b: Date)
    requires a.IsMonth() && b.IsMonth() && HasNext(a) && HasNext(b) && SpanOf(a).Overlaps(SpanOf(b))
    ensures a == b
  {
  }

  /** Among monthly partitions there is always room for the one missing. */
  lemma CreateSucceeds(c: Catalog, month: Date)
    requires CatalogOk(c) && Monthly(c) && month.IsMonth() && HasNext(month)
    ensures Create(c, month).Ok? && Monthly(Create(c, month).value)
  {
    forall a | a in c && c[a].Overlaps(SpanOf(month)) ensures PartitionName(month) in c {
      var m :| NamedAfter(a, m);
      MonthsApart(m, month);
    }
    assert NamedAfter(PartitionName(month), month);
  }

  lemma NoOverlapNoShare(a: Span, b: Span, d: Date)
    requires !a.Overlaps(b) && a.Has(d)
    ensures !b.Has(d)
  {
  }

  /** A date held at all is held once. */
  lemma HeldOnce(c: Catalog, d: Date)
    requires CatalogOk(c)
    ensures forall a, b :: Holds(c, a, d) && Holds(c, b, d) ==> a == b
  {
    forall a, b | Holds(c, a, d) && Holds(c, b, d) ensures a == b {
      if a != b { NoOverlapNoShare(c[a], c[b], d); }
    }
  }

  /** Some of the partitions of another catalog. */
  ghost predicate Within(c: Catalog, all: Catalog) {
    forall a :: a in c ==> a in all && c[a] == all[a]
  }

  lemma WithinAll(a: Catalog, b: Catalog, c: Catalog)
    requires Within(a, b) && Within(b, c)
    ensures Within(a, c)
  {
  }

  lemma WithinKeepsOk(c: Catalog, all: Catalog)
    requires Within(c, all) && CatalogOk(all)
    ensures CatalogOk(c)
  {
  }

  /** The name of a month before the given one. */
  predicate NamedBefore(name: string, month: Date) {
    var m := MonthFromPartitionName(name);
    m.Some? && m.value.Before(month) && name == PartitionName(m.value)
  }

  /** The partition that finding a name makes the cleanup drop. */
  function Dropped(name: string, month: Date): Option<string> {
    match MonthFromPartitionName(name)
    case None => None
    case Some(m) => if m.Before(month) then Some(PartitionName(m)) else None
  }

  lemma DroppedIsNamedBefore(name: string, month: Date)
    ensures Dropped(name, month).Some? ==> NamedBefore(Dropped(name, month).value, month)
    ensures NamedBefore(name, month) ==> Dropped(name, month) == Some(name)
  {
    if Dropped(name, month).Some? { ParsePrinted(MonthFromPartitionName(name).value); }
  }

  function DroppedNames(existing: seq<string>, month: Date): (gone: seq<Option<string>>)
    ensures |gone| == |existing|
  {
    seq(|existing|, i requires 0 <= i < |existing| => Dropped(existing[i], month))
  }

  /** Those of the names that make something go, in order. */
  function Chosen(existing: seq<string>, gone: seq<Option<string>>): seq<string>
    requires |gone| == |existing|
  {
    if existing == [] then []
    else
      var n := |existing| - 1;
      Chosen(existing[..n], gone[..n]) + if gone[n].Some? then [existing[n]] else []
  }

  /** Exactly what some name makes go. */
  ghost predicate Goes(gone: seq<Option<string>>, removed: set<string>) {
    && (forall a :: a in removed ==> exists j :: 0 <= j < |gone| && gone[j] == Some(a))
    && (forall j :: 0 <= j < |gone| && gone[j].Some? ==> gone[j].value in removed)
  }

  lemma OneMoreGoes(existing: seq<string>, gone: seq<Option<string>>, i: nat, removed: set<string>)
    requires i < |gone| == |existing| && Goes(gone[..i], removed)
    ensures Goes(gone[..i + 1], if gone[i].Some? then removed + {gone[i].value} else removed)
    ensures Chosen(existing[..i + 1], gone[..i + 1]) ==
            Chosen(existing[..i], gone[..i]) + if gone[i].Some? then [existing[i]] else []
  {
    var before, after := gone[..i], gone[..i + 1];
    assert after[..i] == before && after[i] == gone[i] && existing[..i + 1][..i] == existing[..i];
    forall a | a in removed ensures exists j :: 0 <= j < |after| && after[j] == Some(a) {
      var j :| 0 <= j < |before| && before[j] == Some(a);
      assert after[j] == Some(a);
    }
    assert forall j :: 0 <= j < |before| ==> after[j] == before[j];
  }

  /** Whatever the names are: of the existing ones, exactly those of earlier months are dropped. */
  lemma RemovedExactly(existing: seq<string>, month: Date, removed: set<string>)
    requires Goes(DroppedNames(existing, month), removed)
    ensures forall a :: a in removed ==> NamedBefore(a, month)
    ensures forall a :: a in existing && NamedBefore(a, month) ==> a in removed
  {
    var gone := DroppedNames(existing, month);
    forall a | a in removed ensures NamedBefore(a, month) {
      var j :| 0 <= j < |gone| && gone[j] == Some(a);
      DroppedIsNamedBefore(existing[j], month);
    }
    forall a | a in existing && NamedBefore(a, month) ensures a in removed {
      var j :| 0 <= j < |existing| && existing[j] == a;
      DroppedIsNamedBefore(a, month);
      assert gone[j] == Dropped(existing[j], month);
    }
  }

  /** Removing only partitions named after earlier months removes no date from the cutoff on. */
  lemma KeepsFrom(all: Catalog, c: Catalog, cutoff: Date)
    requires CatalogOk(all) && Within(c, all) && cutoff.Valid()
    requires forall a :: a in all && a !in c ==> NamedBefore(a, MonthStart(cutoff))
    ensures forall a, d: Date :: d.Valid() && cutoff.AtMost(d) && Holds(all, a, d) ==> Holds(c, a, d)
  {
    forall a, d: Date | d.Valid() && cutoff.AtMost(d) && Holds(all, a, d) ensures Holds(c, a, d) {
      if NamedBefore(a, MonthStart(cutoff)) { SpanIsMonth(MonthFromPartitionName(a).value, d); }
    }
  }

  function MonthAt(index: int): Date {
    Date(1 + index / 12, 1 + index % 12, 1)
  }

  /** The names of the months from one date's to another's, both included, in order. */
  ghost predicate NamesFrom(names: seq<string>, start: Date, end: Date) {
    && |names| == (if start.Index() <= end.Index() then end.Index() - start.Index() + 1 else 0)
    && forall i :: 0 <= i < |names| ==> NamedAfter(names[i], MonthAt(start.Index() + i))
  }

  /** A name for each of the months. */
  ghost predicate NamesEach(names: seq<string>, months: seq<Date>) {
    |names| == |months| && forall i :: 0 <= i < |months| ==> NamedAfter(names[i], months[i])
  }

  lemma OneMoreName(names: seq<string>, months: seq<Date>, i: nat)
    requires i < |months| && months[i].IsMonth() && NamesEach(names, months[..i])
    ensures NamesEach(names + [PartitionName(months[i])], months[..i + 1])
  {
    assert forall j :: 0 <= j < i ==> months[..i][j] == months[j];
  }

  lemma MonthOfIndex(month: Date)
    requires month.IsMonth()
    ensures MonthAt(month.Index()) == month
  {
  }

  lemma MonthsAt(months: seq<Date>, start: Date, end: Date, i: nat)
    requires start.Valid() && end.Valid() && AllMonths(months, MonthStart(start), MonthStart(end)) && i < |months|
    ensures months[i] == MonthAt(start.Index() + i)
  {
    MonthOfIndex(months[i]);
  }

  lemma NamesOfAllMonths(names: seq<string>, months: seq<Date>, start: Date, end: Date)
    requires start.Valid() && end.Valid() && AllMonths(months, MonthStart(start), MonthStart(end)) && NamesEach(names, months)
    ensures NamesFrom(names, start, end)
  {
    forall i: nat | i < |names| ensures NamedAfter(names[i], MonthAt(start.Index() + i)) {
      MonthsAt(months, start, end, i);
      assert NamedAfter(names[i], months[i]);
    }
  }

  /** Every month of a range that does not reach the last one has a next. */
  lemma MonthsHaveNext(months: seq<Date>, start: Date, end: Date)
    requires start.Valid() && end.Valid() && AllMonths(months, MonthStart(start), MonthStart(end))
    requires start.Index() <= end.Index() ==> end.year < MAX_YEAR || end.month < 12
    ensures forall i :: 0 <= i < |months| ==> HasNext(months[i])
  {
    forall i | 0 <= i < |months| ensures HasNext(months[i]) { assert months[i].Index() <= end.Index(); }
  }

  /** With a partition for each month, every date of the range is in the partition of its month. */
  lemma MonthsHeld(c: Catalog, months: seq<Date>, names: seq<string>, start: Date, end: Date)
    requires CatalogOk(c) && start.Valid() && end.Valid() && AllMonths(months, MonthStart(start), MonthStart(end))
    requires NamesEach(names, months) && forall a :: a in names ==> a in c
    requires forall i :: 0 <= i < |months| ==> HasNext(months[i])
    ensures forall d: Date :: d.Valid() && start.AtMost(d) && d.AtMost(end) ==> Holds(c, PartitionName(MonthStart(d)), d)
  {
    forall d: Date | d.Valid() && start.AtMost(d) && d.AtMost(end) ensures Holds(c, PartitionName(MonthStart(d)), d) {
      MonthsTile(months, start, end, d);
      var i :| 0 <= i < |months| && SpanOf(months[i]).Has(d);
      SpanIsMonth(months[i], d);
      assert names[i] in names;
    }
  }

  class PartitionedTable {
    var partitions: Catalog

    constructor ()
      ensures Valid() && partitions == map[]
    {
      partitions := map[];
    }

    ghost predicate Valid()
      reads this
    {
      CatalogOk(partitions)
    }

    /** A partition for each month, one after the other, those that exist left alone. */
    method CreateEach(months: seq<Date>) returns (r: Result<seq<string>>)
      requires Valid() && forall i :: 0 <= i < |months| ==> months[i].IsMonth()
      modifies this
      ensures Valid() && Within(old(partitions), partitions)
      ensures Monthly(old(partitions)) ==> Monthly(partitions)
      ensures Monthly(old(partitions)) && (forall i :: 0 <= i < |months| ==> HasNext(months[i])) ==> r.Ok?
      ensures r.Ok? ==> NamesEach(r.value, months) && forall a :: a in partitions <==> a in old(partitions) || a in r.value
    {
      var names: seq<string> := [];
      for i := 0 to |months|
        invariant Valid() && Within(old(partitions), partitions) && NamesEach(names, months[..i])
        invariant Monthly(old(partitions)) ==> Monthly(partitions)
        invariant forall a :: a in partitions <==> a in old(partitions) || a in names
      {
        var month := months[i];
        var created := Create(partitions, month);
        if Monthly(partitions) && HasNext(month) { CreateSucceeds(partitions, month); }
        if created.Err? { return Err(created.error); }
        CreateKeepsOk(partitions, month);
        WithinAll(old(partitions), partitions, created.value);
        OneMoreName(names, months, i);
        partitions := created.value;
        names := names + [PartitionName(month)];
      }
      return Ok(names);
    }

    /** A partition for every month of the range; existing ones are left alone, and nothing is removed. */
    method EnsurePartitions(start: Date, end: Date) returns (r: Result<seq<string>>)
      requires Valid() && start.Valid() && end.Valid()
      modifies this
      ensures Valid() && Within(old(partitions), partitions)
      ensures r.Ok? ==> NamesFrom(r.value, start, end) && forall a :: a in partitions <==> a in old(partitions) || a in r.value
      ensures start.Index() <= end.Index() && end.year == MAX_YEAR && end.month == 12 ==> r.Err?
      ensures Monthly(old(partitions)) ==> Monthly(partitions)
      ensures Monthly(old(partitions)) ==>
        (r.Err? <==> start.Index() <= end.Index() && end.year == MAX_YEAR && end.month == 12)
      ensures r.Ok? ==> forall d: Date :: d.Valid() && start.AtMost(d) && d.AtMost(end) ==>
        Holds(partitions, PartitionName(MonthStart(d)), d)
    {
      var months := IterMonths(start, end);
      if months.Err? { return Err(months.error); }
      MonthsHaveNext(months.value, start, end);
      r := CreateEach(months.value);
      if r.Ok? {
        NamesOfAllMonths(r.value, months.value, start, end);
        MonthsHeld(partitions, months.value, r.value, start, end);
      }
    }

    /** DROP TABLE IF EXISTS for each name that has a partition to drop. */
    method DropEach(existing: seq<string>, gone: seq<Option<string>>)
      returns (dropped: seq<string>, ghost removed: set<string>)
      requires |gone| == |existing|
      modifies this
      ensures partitions == old(partitions) - removed && Goes(gone, removed) && dropped == Chosen(existing, gone)
    {
      dropped, removed := [], {};
      for i := 0 to |existing|
        invariant partitions == old(partitions) - removed && Goes(gone[..i], removed)
        invariant dropped == Chosen(existing[..i], gone[..i])
      {
        OneMoreGoes(existing, gone, i, removed);
        if gone[i].Some? {
          removed := removed + {gone[i].value};
          partitions := partitions - {gone[i].value};
          dropped := dropped + [existing[i]];
        } else {
          assert dropped + [] == dropped;
        }
      }
      assert gone[..|gone|] == gone && existing[..|existing|] == existing;
    }

    /**
     For every existing name that parses to a month before the cutoff's, drop the partition of that
     month.  Whatever other names there are, exactly the partitions named after earlier months go.
     */
    method DropPartitionsBefore(cutoff: Date, existing: seq<string>) returns (dropped: seq<string>)
      requires Valid() && cutoff.Valid()
      requires forall a :: a in existing <==> a in partitions
      modifies this
      ensures Valid() && dropped == Chosen(existing, DroppedNames(existing, MonthStart(cutoff)))
      ensures forall a :: a in partitions <==> a in old(partitions) && !NamedBefore(a, MonthStart(cutoff))
      ensures Within(partitions, old(partitions))
      ensures forall a, d: Date :: d.Valid() && cutoff.AtMost(d) && Holds(old(partitions), a, d) ==> Holds(partitions, a, d)
    {
      ghost var removed;
      dropped, removed := DropEach(existing, DroppedNames(existing, MonthStart(cutoff)));
      RemovedExactly(existing, MonthStart(cutoff), removed);
      WithinKeepsOk(partitions, old(partitions));
      KeepsFrom(old(partitions), partitions, cutoff);
    }

    /** Ensure, then drop: every date from today to the horizon is in exactly one partition. */
    method Manage(today: Date, end: Date) returns (r: Result<seq<string>>)
      requires Valid() && today.Valid() && end.Valid()
      modifies this
      ensures Valid()
      ensures r.Ok? ==> forall d: Date :: d.Valid() && today.AtMost(d) && d.AtMost(end) ==> InExactlyOne(partitions, d)
    {
      r := EnsurePartitions(today, end);
      if r.Err? { return; }
      var existing := Names(partitions);
      var dropped := DropPartitionsBefore(today, existing);
      forall d: Date | d.Valid() && today.AtMost(d) && d.AtMost(end) ensures InExactlyOne(partitions, d) {
        assert Holds(partitions, PartitionName(MonthStart(d)), d);
        HeldOnce(partitions, d);
      }
    }

    /** The names in the catalog, in no particular order. */
    static method Names(c: Catalog) returns (names: seq<string>)
      ensures forall a :: a in names <==> a in c
    {
      names := [];
      var rest := c.Keys;
      while rest != {}
        invariant forall a :: a in c <==> a in names || a in rest
        decreases |rest|
      {
        var a :| a in rest;
        names, rest := names + [a], rest - {a};
      }
    }
  }
}
