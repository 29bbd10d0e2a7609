/**
 Decimal rendering and the composite idempotency keys built from it.

 Keys such as `<key>:line:<n>` are only safe as deduplication keys because they can
 be taken apart again; `LineKeyInjective` and `ConvertKeyInjective` say so.
 */
module Text {

  predicate IsDigit(c: char) {
    '0' <= c <= '9'
  }

  function Digit(n: nat): (c: char)
    requires n < 10
    ensures IsDigit(c)
  {
    ['0', '1', '2', '3', '4', '5', '6', '7', '8', '9'][n]
  }

  function Value(c: char): (n: nat)
    requires IsDigit(c)
    ensures n < 10
  {
    (c - '0') as int
  }

  lemma ValueOfDigit(n: nat)
    requires n < 10
    ensures Value(Digit(n)) == n
  {
    assert n == 0 || n == 1 || n == 2 || n == 3 || n == 4 || n == 5 || n == 6 || n == 7 || n == 8 || n == 9;
  }

  predicate AllDigits(s: string) {
    forall i :: 0 <= i < |s| ==> IsDigit(s[i])
  }

  /** The decimal text of a natural number, without leading zeros. */
  function Decimal(n: nat): (s: string)
    ensures s != [] && AllDigits(s)
  {
    if n < 10 then [Digit(n)] else Decimal(n / 10) + [Digit(n % 10)]
  }

  /** The number a digit string denotes. */
  function Number(s: string): nat
    requires AllDigits(s)
  {
    if s == [] then 0 else 10 * Number(s[..|s| - 1]) + Value(s[|s| - 1])
  }

  lemma {:induction false} NumberOfDecimal(n: nat)
    ensures Number(Decimal(n)) == n
  {
    if n < 10 {
      ValueOfDigit(n);
    } else {
      var front := Decimal(n / 10);
      assert Decimal(n)[..|Decimal(n)| - 1] == front;
      NumberOfDecimal(n / 10);
      ValueOfDigit(n % 10);
    }
  }

  /** Where the trailing digits of a text begin. */
  lemma TrailingDigits(a: string, separator: string, x: string)
    requires separator != [] && !IsDigit(separator[|separator| - 1]) && AllDigits(x)
    ensures var t := a + separator + x;
            !IsDigit(t[|t| - 1 - |x|]) && forall j :: |t| - |x| <= j < |t| ==> IsDigit(t[j])
  {
    var t := a + separator + x;
    assert t[|t| - 1 - |x|] == separator[|separator| - 1];
    forall j | |t| - |x| <= j < |t| ensures IsDigit(t[j]) {
      assert t[j] == x[j - |a| - |separator|];
    }
  }

  /** Trailing digits after a separator that ends in a non-digit determine both parts. */
  lemma SplitLastNumber(a: string, m: nat, b: string, n: nat, separator: string)
    requires separator != [] && !IsDigit(separator[|separator| - 1])
    requires a + separator + Decimal(m) == b + separator + Decimal(n)
    ensures a == b && m == n
  {
    var x, y := Decimal(m), Decimal(n);
    var t := a + separator + x;
    TrailingDigits(a, separator, x);
    TrailingDigits(b, separator, y);
    assert |x| == |y|;
    assert a == t[..|a|] == b;
    assert x == t[|a| + |separator|..] == y;
    NumberOfDecimal(m);
    NumberOfDecimal(n);
  }

  const LINE_SEPARATOR := ":line:"

  /** The key under which `reserve` holds its n-th line. */
  function LineKey(key: string, n: nat): string {
    key + LINE_SEPARATOR + Decimal(n)
  }

  lemma LineKeyInjective(a: string, m: nat, b: string, n: nat)
    requires LineKey(a, m) == LineKey(b, n)
    ensures a == b && m == n
  {
    SplitLastNumber(a, m, b, n, LINE_SEPARATOR);
  }

  /** The key under which `convert` sells the n-th line of a reservation. */
  function ConvertKey(reservation: nat, n: nat): string {
    LineKey("reservation:" + Decimal(reservation) + ":convert", n)
  }

  lemma ConvertKeyInjective(r: nat, m: nat, q: nat, n: nat)
    requires ConvertKey(r, m) == ConvertKey(q, n)
    ensures r == q && m == n
  {
    var a, b := "reservation:" + Decimal(r) + ":convert", "reservation:" + Decimal(q) + ":convert";
    LineKeyInjective(a, m, b, n);
    assert Decimal(r) == a[12..|a| - 8] == Decimal(q);
    NumberOfDecimal(r);
    NumberOfDecimal(q);
  }

  /** The keys as they are written. */
  lemma KeysSpelled()
    ensures LineKey("k", 12) == "k:line:12"
    ensures ConvertKey(40, 3) == "reservation:40:convert:line:3"
  {
    assert Decimal(1) == "1" && Decimal(3) == "3" && Decimal(4) == "4";
    assert Decimal(12) == "12" && Decimal(40) == "40";
  }
}
