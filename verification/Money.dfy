/**
 Percentages of an amount in minor units, through decimal arithmetic of 28 significant digits: the
 product is rounded half-even to the precision, divided by a hundred, and rounded half away from zero
 to a whole number, which must itself fit the precision.
 */
module Money {
  import opened Outcomes

  /** An amount in minor units of one currency. */
  datatype Money = Money(amount: int, currency: string)
  {
    function Add(other: Money): Result<Money> {
      if currency != other.currency then Err(CurrencyMismatch) else Ok(Money(amount + other.amount, currency))
    }

    function PercentageOf(percent: int): Result<Money> {
      var amount :- Percentage(amount * percent);
      Ok(Money(amount, currency))
    }
  }

  const E28 := 10_000_000_000_000_000_000_000_000_000
  const E29 := 10 * E28
  const E30 := 100 * E28

  function Abs(n: int): nat {
    if n < 0 then -n else n
  }

  /** A result with the sign of n. */
  function Signed(n: int, magnitude: nat): int {
    var k: int := magnitude;
    if n < 0 then -k else k
  }

  /** The quotient of q * unit + rest by the unit, rounded to the nearest, ties to the even one. */
  function HalfEven(q: nat, rest: nat, unit: nat): nat {
    if 2 * rest < unit || (2 * rest == unit && q % 2 == 0) then q else q + 1
  }

  /** A product of up to thirty digits, as the decimal context keeps it. */
  function InContext(m: nat): nat
    requires m < E30
  {
    if m < E28 then m
    else if m < E29 then 10 * HalfEven(m / 10, m % 10, 10)
    else 100 * HalfEven(m / 100, m % 100, 100)
  }

  /** A hundredth of a product. */
  function Percentage(n: int): Result<int> {
    if Abs(n) >= E30 || InContext(Abs(n)) >= E30 then Err(InvalidOperation)
    else Ok(Signed(n, (InContext(Abs(n)) + 50) / 100))
  }

  /** Within half a minor unit of the exact value. */
  predicate Faithful(n: int) {
    Percentage(n).Ok? && -50 <= 100 * Percentage(n).value - n <= 50
  }

  /**
   The result is within half a minor unit of the exact percentage for every product below 10^28, and
   beyond that exactly where rounding to 28 digits does not carry it over the half: it may for
   products ending in 46 to 49 below 10^29, and from 10^30 - 50 on there is no result.
   */
  lemma FaithfulExactly(n: int)
    ensures Faithful(n) <==>
      Abs(n) < E28 || (Abs(n) < E29 && !(46 <= Abs(n) % 100 <= 49)) || (E29 <= Abs(n) < E30 - 50)
  {
    var m := Abs(n);
    if m < E28 {
    } else if m < E29 {
      FaithfulTwentyNine(n);
    } else if m < E30 {
      FaithfulThirty(n);
    }
  }

  lemma {:induction false} Parity(h: nat, t: nat)
    ensures (10 * h + t) % 2 == t % 2
  {
    if h > 0 { Parity(h - 1, t); }
  }

  /** What rounding to the precision first makes of the last two digits. */
  lemma TwentyNineDigits(m: nat)
    requires E28 <= m < E29
    ensures (InContext(m) + 50) / 100 == m / 100 + if m % 100 >= 46 then 1 else 0
  {
    var h, t, u := m / 100, (m / 10) % 10, m % 10;
    LastTwoDigits(m, h, t, u);
    Parity(h, t);
    RoundedTens(h, t, u);
    assert InContext(m) == 10 * HalfEven(10 * h + t, u, 10);
  }

  lemma LastTwoDigits(m: nat, h: nat, t: nat, u: nat)
    requires h == m / 100 && t == (m / 10) % 10 && u == m % 10
    ensures m / 10 == 10 * h + t && m % 100 == 10 * t + u && t < 10 && u < 10
  {
  }

  /** Rounding to tens first, ties to the even one, and then to hundreds. */
  lemma RoundedTens(h: nat, t: nat, u: nat)
    requires t < 10 && u < 10 && (10 * h + t) % 2 == t % 2
    ensures (10 * HalfEven(10 * h + t, u, 10) + 50) / 100 == h + if 10 * t + u >= 46 then 1 else 0
  {
    var up := if 2 * u < 10 || (2 * u == 10 && t % 2 == 0) then 0 else 1;
    assert HalfEven(10 * h + t, u, 10) == 10 * h + t + up;
    assert t + up >= 5 <==> 10 * t + u >= 46;
  }

  lemma FaithfulTwentyNine(n: int)
    requires E28 <= Abs(n) < E29
    ensures Faithful(n) <==> !(46 <= Abs(n) % 100 <= 49)
  {
    TwentyNineDigits(Abs(n));
  }

  lemma FaithfulThirty(n: int)
    requires E29 <= Abs(n) < E30
    ensures Faithful(n) <==> Abs(n) < E30 - 50
  {
  }

  /** Amounts of one currency add up; amounts of two do not. */
  lemma AddsWithinCurrency(a: Money, b: Money)
    ensures a.Add(b) == if a.currency == b.currency then Ok(Money(a.amount + b.amount, a.currency)) else Err(CurrencyMismatch)
  {
  }

  /** Ties go away from zero. */
  lemma TiesAwayFromZero(n: int)
    requires Abs(n) < E28 && Abs(n) % 100 == 50
    ensures Percentage(n) == Ok(Signed(n, Abs(n) / 100 + 1))
  {
  }

  /** Odd in both arguments, also in where it fails. */
  lemma OddInBoth(amount: int, percent: int, currency: string)
    ensures var r := Money(amount, currency).PercentageOf(percent);
      && Money(-amount, currency).PercentageOf(percent) == Money(amount, currency).PercentageOf(-percent)
      && Money(-amount, currency).PercentageOf(percent) ==
           if r.Ok? then Ok(Money(-r.value.amount, currency)) else Err(InvalidOperation)
  {
    assert (-amount) * percent == amount * (-percent) == -(amount * percent);
  }

  lemma HalfEvenMonotone(p: nat, r: nat, q: nat, t: nat, unit: nat)
    requires p < q || (p == q && r <= t)
    ensures HalfEven(p, r, unit) <= HalfEven(q, t, unit)
  {
  }

  lemma InContextMonotone(a: nat, b: nat)
    requires a <= b < E30
    ensures InContext(a) <= InContext(b)
  {
    if E28 <= a && b < E29 {
      Quotients(a, b, 10);
      HalfEvenMonotone(a / 10, a % 10, b / 10, b % 10, 10);
    } else if E29 <= a {
      Quotients(a, b, 100);
      HalfEvenMonotone(a / 100, a % 100, b / 100, b % 100, 100);
    } else {
      InContextBounds(a);
      InContextBounds(b);
    }
  }

  /** Rounding does not leave the range of a number of digits. */
  lemma InContextBounds(m: nat)
    requires m < E30
    ensures m < E28 ==> InContext(m) == m
    ensures E28 <= m < E29 ==> E28 <= InContext(m) <= E29
    ensures E29 <= m ==> E29 <= InContext(m)
  {
  }

  lemma Quotients(a: nat, b: nat, unit: nat)
    requires a <= b && (unit == 10 || unit == 100)
    ensures a / unit < b / unit || (a / unit == b / unit && a % unit <= b % unit)
  {
  }

  /** Monotone, wherever it gives a result. */
  lemma PercentageMonotone(a: int, b: int)
    requires a <= b && Percentage(a).Ok? && Percentage(b).Ok?
    ensures Percentage(a).value <= Percentage(b).value
  {
    if 0 <= a { InContextMonotone(a, b); } else if b < 0 { InContextMonotone(-b, -a); }
  }

  /** For a percent that is not negative, a larger amount never has a smaller percentage. */
  lemma MonotoneInAmount(a: Money, b: Money, percent: int)
    requires a.amount <= b.amount && percent >= 0
    requires a.PercentageOf(percent).Ok? && b.PercentageOf(percent).Ok?
    ensures a.PercentageOf(percent).value.amount <= b.PercentageOf(percent).value.amount
  {
    MulMonotone(a.amount, b.amount, percent);
    PercentageMonotone(a.amount * percent, b.amount * percent);
  }

  lemma MulMonotone(a: int, b: int, percent: int)
    requires a <= b && percent >= 0
    ensures a * percent <= b * percent
  {
  }
}
