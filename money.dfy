/**
 * Exact decimal amounts for the receipt's total and item prices, and the
 * three questions the scorer asks of them: is the amount whole, is it a
 * multiple of 0.25, and what is the ceiling of a fifth of it.
 */
module Money {
  import opened Strconv

  /** The amount `units / 10^scale`: "35.35" is Decimal(3535, 2), "12.00" is Decimal(1200, 2). */
  datatype Decimal = Decimal(units: int, scale: nat)

  /** Division rounding up, for a positive divisor. */
  function CeilDiv(a: int, d: int): int
    requires d > 0
  {
    -((-a) / d)
  }

  /** CeilDiv gives the least integer `q` with `a <= q * d`: the ceiling of `a / d`. */
  lemma CeilDivIsCeiling(a: int, d: int)
    requires d > 0
    ensures (CeilDiv(a, d) - 1) * d < a <= CeilDiv(a, d) * d
  {
    var f := (-a) / d;
    assert -a == f * d + (-a) % d;
  }

  /** The amount has no fractional part (it equals its floor). */
  predicate IsWhole(x: Decimal)
  {
    x.units % Pow10(x.scale) == 0
  }

  /** The amount divided by 0.25 has no fractional part, i.e. four times it is whole. */
  predicate IsQuarterMultiple(x: Decimal)
  {
    (4 * x.units) % Pow10(x.scale) == 0
  }

  /** The ceiling of the amount times 0.2. */
  function FifthCeil(x: Decimal): int
  {
    CeilDiv(x.units, 5 * Pow10(x.scale))
  }

  /** FifthCeil is the least integer `q` with amount <= 5 * q, i.e. with units <= q * 5 * 10^scale. */
  lemma FifthCeilIsCeiling(x: Decimal)
    ensures var q := FifthCeil(x);
      (q - 1) * (5 * Pow10(x.scale)) < x.units <= q * (5 * Pow10(x.scale))
  {
    CeilDivIsCeiling(x.units, 5 * Pow10(x.scale));
  }

  /** The ceiling of a fifth of a non-negative amount is not negative. */
  lemma FifthCeilNonNegative(x: Decimal)
    requires x.units >= 0
    ensures FifthCeil(x) >= 0
  {
    FifthCeilIsCeiling(x);
    MultipleBounds(FifthCeil(x), 5 * Pow10(x.scale));
  }

  /** A whole amount is also a multiple of a quarter. */
  lemma WholeIsQuarterMultiple(x: Decimal)
    requires IsWhole(x)
    ensures IsQuarterMultiple(x)
  {
    var p := Pow10(x.scale);
    DividesExactly(x.units, p);
    var k := x.units / p;
    assert 4 * x.units == (4 * k) * p;
    MultipleModZero(4 * k, p);
  }

  /** A number leaving no remainder is the product of its quotient and the divisor. */
  lemma DividesExactly(a: int, p: int)
    requires p > 0 && a % p == 0
    ensures a == (a / p) * p
  {
  }

  /** A multiple of `p` leaves no remainder. */
  lemma MultipleModZero(k: int, p: int)
    requires p > 0
    ensures (k * p) % p == 0
  {
    var q, r := (k * p) / p, (k * p) % p;
    assert k * p == q * p + r && 0 <= r < p;
    assert (k - q) * p == r;
    MultipleBounds(k - q, p);
  }

  /** Appending a zero digit (12.5 written as 12.50) changes none of the three answers. */
  lemma {:induction false} RescaleKeepsAnswers(x: Decimal)
    ensures var y := Decimal(10 * x.units, x.scale + 1);
      && (IsWhole(y) <==> IsWhole(x))
      && (IsQuarterMultiple(y) <==> IsQuarterMultiple(x))
      && FifthCeil(y) == FifthCeil(x)
  {
    var p := Pow10(x.scale);
    var y := Decimal(10 * x.units, x.scale + 1);
    assert Pow10(y.scale) == 10 * p;
    ModTimesTen(x.units, p);
    ModTimesTen(4 * x.units, p);
    assert 4 * y.units == 10 * (4 * x.units);
    RescaleKeepsFifthCeil(x);
  }

  lemma RescaleKeepsFifthCeil(x: Decimal)
    ensures FifthCeil(Decimal(10 * x.units, x.scale + 1)) == FifthCeil(x)
  {
    var y := Decimal(10 * x.units, x.scale + 1);
    var d := 5 * Pow10(x.scale);
    assert 5 * Pow10(y.scale) == 10 * d;
    FifthCeilIsCeiling(x);
    FifthCeilIsCeiling(y);
    var q, r := FifthCeil(x), FifthCeil(y);
    TenfoldBounds(x.units, d, r);
    CeilUnique(x.units, d, q, r);
  }

  /** Bounds on ten times a number divide by ten. */
  lemma TenfoldBounds(u: int, d: int, r: int)
    requires (r - 1) * (10 * d) < 10 * u <= r * (10 * d)
    ensures (r - 1) * d < u <= r * d
  {
    assert (r - 1) * (10 * d) == 10 * ((r - 1) * d);
    assert r * (10 * d) == 10 * (r * d);
  }

  lemma ModTimesTen(a: int, p: int)
    requires p > 0
    ensures (10 * a) % (10 * p) == 0 <==> a % p == 0
  {
    if a % p == 0 {
      DividesExactly(a, p);
      assert 10 * a == (a / p) * (10 * p);
      MultipleModZero(a / p, 10 * p);
    }
    if (10 * a) % (10 * p) == 0 {
      DividesExactly(10 * a, 10 * p);
      var k := (10 * a) / (10 * p);
      assert 10 * a == 10 * (k * p);
      assert a == k * p;
      MultipleModZero(k, p);
    }
  }

  lemma MultipleBounds(m: int, p: int)
    requires p > 0
    ensures m >= 1 ==> m * p >= p
    ensures m <= -1 ==> m * p <= -p
  {
  }

  lemma CeilUnique(a: int, d: int, q: int, r: int)
    requires d > 0
    requires (q - 1) * d < a <= q * d
    requires (r - 1) * d < a <= r * d
    ensures q == r
  {
  }

  /** In cents, the rules read: whole when cents % 100 == 0, a quarter multiple when cents % 25 == 0. */
  lemma CentsRules(cents: int)
    ensures IsWhole(Decimal(cents, 2)) <==> cents % 100 == 0
    ensures IsQuarterMultiple(Decimal(cents, 2)) <==> cents % 25 == 0
    ensures FifthCeil(Decimal(cents, 2)) == CeilDiv(cents, 500)
  {
    assert Pow10(2) == 100;
    if cents % 25 == 0 {
      DividesExactly(cents, 25);
      assert 4 * cents == (cents / 25) * 100;
      MultipleModZero(cents / 25, 100);
    }
    if (4 * cents) % 100 == 0 {
      DividesExactly(4 * cents, 100);
      var k := (4 * cents) / 100;
      assert cents == k * 25;
      MultipleModZero(k, 25);
    }
  }
}
