/**
 Python's `round`: to the nearest integer, ties to the even neighbour. Products of a
 count and a fraction are exact reals here; float error in the product is not modelled.
 */
module Rounding {

  function RoundHalfEven(x: real): int {
    var f := x.Floor;
    var d := x - f as real;
    if d < 0.5 || (d == 0.5 && f % 2 == 0) then f else f + 1
  }

  /** n is a nearest integer of x, and the even one when x lies halfway between two. */
  predicate IsNearestEven(x: real, n: int) {
    && n as real - 0.5 <= x <= n as real + 0.5
    && (x == n as real - 0.5 || x == n as real + 0.5 ==> n % 2 == 0)
  }

  /** `round` is the one function that returns the nearest integer with ties to even. */
  lemma NearestEvenUnique(x: real, n: int)
    ensures IsNearestEven(x, n) <==> n == RoundHalfEven(x)
  {
    var f := x.Floor;
    assert f as real <= x < f as real + 1.0;
    if IsNearestEven(x, n) {
      assert f - 1 < n < f + 2;
    }
  }

  lemma RoundMonotone(x: real, y: real)
    requires x <= y
    ensures RoundHalfEven(x) <= RoundHalfEven(y)
  {
    assert x.Floor <= y.Floor;
  }

  lemma RoundOfInteger(n: int)
    ensures RoundHalfEven(n as real) == n
  {
  }

  lemma ProductNonNegative(x: real, y: real)
    requires x >= 0.0 && y >= 0.0
    ensures x * y >= 0.0
    ensures x * y == 0.0 ==> x == 0.0 || y == 0.0
  {
  }

  function RoundProduct(a: real, fraction: real): int {
    RoundHalfEven(a * fraction)
  }

  /** `round(n * fraction)`. */
  function Share(n: int, fraction: real): int {
    RoundProduct(n as real, fraction)
  }

  lemma RoundProductIsRounded(a: real, fraction: real, x: real)
    requires x == a * fraction
    ensures RoundProduct(a, fraction) == RoundHalfEven(x)
  {
  }

  lemma ShareIsRounded(n: int, fraction: real, x: real)
    requires x == n as real * fraction
    ensures Share(n, fraction) == RoundHalfEven(x)
  {
    RoundProductIsRounded(n as real, fraction, x);
  }

  lemma ShareIsNearest(n: int, fraction: real)
    ensures IsNearestEven(n as real * fraction, Share(n, fraction))
  {
    var x := n as real * fraction;
    ShareIsRounded(n, fraction, x);
    NearestEvenUnique(x, RoundHalfEven(x));
  }

  /** Numbers less than d apart round to integers at most d apart. */
  lemma RoundCloser(x: real, y: real, apart: real, d: int)
    requires x <= y < x + apart && apart == d as real
    ensures 0 <= RoundHalfEven(y) - RoundHalfEven(x) <= d
  {
    RoundMonotone(x, y);
    NearestEvenUnique(x, RoundHalfEven(x));
    NearestEvenUnique(y, RoundHalfEven(y));
  }

  lemma ShareOfWhole(n: int)
    ensures Share(n, 1.0) == n
  {
    assert n as real * 1.0 == n as real;
    RoundOfInteger(n);
  }

  lemma Distribute(a: real, b: real, c: real)
    ensures (b - a) * c == b * c - a * c
    ensures (b - a) * (1.0 - c) == (b - a) - (b * c - a * c)
  {
  }

  /** Below a fraction of one, products are strictly closer together than their factors. */
  lemma ProductsCloser(a: real, b: real, fraction: real, x: real, y: real)
    requires 0.0 <= fraction < 1.0 && a < b && x == a * fraction && y == b * fraction
    ensures x <= y < x + (b - a)
  {
    ProductNonNegative(b - a, fraction);
    ProductNonNegative(b - a, 1.0 - fraction);
    Distribute(a, b, fraction);
  }

  lemma RoundProductSlope(a: real, b: real, fraction: real, d: int)
    requires 0.0 <= fraction < 1.0 && a < b && b - a == d as real
    ensures 0 <= RoundProduct(b, fraction) - RoundProduct(a, fraction) <= d
  {
    var x, y := a * fraction, b * fraction;
    ProductsCloser(a, b, fraction, x, y);
    RoundCloser(x, y, b - a, d);
  }

  /**
   For a fraction of at most one, growing an integer by d grows its rounded share by at most d.
   A jump of d + 1 would need the fraction to be one, and then nothing is rounded.
   */
  lemma ShareSlope(n: int, m: int, fraction: real)
    requires 0.0 <= fraction <= 1.0 && n <= m
    ensures 0 <= Share(m, fraction) - Share(n, fraction) <= m - n
  {
    if fraction == 1.0 {
      ShareOfWhole(n);
      ShareOfWhole(m);
    } else if n < m {
      RoundProductSlope(n as real, m as real, fraction, m - n);
    }
  }

  lemma ShareRange(n: int, fraction: real)
    requires 0.0 <= fraction <= 1.0
    ensures n >= 0 ==> 0 <= Share(n, fraction) <= n
    ensures n < 0 ==> n <= Share(n, fraction) <= 0
  {
    assert Share(0, fraction) == 0 by {
      assert 0 as real * fraction == 0.0;
      RoundOfInteger(0);
    }
    if n >= 0 {
      ShareSlope(0, n, fraction);
    } else {
      ShareSlope(n, 0, fraction);
    }
  }

  lemma ProductWithLarger(n: real, f: real, g: real, x: real, y: real)
    requires n >= 0.0 && f <= g && x == n * f && y == n * g
    ensures x <= y
  {
    ProductNonNegative(n, g - f);
    assert n * (g - f) == y - x;
  }

  lemma RoundProductOfLarger(n: real, f: real, g: real)
    requires n >= 0.0 && f <= g
    ensures RoundProduct(n, f) <= RoundProduct(n, g)
  {
    var x, y := n * f, n * g;
    ProductWithLarger(n, f, g, x, y);
    RoundMonotone(x, y);
  }

  /** A larger fraction of a count rounds to no less. */
  lemma ShareOfLarger(n: int, f: real, g: real)
    requires n >= 0 && f <= g
    ensures Share(n, f) <= Share(n, g)
  {
    RoundProductOfLarger(n as real, f, g);
  }

  /** `round(x, 4)`, as stored in the predictions table. */
  function Round4(x: real): real {
    RoundHalfEven(x * 10000.0) as real / 10000.0
  }

  /** value is x to four decimal places: the nearest multiple of 1/10000, ties to an even one. */
  ghost predicate StoredRate(value: real, x: real) {
    var n := (value * 10000.0).Floor;
    value * 10000.0 == n as real && IsNearestEven(x * 10000.0, n)
  }

  lemma Round4IsStoredRate(x: real)
    ensures StoredRate(Round4(x), x)
  {
    var n := RoundHalfEven(x * 10000.0);
    NearestEvenUnique(x * 10000.0, n);
    assert Round4(x) * 10000.0 == n as real;
    assert (n as real).Floor == n;
  }

  /** A stored rate is the only one, and within half of the last place. */
  lemma StoredRateIsClose(value: real, x: real)
    requires StoredRate(value, x)
    ensures x - 1.0 / 20000.0 <= value <= x + 1.0 / 20000.0
    ensures forall other :: StoredRate(other, x) ==> other == value
  {
    NearestEvenUnique(x * 10000.0, (value * 10000.0).Floor);
    forall other | StoredRate(other, x) ensures other == value {
      NearestEvenUnique(x * 10000.0, (other * 10000.0).Floor);
    }
  }

  lemma Round4Monotone(x: real, y: real)
    requires x <= y
    ensures Round4(x) <= Round4(y)
  {
    RoundMonotone(x * 10000.0, y * 10000.0);
  }
}
