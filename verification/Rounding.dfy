/** Python's rounding of exact values: halves go to the even neighbour. */
module Rounding {
  /** `round(x)`, and `quantize` with ROUND_HALF_EVEN on a value scaled to its last digit. */
  function RoundHalfEven(x: real): (n: int)
    ensures -0.5 <= n as real - x <= 0.5
    ensures n as real - x == 0.5 || x - n as real == 0.5 ==> n % 2 == 0
  {
    var f := x.Floor;
    var part := x - f as real;
    if part < 0.5 || (part == 0.5 && f % 2 == 0) then f else f + 1
  }

  /** Rounding keeps order and fixes whole numbers. */
  lemma RoundMonotone(x: real, y: real)
    requires x <= y
    ensures RoundHalfEven(x) <= RoundHalfEven(y)
  {
    if x.Floor == y.Floor {
      assert x - x.Floor as real <= y - y.Floor as real;
    }
  }

  lemma RoundWhole(n: int)
    ensures RoundHalfEven(n as real) == n
  {
  }

  /** A value between two whole numbers rounds to a whole number between them. */
  lemma RoundBetween(low: int, x: real, high: int)
    requires low as real <= x <= high as real
    ensures low <= RoundHalfEven(x) <= high
  {
    RoundWhole(low);
    RoundWhole(high);
    RoundMonotone(low as real, x);
    RoundMonotone(x, high as real);
  }

  /** What rounds below a whole number: all beyond half a unit, and the half itself below an odd one. */
  lemma RoundBelowIff(x: real, n: int)
    ensures RoundHalfEven(x) < n <==> x < n as real - 0.5 || (x == n as real - 0.5 && n % 2 == 1)
  {
    var r := RoundHalfEven(x);
    if r < n {
      assert r as real <= n as real - 1.0;
    } else {
      assert r as real >= n as real;
    }
  }

  function Min(x: real, y: real): real {
    if x <= y then x else y
  }

  lemma ProductSign(a: real, b: real)
    requires a >= 0.0 && b >= 0.0
    ensures a * b >= 0.0
  {
  }

  lemma SameFactor(x: real, y: real, w: real)
    requires w > 0.0 && x * w == y * w
    ensures x == y
  {
    assert (x - y) * w == 0.0;
  }

  /** n is the whole number nearest to num / den, halves going to the even one; no division needed. */
  predicate Nearest(n: int, num: int, den: int) {
    var off := 2 * (n * den - num);
    -den <= off <= den && (off == den || off == -den ==> n % 2 == 0)
  }

  /** There is only one. */
  lemma NearestUnique(n: int, m: int, num: int, den: int)
    requires den > 0 && Nearest(n, num, den) && Nearest(m, num, den)
    ensures n == m
  {
    assert n * den - m * den == (n - m) * den;
    WithinOne(n - m, den);
  }

  lemma WithinOne(d: int, den: int)
    requires den > 0 && -den <= d * den <= den
    ensures -1 <= d <= 1
  {
  }

  /** Rounding the quotient of two whole numbers gives it. */
  lemma RoundIsNearest(x: real, num: int, den: int)
    requires den > 0 && x * den as real == num as real
    ensures Nearest(RoundHalfEven(x), num, den)
  {
    var n, w := RoundHalfEven(x), den as real;
    assert (n * den) as real == n as real * w;
    assert (2 * (n * den - num)) as real == 2.0 * ((n as real - x) * w);
    WithinHalf(2 * (n * den - num), den, n as real - x);
  }

  lemma WithinHalf(off: int, width: int, x: real)
    requires width > 0 && -0.5 <= x <= 0.5 && off as real == 2.0 * (x * width as real)
    ensures -width <= off <= width && (off == width ==> x == 0.5) && (off == -width ==> x == -0.5)
  {
    var w := width as real;
    ProductSign(x + 0.5, w);
    ProductSign(0.5 - x, w);
    if off == width {
      SameFactor(x, 0.5, w);
    } else if off == -width {
      SameFactor(x, -0.5, w);
    }
  }
  /** A weighted mean of two values lies between them. */
  lemma MixBetween(w: real, x: real, y: real)
    requires 0.0 <= w <= 1.0 && x <= y
    ensures x <= w * x + (1.0 - w) * y <= y
    ensures x <= w * y + (1.0 - w) * x <= y
  {
    ProductSign(w, y - x);
    ProductSign(1.0 - w, y - x);
    assert w * (y - x) == w * y - w * x;
    assert (1.0 - w) * (y - x) == (y - x) - (w * y - w * x);
  }

  lemma DivOrder(a: real, b: real, d: real)
    requires a <= b && d > 0.0
    ensures a / d <= b / d
  {
  }
}
