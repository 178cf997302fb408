/**
 * The numeric helpers of JavaScript's `Math` that the application uses, on exact
 * reals: `Math.round` rounds half-way values up, `Math.max` and `Math.min` pick
 * one of their arguments.
 */
module JsMath {

  /** `Math.round(x)`: the integer nearest to `x`, halves rounded towards +infinity. */
  function Round(x: real): (r: int)
    ensures x - 0.5 < r as real <= x + 0.5
  {
    (x + 0.5).Floor
  }

  function Max(a: int, b: int): (r: int)
    ensures r >= a && r >= b && (r == a || r == b)
  {
    if a >= b then a else b
  }

  function Min(a: int, b: int): (r: int)
    ensures r <= a && r <= b && (r == a || r == b)
  {
    if a <= b then a else b
  }

  /** Rounding keeps a value that lies between two integers between them. */
  lemma RoundBetween(x: real, lo: int, hi: int)
    requires lo as real <= x <= hi as real
    ensures lo <= Round(x) <= hi
  {
    assert (lo as real + 0.5).Floor == lo;
    assert (hi as real + 0.5).Floor == hi;
  }

  /** Rounding an integer gives it back. */
  lemma RoundOfInt(n: int)
    ensures Round(n as real) == n
  {
  }

  /** A quotient by a positive number lies between `lo` and `hi` when the dividend lies between their multiples. */
  lemma QuotientBetween(t: real, c: real, lo: real, hi: real)
    requires c > 0.0 && lo * c <= t <= hi * c
    ensures lo <= t / c <= hi
  {
    var q := t / c;
    assert q * c == t;
    assert (q - lo) * c >= 0.0 && (hi - q) * c >= 0.0;
  }

  /** A quotient by a positive number equals `v` exactly when the dividend is `v` times the divisor. */
  lemma QuotientIs(t: real, c: real, v: real)
    requires c > 0.0
    ensures t / c == v <==> t == v * c
  {
    var q := t / c;
    assert q * c == t;
    assert (q - v) * c == t - v * c;
  }
}
