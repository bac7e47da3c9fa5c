/**
 * Integer forms of the JavaScript arithmetic the portal uses on counts and means:
 * `Math.round(a / d)` for an integer numerator and a positive denominator, `Math.ceil(a / d)`,
 * and the percentage in tenths `Math.round(v / d * 1000) / 10`.
 */
module Arith {

  /** `Math.round(a / d)`: JavaScript rounds halves towards +infinity, i.e. floor(a/d + 1/2). */
  function RoundDiv(a: int, d: int): int
    requires d > 0
  {
    (2 * a + d) / (2 * d)
  }

  /** `Math.ceil(a / d)` for a non-negative numerator. */
  function CeilDiv(a: nat, d: int): (r: nat)
    requires d > 0
    ensures r * d >= a
    ensures r == 0 || (r - 1) * d < a
  {
    if a == 0 then 0 else 1 + CeilDiv(if a >= d then a - d else 0, d)
  }

  /** A percentage in tenths of a percent: `Math.round(v / d * 1000) / 10` is the result over 10. */
  function PercentTenths(v: int, d: int): int
    requires d > 0
  {
    RoundDiv(1000 * v, d)
  }

  lemma DivAtLeast(a: int, b: int, c: int)
    requires b > 0 && a >= c * b
    ensures a / b >= c
  {
    if a / b < c {
      assert b * (a / b) <= b * (c - 1) by {
        MulMonotone(b, a / b, c - 1);
      }
    }
  }

  lemma DivAtMost(a: int, b: int, c: int)
    requires b > 0 && a < (c + 1) * b
    ensures a / b <= c
  {
    if a / b > c {
      assert b * (c + 1) <= b * (a / b) by {
        MulMonotone(b, c + 1, a / b);
      }
    }
  }

  lemma MulMonotone(b: int, x: int, y: int)
    requires b > 0 && x <= y
    ensures b * x <= b * y
  {
    assert b * y - b * x == b * (y - x);
  }

  /** A rounded mean of values that all lie in [lo, hi] lies in [lo, hi]. */
  lemma RoundDivBounds(a: int, d: int, lo: int, hi: int)
    requires d > 0
    requires lo * d <= a <= hi * d
    ensures lo <= RoundDiv(a, d) <= hi
  {
    assert 2 * a + d >= lo * (2 * d);
    DivAtLeast(2 * a + d, 2 * d, lo);
    assert 2 * a + d < (hi + 1) * (2 * d);
    DivAtMost(2 * a + d, 2 * d, hi);
  }

  /** A share of at most the whole is a percentage in [0, 100], i.e. [0, 1000] tenths. */
  lemma PercentTenthsBounds(v: int, d: int)
    requires d > 0 && 0 <= v <= d
    ensures 0 <= PercentTenths(v, d) <= 1000
  {
    RoundDivBounds(1000 * v, d, 0, 1000);
  }
}
