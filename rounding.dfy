/**
 * The integer conversions the dashboard applies to its ratios and scores:
 * Python's int() on a float (truncation toward zero), the half_up_int helper
 * of the presentation layer, the "int(ratio * 100 + 0.5)" percentages of the
 * measure pipeline, and round(x, 2) for usage-test scores.
 * Floats are modelled as exact reals.
 */
module Rounding {

  /** Python's int() applied to a float: truncation toward zero. */
  function Trunc(x: real): (r: int)
    ensures 0.0 <= x ==> r as real <= x < r as real + 1.0
    ensures x < 0.0 ==> r as real - 1.0 < x <= r as real
  {
    if x >= 0.0 then x.Floor else -((-x).Floor)
  }

  /** half_up_int: round half away from zero to an integer. */
  function HalfUpInt(v: real): int {
    if v >= 0.0 then Trunc(v + 0.5) else Trunc(v - 0.5)
  }

  /** For non-negative inputs, half_up_int is floor(v + 0.5). */
  lemma HalfUpIntNonNegative(v: real)
    requires 0.0 <= v
    ensures HalfUpInt(v) == (v + 0.5).Floor
  {
  }

  /** For negative inputs, half_up_int mirrors the non-negative case. */
  lemma HalfUpIntNegative(v: real)
    requires v < 0.0
    ensures HalfUpInt(v) == -((-v + 0.5).Floor)
  {
  }

  /** Rounding is symmetric about zero. */
  lemma HalfUpIntOdd(v: real)
    ensures HalfUpInt(-v) == -HalfUpInt(v)
  {
    if v > 0.0 {
      HalfUpIntNegative(-v);
    } else if v < 0.0 {
      HalfUpIntNegative(v);
    }
  }

  /** The rounded value is never more than one half away from the input. */
  lemma HalfUpIntError(v: real)
    ensures -0.5 <= HalfUpInt(v) as real - v <= 0.5
  {
  }

  /** Integers are returned unchanged. */
  lemma HalfUpIntOfInteger(n: int)
    ensures HalfUpInt(n as real) == n
  {
  }

  /** half_up_int is monotone non-decreasing. */
  lemma HalfUpIntMonotone(u: real, v: real)
    requires u <= v
    ensures HalfUpInt(u) <= HalfUpInt(v)
  {
    if 0.0 <= u {
      FloorMonotone(u + 0.5, v + 0.5);
    } else if v < 0.0 {
      FloorMonotone(-v + 0.5, -u + 0.5);
    }
  }

  lemma FloorMonotone(x: real, y: real)
    requires x <= y
    ensures x.Floor <= y.Floor
  {
  }

  /**
   * The measure pipeline's percentage: int(ratio * 100 + 0.5).
   * It agrees with half_up_int on non-negative ratios and stays within
   * 0..100 for ratios of a part to its whole.
   */
  function PercentOf(ratio: real): (p: int)
    ensures 0.0 <= ratio ==> p == HalfUpInt(ratio * 100.0)
    ensures 0.0 <= ratio <= 1.0 ==> 0 <= p <= 100
  {
    Trunc(ratio * 100.0 + 0.5)
  }

  /** Round half to even, as Python's round() does on an exact value. */
  function RoundHalfEven(x: real): (r: int)
    ensures -0.5 <= r as real - x <= 0.5
    ensures r as real - x == 0.5 || x - r as real == 0.5 ==> r % 2 == 0
  {
    var f := x.Floor;
    var d := x - f as real;
    if d < 0.5 then f
    else if d > 0.5 then f + 1
    else if f % 2 == 0 then f
    else f + 1
  }

  /** round(x, 2): the nearest multiple of 0.01, ties to even hundredths. */
  function Round2(x: real): (r: real)
    ensures -0.005 <= r - x <= 0.005
  {
    RoundHalfEven(x * 100.0) as real / 100.0
  }

  /** A share between 0 and 1 of a non-negative amount lies between 0 and the amount. */
  lemma ScaledBetween(p: real, ratio: real)
    requires 0.0 <= p && 0.0 <= ratio <= 1.0
    ensures 0.0 <= p * ratio <= p
  {
    assert p * (1.0 - ratio) >= 0.0;
  }

  /** Rounding to hundredths keeps a value within integer bounds. */
  lemma Round2Between(x: real, n: int)
    requires 0.0 <= x <= n as real
    ensures 0.0 <= Round2(x) <= n as real
  {
    var y := x * 100.0;
    assert 0.0 <= y <= (n * 100) as real;
    var r := RoundHalfEven(y);
    assert -0.5 <= r as real - y <= 0.5;
    assert 0 <= r <= n * 100;
    assert Round2(x) == r as real / 100.0;
  }
}
