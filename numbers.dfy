/** Python's `round` on exact values. Progress percentages in the source are
    `round(x, 2)` of a float; the model works on exact reals. */
module Numbers {

  /** Python `round(x)`: the nearest integer, ties to the even neighbour. */
  function Round(x: real): (r: int)
    ensures x - 0.5 <= r as real <= x + 0.5
  {
    var f := x.Floor;
    var d := x - f as real;
    if d < 0.5 then f
    else if d > 0.5 then f + 1
    else if f % 2 == 0 then f
    else f + 1
  }

  lemma RoundMonotone(x: real, y: real)
    requires x <= y
    ensures Round(x) <= Round(y)
  {
    var fx, fy := x.Floor, y.Floor;
    if fx < fy {
      assert Round(x) <= fx + 1 <= fy <= Round(y);
    }
  }

  lemma RoundOfInt(n: int)
    ensures Round(n as real) == n
  {
    assert (n as real).Floor == n;
  }

  /** Python `round(x, 2)`. */
  function Round2(x: real): real {
    Round(x * 100.0) as real / 100.0
  }

  /** Rounding a percentage in [0, 100] stays in [0, 100]. */
  lemma Round2Percent(x: real)
    requires 0.0 <= x <= 100.0
    ensures 0.0 <= Round2(x) <= 100.0
  {
    RoundMonotone(0.0, x * 100.0);
    RoundMonotone(x * 100.0, 10000.0);
    RoundOfInt(0);
    RoundOfInt(10000);
  }

  /** Rounding keeps a non-negative value non-negative. */
  lemma Round2NonNegative(x: real)
    ensures 0.0 <= x ==> 0.0 <= Round2(x)
  {
    if 0.0 <= x {
      RoundMonotone(0.0, x * 100.0);
      RoundOfInt(0);
    }
  }

  /** The percentage `part / whole * 100` rounded to two places. */
  function Percent(part: real, whole: real): real
    requires whole != 0.0
  {
    Round2(part / whole * 100.0)
  }

  /** A part between nothing and the whole gives a percentage in [0, 100]. */
  lemma PercentBounds(part: real, whole: real)
    requires whole != 0.0
    ensures 0.0 < whole && 0.0 <= part <= whole ==> 0.0 <= Percent(part, whole) <= 100.0
  {
    if 0.0 < whole && 0.0 <= part <= whole {
      assert part / whole <= 1.0 by {
        assert part <= whole;
      }
      Round2Percent(part / whole * 100.0);
    }
  }

  /** Python `int(x)` of a float: truncation toward zero. */
  function Trunc(x: real): (r: int)
    ensures 0.0 <= x ==> r as real <= x < r as real + 1.0
    ensures x < 0.0 ==> r as real - 1.0 < x <= r as real
  {
    if x >= 0.0 then x.Floor else -((-x).Floor)
  }

  /** Python `a // b` on integers: the quotient rounded toward negative infinity. */
  function FloorDiv(a: int, b: int): int
    requires b != 0
  {
    if b > 0 || a % b == 0 then a / b else a / b - 1
  }

  /** Python `a % b` on integers: the remainder takes the sign of the divisor. */
  function FloorMod(a: int, b: int): (r: int)
    requires b != 0
    ensures a == b * FloorDiv(a, b) + r
    ensures 0 < b ==> 0 <= r < b
    ensures b < 0 ==> b < r <= 0
  {
    if b > 0 || a % b == 0 then a % b
    else
      assert b * (a / b - 1) == b * (a / b) - b;
      a % b + b
  }

  function Min(a: real, b: real): real {
    if a <= b then a else b
  }
}
