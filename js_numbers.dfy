/**
 * The JavaScript number operations the wheel's angle arithmetic uses, over
 * exact reals and integers: `Math.floor`, `Math.round`, `Math.abs`, and the
 * truncating remainder `%` (the sign of the result follows the dividend).
 */
module JsNumbers {

  /** `oneTurn`: one full turn of the wheel, in degrees. */
  const OneTurn: real := 360.0

  /** `Math.floor`. */
  function Floor(x: real): (r: int)
    ensures r as real <= x < r as real + 1.0
  {
    x.Floor
  }

  /**
   * `Math.round`: the nearest integer, ties going towards plus infinity
   * (so -2.5 rounds to -2 and 2.5 to 3); the same as `floor(x + 0.5)`.
   */
  function Round(x: real): (r: int)
    ensures x - 0.5 < r as real <= x + 0.5
  {
    (x + 0.5).Floor
  }

  /** No integer is closer to `x` than `Round(x)`. */
  lemma RoundIsNearest(x: real, j: int)
    ensures Abs(Round(x) as real - x) <= Abs(j as real - x)
  {
    var k := Round(x);
    if j < k {
      assert j as real <= k as real - 1.0;
    } else if j > k {
      assert j as real >= k as real + 1.0;
    }
  }

  /** Halves round up on both sides of zero. */
  lemma RoundHalvesUp(k: int)
    ensures Round(k as real + 0.5) == k + 1
    ensures Round(k as real - 0.5) == k
  {
  }

  /** Rounding leaves a whole number alone. */
  lemma RoundWhole(k: int)
    ensures Round(k as real) == k
  {
  }

  /** `Math.abs` over reals. */
  function Abs(x: real): (r: real)
    ensures r >= 0.0 && (r == x || r == -x)
  {
    if x < 0.0 then -x else x
  }

  /** `Math.abs` over whole numbers. */
  function AbsInt(x: int): (r: nat)
    ensures r == x || r == -x
  {
    if x < 0 then -x else x
  }

  /** Rounding towards zero: the quotient a truncating `%` works with. */
  function Trunc(x: real): (r: int)
    ensures 0.0 <= x ==> 0 <= r && r as real <= x < r as real + 1.0
    ensures x < 0.0 ==> r <= 0 && r as real - 1.0 < x <= r as real
  {
    if x >= 0.0 then x.Floor else -((-x).Floor)
  }

  /**
   * `a % oneTurn`: the remainder of the truncating division by a full turn.
   * It keeps the sign of `a`, so it lies strictly between -360 and 360.
   */
  function ModTurn(a: real): (r: real)
    ensures -OneTurn < r < OneTurn
    ensures 0.0 <= a ==> 0.0 <= r
    ensures a <= 0.0 ==> r <= 0.0
  {
    a - OneTurn * Trunc(a / OneTurn) as real
  }

  /** The remainder is the angle less the whole turns the truncated quotient counts. */
  lemma ModTurnParts(a: real)
    ensures ModTurn(a) == a - OneTurn * Trunc(a / OneTurn) as real
  {
  }

  /** An angle already inside the open turn is its own remainder. */
  lemma ModTurnInside(a: real)
    requires -OneTurn < a < OneTurn
    ensures ModTurn(a) == a
  {
  }

  /** Adding a turn in the direction of the sign does not change the remainder. */
  lemma ModTurnPeriodic(a: real)
    ensures 0.0 <= a ==> ModTurn(a + OneTurn) == ModTurn(a)
    ensures a <= 0.0 ==> ModTurn(a - OneTurn) == ModTurn(a)
  {
    if 0.0 <= a {
      assert Trunc((a + OneTurn) / OneTurn) == Trunc(a / OneTurn) + 1;
    }
    if a <= 0.0 {
      assert Trunc((a - OneTurn) / OneTurn) == Trunc(a / OneTurn) - 1;
    }
  }

  /** A whole number of turns leaves no remainder. */
  lemma ModTurnWholeTurns(k: int)
    ensures ModTurn(k as real * OneTurn) == 0.0
  {
    assert Trunc(k as real * OneTurn / OneTurn) == k;
  }

  /**
   * `a % m` on whole numbers, as JavaScript computes it: the remainder of the
   * division rounded towards zero, with the sign of `a`.
   */
  function TruncRem(a: int, m: int): (r: int)
    requires m > 0
    ensures -m < r < m
    ensures 0 <= a ==> 0 <= r
    ensures a <= 0 ==> r <= 0
  {
    if a >= 0 then a % m else -((-a) % m)
  }

  /** `(m - j) % m` for `j` in [0, m): zero when `j` is zero, `m - j` otherwise. */
  lemma TruncRemOfComplement(j: int, m: int)
    requires 0 <= j < m
    ensures TruncRem(m - j, m) == if j == 0 then 0 else m - j
  {
    if j == 0 {
      assert m % m == 0;
    } else {
      assert (m - j) % m == m - j;
    }
  }

  /** On a non-negative dividend the truncating and the Euclidean remainder agree. */
  lemma TruncRemNonNegative(a: int, m: int)
    requires m > 0 && 0 <= a
    ensures TruncRem(a, m) == a % m
  {
  }
}
