/** Python's number conversions on floats, over `real`: `int(x)` truncates
    toward zero and `round(x)` rounds half to even. */
module Numeric {

  /** Python's `int(x)` for a float. */
  function Trunc(x: real): (r: int)
    ensures 0.0 <= x ==> 0 <= r && r as real <= x < r as real + 1.0
    ensures x < 0.0 ==> r <= 0 && r as real - 1.0 < x <= r as real
  {
    if x >= 0.0 then x.Floor else -((-x).Floor)
  }

  /** Python's `round(x)` with no digits: the nearest integer, and on a tie
      the even one. */
  function RoundHalfEven(x: real): (r: int)
    ensures x - 0.5 <= r as real <= x + 0.5
    ensures (r as real - x == 0.5 || x - r as real == 0.5) ==> r % 2 == 0
  {
    var f := x.Floor;
    var d := x - f as real;
    if d < 0.5 then f
    else if d > 0.5 then f + 1
    else if f % 2 == 0 then f
    else f + 1
  }

  /** The two properties in `RoundHalfEven`'s contract pick out one integer. */
  lemma RoundHalfEvenUnique(x: real, n: int)
    requires x - 0.5 <= n as real <= x + 0.5
    requires (n as real - x == 0.5 || x - n as real == 0.5) ==> n % 2 == 0
    ensures n == RoundHalfEven(x)
  {
  }

  /** Shifting by an even integer shifts the rounded value by the same amount. */
  lemma RoundHalfEvenShift(x: real, k: int)
    requires k % 2 == 0
    ensures RoundHalfEven(x + k as real) == RoundHalfEven(x) + k
  {
    var r := RoundHalfEven(x);
    RoundHalfEvenUnique(x + k as real, r + k);
  }

  function Max(a: real, b: real): real
  {
    if a >= b then a else b
  }
}
