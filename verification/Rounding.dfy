/** Rounding of exact decimals, as Python's `decimal` and `int()` do it. */
module Rounding {

  /** ROUND_FLOOR. */
  function Floor(x: real): (n: int)
    ensures n as real <= x < n as real + 1.0
  {
    x.Floor
  }

  /** ROUND_CEILING. */
  function Ceiling(x: real): (n: int)
    ensures n as real - 1.0 < x <= n as real
  {
    -((-x).Floor)
  }

  /** `int()` on a Decimal or float: towards zero. */
  function Truncate(x: real): (n: int)
    ensures x >= 0.0 ==> 0 <= n && n as real <= x < n as real + 1.0
    ensures x <= 0.0 ==> n <= 0 && n as real - 1.0 < x <= n as real
  {
    if x >= 0.0 then x.Floor else -((-x).Floor)
  }

  /** ROUND_HALF_EVEN, the default of `to_integral_value`. */
  function HalfEven(x: real): (n: int)
    ensures n as real - 0.5 <= x <= n as real + 0.5
    ensures n as real - 0.5 == x || x == n as real + 0.5 ==> n % 2 == 0
  {
    var low := x.Floor;
    var rest := x - low as real;
    if rest < 0.5 || (rest == 0.5 && low % 2 == 0) then low else low + 1
  }

  lemma CeilingMonotone(x: real, y: real)
    requires x <= y
    ensures Ceiling(x) <= Ceiling(y)
  {
  }

  lemma TruncateMonotone(x: real, y: real)
    requires x <= y
    ensures Truncate(x) <= Truncate(y)
  {
  }

  /** The fewest whole units that cover an amount. */
  predicate IsRoundedUp(n: int, exact: real) {
    n as real - 1.0 < exact <= n as real
  }

  /** The most whole units within an amount. */
  predicate IsRoundedDown(n: int, exact: real) {
    n as real <= exact < n as real + 1.0
  }

  lemma CeilingExactly(exact: real, n: int)
    ensures IsRoundedUp(n, exact) <==> n == Ceiling(exact)
  {
  }

  lemma FloorExactly(exact: real, n: int)
    ensures IsRoundedDown(n, exact) <==> n == Floor(exact)
  {
  }
}
