/** Nonlinear facts about reals, each proved on its own so that the solver meets one product at a time. */
module RealArithmetic {

  lemma ProductPositive(x: real, y: real, product: real)
    requires product == x * y
    requires (x > 0.0 && y > 0.0) || (x < 0.0 && y < 0.0)
    ensures product > 0.0
  {
  }

  lemma ProductNonNegative(x: real, y: real, product: real)
    requires product == x * y
    requires (x >= 0.0 && y >= 0.0) || (x <= 0.0 && y <= 0.0)
    ensures product >= 0.0
  {
  }

  function Square(x: real): real {
    x * x
  }

  lemma SquareNonNegative(x: real)
    ensures Square(x) >= 0.0
  {
  }

  lemma SquarePositive(x: real)
    requires x != 0.0
    ensures Square(x) > 0.0
  {
    ProductPositive(x, x, Square(x));
  }

  /** If a positive weight times `d` is positive then so is `d`. */
  lemma PositiveFactor(d: real, weight: real, product: real)
    requires weight > 0.0 && product == d * weight && product > 0.0
    ensures d > 0.0
  {
    if d <= 0.0 {
      ProductNonNegative(-d, weight, -product);
    }
  }

  /** `q` is the quotient x / y, cleared of the division. */
  lemma Quotient(x: real, y: real, q: real)
    requires y != 0.0 && q == x / y
    ensures q * y == x
  {
  }

  lemma ProductMonotone(x: real, y: real, factor: real)
    requires x <= y && factor >= 0.0
    ensures x * factor <= y * factor
  {
  }

  lemma Distribute(x: real, y: real, factor: real)
    ensures (x + y) * factor == x * factor + y * factor
  {
  }

  lemma CancelFactor(x: real, y: real, factor: real)
    requires factor != 0.0 && x * factor == y * factor
    ensures x == y
  {
  }

  /** `n` times `x`, by repeated addition. */
  function Times(x: real, n: nat): real {
    if n == 0 then 0.0 else Times(x, n - 1) + x
  }

  lemma {:induction false} TimesIsProduct(x: real, n: nat)
    ensures Times(x, n) == x * n as real
  {
    if n > 0 {
      TimesIsProduct(x, n - 1);
      assert x * n as real == x * (n - 1) as real + x;
    }
  }

  lemma TimesPlus(x: real, y: real, n: nat)
    ensures Times(x + y, n) == Times(x, n) + Times(y, n)
  {
    TimesIsProduct(x, n);
    TimesIsProduct(y, n);
    TimesIsProduct(x + y, n);
    Distribute(x, y, n as real);
  }

  /** A positive count can be divided out. */
  lemma DivideOut(x: real, y: real, n: nat)
    requires n > 0 && Times(x, n) <= Times(y, n)
    ensures x <= y
  {
    TimesIsProduct(x, n);
    TimesIsProduct(y, n);
    if x > y {
      ProductPositive(x - y, n as real, (x - y) * n as real);
    }
  }
}
