/** Kalshi's fee schedule: rate * count * price * (1 - price), rounded up to a cent an order. */
module Fees {
  import opened Rounding
  import opened RealArithmetic

  /** The exact fee of one contract. */
  function FeePerContract(price: real, rate: real): real {
    if rate <= 0.0 then 0.0 else rate * (price * (1.0 - price))
  }

  /** Whole-order fee in cents. */
  function OrderFeeCents(count: int, price: real, rate: real): int {
    if count <= 0 || rate <= 0.0 then 0
    else Ceiling(FeePerContract(price, rate) * count as real * 100.0)
  }

  function EffectiveBuyPrice(price: real, rate: real): real {
    price + FeePerContract(price, rate)
  }

  // ----- Shape of the fee -------------------------------------------------------

  lemma VarianceBound(price: real)
    ensures price * (1.0 - price) <= 0.25
  {
    SquareNonNegative(price - 0.5);
    assert Square(price - 0.5) == 0.25 - price * (1.0 - price);
  }

  lemma FeeBounds(price: real, rate: real)
    requires rate >= 0.0
    ensures FeePerContract(price, rate) <= rate / 4.0
    ensures 0.0 <= price <= 1.0 ==> FeePerContract(price, rate) >= 0.0
  {
    var variance := price * (1.0 - price);
    VarianceBound(price);
    ProductNonNegative(rate, 0.25 - variance, rate * (0.25 - variance));
    if 0.0 <= price <= 1.0 {
      ProductNonNegative(price, 1.0 - price, variance);
      ProductNonNegative(rate, variance, rate * variance);
    }
  }

  /** cost(q) - cost(p) = (q - p) (1 + rate (1 - p - q)). */
  lemma EffectiveDifference(p: real, q: real, rate: real)
    requires rate >= 0.0
    ensures EffectiveBuyPrice(q, rate) - EffectiveBuyPrice(p, rate) == (q - p) * (1.0 + rate * (1.0 - p - q))
  {
    assert q * (1.0 - q) - p * (1.0 - p) == (q - p) * (1.0 - p - q);
    ProductAssociates(rate, q - p, 1.0 - p - q);
    assert rate * (q * (1.0 - q)) - rate * (p * (1.0 - p)) == rate * ((q - p) * (1.0 - p - q));
  }

  lemma ProductAssociates(x: real, y: real, z: real)
    ensures x * (y * z) == y * (x * z)
  {
  }

  /** Up to a dollar a higher price never costs less, fee included. */
  lemma EffectiveIncreasing(p: real, q: real, rate: real)
    requires 0.0 <= rate < 1.0 && p <= q <= 1.0
    ensures EffectiveBuyPrice(p, rate) <= EffectiveBuyPrice(q, rate)
  {
    EffectiveDifference(p, q, rate);
    ProductNonNegative(rate, 2.0 - p - q, rate * (2.0 - p - q));
    assert rate * (1.0 - p - q) == rate * (2.0 - p - q) - rate;
    ProductNonNegative(q - p, 1.0 + rate * (1.0 - p - q), (q - p) * (1.0 + rate * (1.0 - p - q)));
  }

  /** cost - 1 = (price - 1)(1 - rate price) and cost = price (1 + rate - rate price). */
  lemma EffectiveFactors(price: real, rate: real)
    requires rate >= 0.0
    ensures EffectiveBuyPrice(price, rate) - 1.0 == (price - 1.0) * (1.0 - rate * price)
    ensures EffectiveBuyPrice(price, rate) == price * (1.0 + rate - rate * price)
  {
    assert rate * (price * (1.0 - price)) == (rate * price) * (1.0 - price);
    assert (rate * price) * (1.0 - price) == rate * price - (rate * price) * price;
    assert price * (rate * price) == (rate * price) * price;
  }

  /** Where the fee-inclusive price lies strictly inside (0, 1): below a dollar, and again in the
      band beyond 1 / rate where the fee formula turns into a rebate. */
  lemma EffectiveInsideExactly(price: real, rate: real)
    requires 0.0 <= rate < 1.0 && price > 0.0
    ensures 0.0 < EffectiveBuyPrice(price, rate) < 1.0
       <==> price < 1.0 || (1.0 < rate * price < 1.0 + rate)
  {
    EffectiveFactors(price, rate);
    var cost, load := EffectiveBuyPrice(price, rate), rate * price;
    var left, right := (price - 1.0) * (1.0 - load), price * (1.0 + rate - load);
    if price < 1.0 {
      ProductNonNegative(rate, 1.0 - price, rate * (1.0 - price));
      assert load <= rate;
      ProductPositive(price, 1.0 + rate - load, right);
      ProductPositive(1.0 - price, 1.0 - load, -left);
    } else {
      RateBelowLoad(price, rate, load);
      if load <= 1.0 {
        ProductNonNegative(price - 1.0, 1.0 - load, left);
      } else if load >= 1.0 + rate {
        ProductNonNegative(price, load - 1.0 - rate, -right);
      } else {
        assert price > 1.0;
        ProductPositive(price - 1.0, load - 1.0, -left);
        ProductPositive(price, 1.0 + rate - load, right);
      }
    }
  }

  lemma RateBelowLoad(price: real, rate: real, load: real)
    requires 0.0 <= rate < 1.0 && price >= 1.0 && load == rate * price
    ensures rate <= load
    ensures load > 1.0 ==> price > 1.0
  {
    ProductNonNegative(rate, price - 1.0, rate * (price - 1.0));
  }
}
