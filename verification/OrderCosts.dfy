/** What an order costs in whole cents: price and fee, each rounded up. */
module OrderCosts {
  import opened Rounding
  import opened RealArithmetic
  import opened Domain
  import opened Fees
  import opened Sizing

  function CostCents(count: int, price: real, rate: real): int {
    Ceiling(price * count as real * 100.0) + OrderFeeCents(count, price, rate)
  }

  /** `paid` and `fee` are the price and the fee of `count` contracts, each rounded up to a cent. */
  predicate IsCharged(count: int, price: real, rate: real, paid: int, fee: int) {
    && IsRoundedUp(paid, price * count as real * 100.0)
    && IsRoundedUp(fee, if rate > 0.0 then rate * (price * (1.0 - price)) * count as real * 100.0 else 0.0)
  }

  lemma CostExactly(count: int, price: real, rate: real, paid: int, fee: int)
    requires count > 0 && IsCharged(count, price, rate, paid, fee)
    ensures CostCents(count, price, rate) == paid + fee
  {
    CeilingExactly(price * count as real * 100.0, paid);
    if rate > 0.0 {
      CeilingExactly(FeePerContract(price, rate) * count as real * 100.0, fee);
    } else {
      CeilingExactly(0.0, fee);
    }
  }

  lemma CostIsCharged(count: int, price: real, rate: real) returns (paid: int, fee: int)
    requires count > 0
    ensures IsCharged(count, price, rate, paid, fee)
  {
    paid := Ceiling(price * count as real * 100.0);
    fee := OrderFeeCents(count, price, rate);
    CeilingExactly(price * count as real * 100.0, paid);
    if rate > 0.0 {
      CeilingExactly(FeePerContract(price, rate) * count as real * 100.0, fee);
    }
  }

  lemma ExactCostSplits(price: real, fee: real, n: real)
    ensures n * ((price + fee) * 100.0) == price * n * 100.0 + fee * n * 100.0
  {
  }

  /** Two roundings up overrun half a budget only when the budget is a single cent. */
  lemma TwoRoundings(stake: real, fee: real, budget: int)
    requires stake > 0.0 && fee >= 0.0 && budget >= 0 && 2.0 * (stake + fee) <= budget as real
    ensures Ceiling(stake) + Ceiling(fee) > budget <==> budget == 1 && fee > 0.0
  {
  }

  lemma FeePositiveExactly(price: real, rate: real, n: real)
    requires 0.0 < price < 1.0 && rate >= 0.0 && n > 0.0
    ensures FeePerContract(price, rate) * n * 100.0 >= 0.0
    ensures FeePerContract(price, rate) * n * 100.0 > 0.0 <==> rate > 0.0
  {
    if rate > 0.0 {
      ProductPositive(price, 1.0 - price, price * (1.0 - price));
      ProductPositive(rate, price * (1.0 - price), FeePerContract(price, rate));
      ProductPositive(FeePerContract(price, rate), n, FeePerContract(price, rate) * n);
    }
  }

  lemma CostOverrunsExactly(count: int, price: real, rate: real, balance: int)
    requires 0.0 < price < 1.0 && rate >= 0.0 && count > 0 && balance >= 0
    requires 2.0 * (count as real * (EffectiveBuyPrice(price, rate) * 100.0)) <= balance as real
    ensures CostCents(count, price, rate) > balance <==> balance == 1 && rate > 0.0
  {
    var n, fee := count as real, FeePerContract(price, rate);
    ExactCostSplits(price, fee, n);
    ProductPositive(price, n, price * n);
    FeePositiveExactly(price, rate, n);
    TwoRoundings(price * n * 100.0, fee * n * 100.0, balance);
  }

  lemma HalfStake(balance: int, fraction: real)
    requires balance >= 0 && fraction <= 0.5
    ensures 2.0 * StakeCents(balance, fraction) <= balance as real
  {
    ProductNonNegative(balance as real, 0.5 - fraction, balance as real * (0.5 - fraction));
  }

  lemma ContractsCostACent(count: int, price: real, rate: real)
    requires count > 0 && CENT <= price < 1.0 && rate >= 0.0
    ensures count as real * (EffectiveBuyPrice(price, rate) * 100.0) >= 1.0
  {
    FeeBounds(price, rate);
    ProductMonotone(1.0, count as real, EffectiveBuyPrice(price, rate) * 100.0);
  }

  /** At a price of zero or less nothing is charged. */
  lemma FreeBelowZero(count: int, price: real, rate: real)
    requires count > 0 && price <= 0.0 && rate >= 0.0
    ensures CostCents(count, price, rate) <= 0
  {
    var n, fee := count as real, FeePerContract(price, rate);
    ProductNonNegative(-price, n, -price * n);
    ProductNonNegative(-price, 1.0 - price, -price * (1.0 - price));
    ProductNonNegative(rate, -price * (1.0 - price), rate * (-price * (1.0 - price)));
    ProductNonNegative(-fee, n, -fee * n);
  }
}
