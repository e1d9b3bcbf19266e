/** The exact size of a position, in terms of odds and money only. */
module KellySize {
  import opened Wrappers
  import opened RealArithmetic
  import opened Rounding
  import opened Config
  import opened Fees
  import opened Sizing

  /** The price of one contract with its fee. */
  function CostOf(price: real, rate: real): real {
    price + if rate > 0.0 then rate * (price * (1.0 - price)) else 0.0
  }

  /** Days to the market's close, but no less than an hour; the configured default without a closing time. */
  function HoldingDays(secondsToClose: Option<real>, defaultDays: real): real {
    if secondsToClose.None? then defaultDays
    else if secondsToClose.value < 3600.0 then 1.0 / 24.0
    else secondsToClose.value / 86400.0
  }

  /** The yearly return the odds promise reaches the hurdle, if there is one. */
  predicate ClearsHurdle(fair: real, cost: real, days: real, config: SizingConfig) {
    config.minAnnualizedReturn > 0.0 ==> 365.0 * (fair - cost) >= config.minAnnualizedReturn * days * cost
  }

  /** `n` contracts stay within the Kelly stake and within the cap, each cleared of its division. */
  predicate Staked(n: int, fair: real, cost: real, bankrollCents: int, config: SizingConfig) {
    && n as real * cost * 100.0 * (1.0 - cost) <= bankrollCents as real * config.kellyFraction * (fair - cost)
    && n as real * cost * 100.0 <= bankrollCents as real * config.maxBankrollFraction
  }

  lemma CostIs(price: real, rate: real)
    ensures EffectiveBuyPrice(price, rate) == CostOf(price, rate)
  {
  }

  lemma DaysAre(secondsToClose: Option<real>, defaultDays: real)
    ensures Days(secondsToClose, defaultDays) == HoldingDays(secondsToClose, defaultDays)
  {
  }

  /** x / d <= y / d without the divisions. */
  lemma ScaleUp(x: real, y: real, factor: real)
    requires factor > 0.0
    ensures x <= y <==> x * factor <= y * factor
  {
    if x <= y {
      ProductMonotone(x, y, factor);
    } else {
      ProductPositive(x - y, factor, (x - y) * factor);
    }
  }

  lemma AnnualizedExactly(fair: real, cost: real, days: real, hurdle: real)
    requires cost > 0.0 && days > 0.0
    ensures Annualized(ExpectedReturn(fair, cost), days) >= hurdle <==> 365.0 * (fair - cost) >= hurdle * days * cost
  {
    var r := ExpectedReturn(fair, cost);
    var yearly := Annualized(r, days);
    ScaleUp(hurdle, yearly, days);
    ScaleUp(hurdle * days, yearly * days, cost);
    assert yearly * days * cost == 365.0 * (r * cost) by {
      Rescale(yearly * days, r, cost);
    }
  }

  lemma Rescale(x: real, r: real, cost: real)
    requires x == r * 365.0
    ensures x * cost == 365.0 * (r * cost)
  {
  }

  lemma HurdleExactly(fair: real, cost: real, days: real, config: SizingConfig)
    requires cost > 0.0 && days > 0.0
    ensures !MissesHurdle(Annualized(ExpectedReturn(fair, cost), days), config) <==> ClearsHurdle(fair, cost, days, config)
  {
    AnnualizedExactly(fair, cost, days, config.minAnnualizedReturn);
  }

  /** A stake buys at least n contracts exactly if it covers their cost. */
  lemma ContractsExactly(stake: real, cost: real, n: int)
    requires cost > 0.0
    ensures Floor(StakeContracts(stake, cost)) >= n <==> n as real * cost * 100.0 <= stake
  {
    var exact := StakeContracts(stake, cost);
    ScaleUp(n as real, exact, cost * 100.0);
    assert n as real * (cost * 100.0) == n as real * cost * 100.0;
  }

  /** Staking the smaller fraction covers an amount exactly if both fractions do. */
  lemma SmallerStake(bankrollCents: int, x: real, y: real, amount: real)
    requires bankrollCents >= 0
    ensures amount <= StakeCents(bankrollCents, RealMin(x, y))
       <==> amount <= bankrollCents as real * x && amount <= bankrollCents as real * y
  {
    if x <= y {
      ProductMonotone(x, y, bankrollCents as real);
    } else {
      ProductMonotone(y, x, bankrollCents as real);
    }
  }

  /** The Kelly part of the stake covers an amount exactly if the odds do. */
  lemma KellyStake(bankrollCents: int, fair: real, cost: real, fraction: real, amount: real)
    requires cost < 1.0
    ensures amount <= bankrollCents as real * (Sizing.Kelly(fair, cost) * fraction)
       <==> amount * (1.0 - cost) <= bankrollCents as real * fraction * (fair - cost)
  {
    var b, k := bankrollCents as real, Sizing.Kelly(fair, cost);
    ScaleUp(amount, b * (k * fraction), 1.0 - cost);
    Reorder(b, k, fraction, 1.0 - cost, fair - cost);
  }

  lemma Reorder(b: real, k: real, fraction: real, odds: real, edge: real)
    requires k * odds == edge
    ensures b * (k * fraction) * odds == b * fraction * edge
  {
    assert b * (k * fraction) * odds == b * fraction * (k * odds);
  }

  /** A negative or empty bankroll stakes nothing, and covers nothing. */
  lemma NoBankroll(n: int, fair: real, cost: real, bankrollCents: int, config: SizingConfig)
    requires config.Valid() && n >= 1 && 0.0 < cost < fair && cost < 1.0 && bankrollCents <= 0
    ensures StakedContracts(fair, cost, bankrollCents, config) < n && !Staked(n, fair, cost, bankrollCents, config)
  {
    FractionPositive(fair, cost, config);
    NoBankrollNoContracts(bankrollCents, StakeFraction(fair, cost, config), cost);
    ProductPositive(n as real, cost, n as real * cost);
    ProductNonNegative(-(bankrollCents as real), config.maxBankrollFraction, -(bankrollCents as real) * config.maxBankrollFraction);
  }

  lemma StakedExactly(n: int, fair: real, cost: real, bankrollCents: int, config: SizingConfig)
    requires config.Valid() && n >= 1 && 0.0 < cost < fair && cost < 1.0
    ensures StakedContracts(fair, cost, bankrollCents, config) >= n <==> Staked(n, fair, cost, bankrollCents, config)
  {
    if bankrollCents <= 0 {
      NoBankroll(n, fair, cost, bankrollCents, config);
    } else {
      var amount := n as real * cost * 100.0;
      ContractsExactly(StakeCents(bankrollCents, StakeFraction(fair, cost, config)), cost, n);
      SmallerStake(bankrollCents, Sizing.Kelly(fair, cost) * config.kellyFraction, config.maxBankrollFraction, amount);
      KellyStake(bankrollCents, fair, cost, config.kellyFraction, amount);
    }
  }

  /** For every number of contracts: the position is sized at `n` or more if and only if the fee-inclusive cost
      lies between nothing and a dollar and below fair value, the hurdle is met, and `n` contracts stay within
      both the fractional Kelly stake and the cap. So the size is the largest such number, or zero. */
  lemma SizeExactly(fair: real, price: real, rate: real, bankrollCents: int, config: SizingConfig, secondsToClose: Option<real>, n: int)
    requires config.Valid() && n >= 1
    ensures var cost := CostOf(price, rate);
      SizePosition(fair, price, rate, bankrollCents, config, secondsToClose).contracts >= n <==>
        && 0.0 < cost < 1.0 && cost < fair
        && ClearsHurdle(fair, cost, HoldingDays(secondsToClose, config.defaultDaysToResolution), config)
        && Staked(n, fair, cost, bankrollCents, config)
    ensures SizePosition(fair, price, rate, bankrollCents, config, secondsToClose).contracts >= 0
  {
    var cost := CostOf(price, rate);
    CostIs(price, rate);
    if 0.0 < cost < 1.0 && cost < fair {
      var days := Days(secondsToClose, config.defaultDaysToResolution);
      DaysAre(secondsToClose, config.defaultDaysToResolution);
      HurdleExactly(fair, cost, days, config);
      StakedExactly(n, fair, cost, bankrollCents, config);
    }
  }

  // ----- The caps -----------------------------------------------------------------------------------

  /** The caps leave room for `n` contracts, at whole cents rounded down and at least a cent each. */
  predicate RoomFor(n: int, price: real, maxContractsPerOrder: int, maxOrderNotionalCents: int, exposureRoomCents: int) {
    var unit := if price >= 0.02 then Floor(price * 100.0) else 1;
    n <= maxContractsPerOrder && n * unit <= maxOrderNotionalCents && n * unit <= exposureRoomCents
  }

  lemma QuotientExactly(n: int, total: int, unit: int)
    requires unit > 0
    ensures n <= total / unit <==> n * unit <= total
  {
    var q := total / unit;
    assert total == q * unit + total % unit;
    if n <= q {
      assert n * unit <= q * unit;
    } else {
      assert (q + 1) * unit <= n * unit;
    }
  }

  /** For every number of contracts: the capped target is `n` or more exactly if the position was sized so and
      every cap has room. */
  lemma CapExactly(contracts: int, price: real, maxContractsPerOrder: int, maxOrderNotionalCents: int, exposureRoomCents: int, n: int)
    requires n >= 1
    ensures CapByRisk(contracts, price, maxContractsPerOrder, maxOrderNotionalCents, exposureRoomCents) >= n <==>
      n <= contracts && RoomFor(n, price, maxContractsPerOrder, maxOrderNotionalCents, exposureRoomCents)
  {
    UnitExactly(price);
    var unit := PerContractCents(price);
    QuotientExactly(n, maxOrderNotionalCents, unit);
    QuotientExactly(n, exposureRoomCents, unit);
  }

  lemma UnitExactly(price: real)
    ensures PerContractCents(price) == if price >= 0.02 then Floor(price * 100.0) else 1
  {
  }

  /** A quarter of Kelly on even money and a sixty percent chance: a hundred contracts of a thousand dollars. */
  lemma QuarterKellyExample()
    ensures SizePosition(0.6, 0.5, 0.0, 100000, SizingConfig(0.25, 0.5, 0.0, 1.0), None).contracts == 100
  {
    SizeExactly(0.6, 0.5, 0.0, 100000, SizingConfig(0.25, 0.5, 0.0, 1.0), None, 100);
    SizeExactly(0.6, 0.5, 0.0, 100000, SizingConfig(0.25, 0.5, 0.0, 1.0), None, 101);
  }
}
