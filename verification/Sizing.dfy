/** Fractional Kelly sizing on fee-inclusive prices, and the caps that follow it. */
module Sizing {
  import opened Wrappers
  import opened Rounding
  import opened RealArithmetic
  import opened Config
  import opened Fees

  const SECONDS_PER_DAY := 86400.0
  const DAYS_PER_YEAR := 365.0

  datatype Reason = PriceOutside | NoEdge | BelowHurdle | StakeRoundsToZero | Sized

  datatype SizingDecision = SizingDecision(
    contracts: int,
    kellyFull: real,
    fraction: real,
    expectedReturn: real,
    annualizedReturn: real,
    days: real,
    reason: Reason)

  function RealMin(x: real, y: real): real {
    if y < x then y else x
  }

  function RealMax(x: real, y: real): real {
    if x < y then y else x
  }

  function Min(x: int, y: int): int {
    if y < x then y else x
  }

  function Max(x: int, y: int): int {
    if x < y then y else x
  }

  function Days(secondsToClose: Option<real>, defaultDays: real): (days: real)
    ensures defaultDays > 0.0 ==> days > 0.0
  {
    match secondsToClose
    case None => defaultDays
    case Some(seconds) => RealMax(1.0 / 24.0, seconds / SECONDS_PER_DAY)
  }

  function Kelly(fair: real, cost: real): (k: real)
    requires cost < 1.0
    ensures k * (1.0 - cost) == fair - cost
  {
    Quotient(fair - cost, 1.0 - cost, (fair - cost) / (1.0 - cost));
    (fair - cost) / (1.0 - cost)
  }

  function ExpectedReturn(fair: real, cost: real): (r: real)
    requires cost > 0.0
    ensures r * cost == fair - cost
  {
    Quotient(fair - cost, cost, (fair - cost) / cost);
    (fair - cost) / cost
  }

  function Annualized(expectedReturn: real, days: real): (r: real)
    requires days > 0.0
    ensures r * days == expectedReturn * DAYS_PER_YEAR
  {
    Quotient(expectedReturn * DAYS_PER_YEAR, days, expectedReturn * DAYS_PER_YEAR / days);
    expectedReturn * DAYS_PER_YEAR / days
  }

  /** Fractional Kelly, capped for any single market. */
  function StakeFraction(fair: real, cost: real, config: SizingConfig): (fraction: real)
    requires cost < 1.0
    ensures fraction <= config.maxBankrollFraction
  {
    RealMin(Kelly(fair, cost) * config.kellyFraction, config.maxBankrollFraction)
  }

  function StakeCents(bankrollCents: int, fraction: real): real {
    bankrollCents as real * fraction
  }

  /** Contracts a stake buys at `cost` dollars each, before rounding. */
  function StakeContracts(stakeCents: real, cost: real): (n: real)
    requires cost > 0.0
    ensures n * (cost * 100.0) == stakeCents
  {
    Quotient(stakeCents, cost * 100.0, stakeCents / (cost * 100.0));
    stakeCents / (cost * 100.0)
  }

  /** Whole contracts the staked share of the bankroll buys. */
  function StakedContracts(fair: real, cost: real, bankrollCents: int, config: SizingConfig): int
    requires 0.0 < cost < 1.0
  {
    Floor(StakeContracts(StakeCents(bankrollCents, StakeFraction(fair, cost, config)), cost))
  }

  predicate MissesHurdle(annualized: real, config: SizingConfig) {
    config.minAnnualizedReturn > 0.0 && annualized < config.minAnnualizedReturn
  }

  /** The holding to aim for at this price, from odds and bankroll alone. */
  function SizePosition(fair: real, price: real, feeRate: real, bankrollCents: int, config: SizingConfig,
                        secondsToClose: Option<real>): SizingDecision
    requires config.Valid()
  {
    var cost := EffectiveBuyPrice(price, feeRate);
    var days := Days(secondsToClose, config.defaultDaysToResolution);
    if cost >= 1.0 || cost <= 0.0 then SizingDecision(0, 0.0, 0.0, 0.0, 0.0, days, PriceOutside)
    else SizeAtCost(fair, cost, bankrollCents, config, days)
  }

  function SizeAtCost(fair: real, cost: real, bankrollCents: int, config: SizingConfig, days: real): SizingDecision
    requires 0.0 < cost < 1.0 && days > 0.0
  {
    var kellyFull, expected := Kelly(fair, cost), ExpectedReturn(fair, cost);
    var annualized := Annualized(expected, days);
    if fair - cost <= 0.0 then SizingDecision(0, kellyFull, 0.0, expected, annualized, days, NoEdge)
    else
      var fraction := StakeFraction(fair, cost, config);
      if MissesHurdle(annualized, config) then
        SizingDecision(0, kellyFull, fraction, expected, annualized, days, BelowHurdle)
      else
        var contracts := StakedContracts(fair, cost, bankrollCents, config);
        if contracts <= 0 then SizingDecision(0, kellyFull, fraction, expected, annualized, days, StakeRoundsToZero)
        else SizingDecision(contracts, kellyFull, fraction, expected, annualized, days, Sized)
  }

  /** The part of a target that every per-order and per-market limit leaves room for. */
  function CapByRisk(contracts: int, price: real, maxContractsPerOrder: int, maxOrderNotionalCents: int,
                     exposureRoomCents: int): (target: int)
    ensures target >= 0
    ensures target > 0 ==> target <= contracts && target <= maxContractsPerOrder
    ensures target > 0 ==> target * PerContractCents(price) <= maxOrderNotionalCents
    ensures target > 0 ==> target * PerContractCents(price) <= exposureRoomCents
  {
    var unit := PerContractCents(price);
    var byNotional, byRoom := maxOrderNotionalCents / unit, exposureRoomCents / unit;
    var target := Max(0, Min(Min(contracts, maxContractsPerOrder), Min(byNotional, byRoom)));
    DivisionCap(target, maxOrderNotionalCents, unit);
    DivisionCap(target, exposureRoomCents, unit);
    target
  }

  function PerContractCents(price: real): (cents: int)
    ensures cents >= 1
  {
    Max(1, Floor(price * 100.0))
  }

  lemma DivisionCap(n: int, total: int, unit: int)
    requires unit > 0 && n >= 0
    ensures n <= total / unit ==> n * unit <= total
  {
    if n <= total / unit {
      assert n * unit <= (total / unit) * unit;
    }
  }

  // ----- Monotonicity -------------------------------------------------------------

  /** A quotient grows with its numerator and shrinks with its denominator. */
  lemma QuotientMonotone(q1: real, n1: real, d1: real, q2: real, n2: real, d2: real)
    requires q1 * d1 == n1 && q2 * d2 == n2
    requires 0.0 < d2 <= d1 && n1 <= n2 && n2 >= 0.0
    ensures q1 <= q2
  {
    if q1 > q2 {
      if q2 < 0.0 {
        ProductPositive(-q2, d2, -n2);
      } else {
        ProductNonNegative(q1, d1 - d2, q1 * (d1 - d2));
        ProductPositive(q1 - q2, d2, (q1 - q2) * d2);
      }
    }
  }

  /** (1 - kelly)(1 - cost) = 1 - fair: the chance of losing, shared over the odds. */
  lemma KellyMonotone(f1: real, c1: real, f2: real, c2: real)
    requires c2 <= c1 < 1.0 && f1 <= f2 <= 1.0
    ensures Kelly(f1, c1) <= Kelly(f2, c2)
  {
    var k1, k2 := Kelly(f1, c1), Kelly(f2, c2);
    Complement(k1, c1, f1);
    Complement(k2, c2, f2);
    QuotientMonotone(1.0 - k2, 1.0 - f2, 1.0 - c2, 1.0 - k1, 1.0 - f1, 1.0 - c1);
  }

  lemma Complement(k: real, c: real, f: real)
    requires k * (1.0 - c) == f - c
    ensures (1.0 - k) * (1.0 - c) == 1.0 - f
  {
  }

  lemma ReturnMonotone(f1: real, c1: real, f2: real, c2: real)
    requires 0.0 < c2 <= c1 && f1 <= f2 && f2 - c2 >= 0.0
    ensures ExpectedReturn(f1, c1) <= ExpectedReturn(f2, c2)
  {
    QuotientMonotone(ExpectedReturn(f1, c1), f1 - c1, c1, ExpectedReturn(f2, c2), f2 - c2, c2);
  }

  lemma AnnualizedMonotone(r1: real, r2: real, days: real)
    requires days > 0.0 && r1 <= r2 && r2 >= 0.0
    ensures Annualized(r1, days) <= Annualized(r2, days)
  {
    QuotientMonotone(Annualized(r1, days), r1 * DAYS_PER_YEAR, days, Annualized(r2, days), r2 * DAYS_PER_YEAR, days);
  }

  lemma StakeMonotone(s1: real, c1: real, s2: real, c2: real)
    requires 0.0 < c2 <= c1 && s1 <= s2 && s2 >= 0.0
    ensures Floor(StakeContracts(s1, c1)) <= Floor(StakeContracts(s2, c2))
  {
    QuotientMonotone(StakeContracts(s1, c1), s1, c1 * 100.0, StakeContracts(s2, c2), s2, c2 * 100.0);
  }

  lemma FractionPositive(fair: real, cost: real, config: SizingConfig)
    requires config.Valid() && cost < 1.0 && fair > cost
    ensures StakeFraction(fair, cost, config) > 0.0
  {
    PositiveFactor(Kelly(fair, cost), 1.0 - cost, fair - cost);
    ProductPositive(Kelly(fair, cost), config.kellyFraction, Kelly(fair, cost) * config.kellyFraction);
  }

  lemma FractionMonotone(f1: real, c1: real, f2: real, c2: real, config: SizingConfig)
    requires config.Valid() && c2 <= c1 < 1.0 && f1 <= f2 <= 1.0
    ensures StakeFraction(f1, c1, config) <= StakeFraction(f2, c2, config)
  {
    KellyMonotone(f1, c1, f2, c2);
    ProductNonNegative(Kelly(f2, c2) - Kelly(f1, c1), config.kellyFraction,
                       (Kelly(f2, c2) - Kelly(f1, c1)) * config.kellyFraction);
  }

  lemma StakeGrows(b1: int, x1: real, b2: int, x2: real)
    requires 0 <= b1 <= b2 && 0.0 <= x1 <= x2
    ensures 0.0 <= StakeCents(b1, x1) <= StakeCents(b2, x2)
  {
    ProductNonNegative(b1 as real, x1, StakeCents(b1, x1));
    ProductNonNegative(b1 as real, x2 - x1, b1 as real * (x2 - x1));
    ProductNonNegative((b2 - b1) as real, x2, (b2 - b1) as real * x2);
  }

  lemma NoBankrollNoContracts(bankrollCents: int, fraction: real, cost: real)
    requires bankrollCents <= 0 && fraction >= 0.0 && cost > 0.0
    ensures Floor(StakeContracts(StakeCents(bankrollCents, fraction), cost)) <= 0
  {
    ProductNonNegative(-(bankrollCents as real), fraction, -(bankrollCents as real) * fraction);
    StakeMonotone(StakeCents(bankrollCents, fraction), cost, 0.0, cost);
    ZeroStake(cost);
  }

  lemma ZeroStake(cost: real)
    requires cost > 0.0
    ensures Floor(StakeContracts(0.0, cost)) == 0
  {
    CancelFactor(StakeContracts(0.0, cost), 0.0, cost * 100.0);
  }

  lemma StakeOrder(b1: int, x1: real, c1: real, b2: int, x2: real, c2: real)
    requires 0.0 < x1 <= x2 && 0.0 < c2 <= c1 && b1 <= b2
    ensures Floor(StakeContracts(StakeCents(b1, x1), c1)) > 0 ==>
      Floor(StakeContracts(StakeCents(b1, x1), c1)) <= Floor(StakeContracts(StakeCents(b2, x2), c2))
  {
    if b1 <= 0 {
      NoBankrollNoContracts(b1, x1, c1);
    } else {
      StakeGrows(b1, x1, b2, x2);
      StakeMonotone(StakeCents(b1, x1), c1, StakeCents(b2, x2), c2);
    }
  }

  lemma StakedMonotone(f1: real, c1: real, b1: int, f2: real, c2: real, b2: int, config: SizingConfig)
    requires config.Valid() && 0.0 < c2 <= c1 < f1 <= f2 <= 1.0 && b1 <= b2
    ensures StakedContracts(f1, c1, b1, config) > 0 ==>
      StakedContracts(f1, c1, b1, config) <= StakedContracts(f2, c2, b2, config)
  {
    FractionPositive(f1, c1, config);
    FractionMonotone(f1, c1, f2, c2, config);
    StakeOrder(b1, StakeFraction(f1, c1, config), c1, b2, StakeFraction(f2, c2, config), c2);
  }

  lemma HurdleMonotone(f1: real, c1: real, f2: real, c2: real, config: SizingConfig, days: real)
    requires days > 0.0 && 0.0 < c2 <= c1 < f1 <= f2
    requires MissesHurdle(Annualized(ExpectedReturn(f2, c2), days), config)
    ensures MissesHurdle(Annualized(ExpectedReturn(f1, c1), days), config)
  {
    ReturnMonotone(f1, c1, f2, c2);
    ReturnNonNegative(f2, c2);
    AnnualizedMonotone(ExpectedReturn(f1, c1), ExpectedReturn(f2, c2), days);
  }

  /** More fair value, a lower fee-inclusive cost and more bankroll never shrink the target. */
  lemma SizeAtCostMonotone(f1: real, c1: real, b1: int, f2: real, c2: real, b2: int, config: SizingConfig, days: real)
    requires config.Valid() && days > 0.0
    requires 0.0 < c2 <= c1 < 1.0 && f1 <= f2 <= 1.0 && b1 <= b2
    ensures SizeAtCost(f1, c1, b1, config, days).contracts <= SizeAtCost(f2, c2, b2, config, days).contracts
  {
    if f1 > c1 {
      StakedMonotone(f1, c1, b1, f2, c2, b2, config);
      if MissesHurdle(Annualized(ExpectedReturn(f2, c2), days), config) {
        HurdleMonotone(f1, c1, f2, c2, config, days);
      }
    }
  }

  lemma ReturnNonNegative(fair: real, cost: real)
    requires 0.0 < cost <= fair
    ensures ExpectedReturn(fair, cost) >= 0.0
  {
    var r := ExpectedReturn(fair, cost);
    if r < 0.0 {
      ProductPositive(-r, cost, -r * cost);
    }
  }

  /** Non-decreasing in fair probability and in bankroll, at any price. */
  lemma SizeMonotoneInFairAndBankroll(f1: real, b1: int, f2: real, b2: int, price: real, rate: real,
                                      config: SizingConfig, secondsToClose: Option<real>)
    requires config.Valid() && f1 <= f2 <= 1.0 && b1 <= b2
    ensures SizePosition(f1, price, rate, b1, config, secondsToClose).contracts
         <= SizePosition(f2, price, rate, b2, config, secondsToClose).contracts
  {
    var cost := EffectiveBuyPrice(price, rate);
    if 0.0 < cost < 1.0 {
      SizeAtCostMonotone(f1, cost, b1, f2, cost, b2, config, Days(secondsToClose, config.defaultDaysToResolution));
    }
  }

  /** Non-increasing in price, outside the band where the fee formula pays a rebate. */
  lemma SizeMonotoneInPrice(p1: real, p2: real, fair: real, rate: real, bankrollCents: int,
                            config: SizingConfig, secondsToClose: Option<real>)
    requires config.Valid() && 0.0 <= rate < 1.0 && 0.0 < p1 <= p2 && fair <= 1.0
    requires !(1.0 < rate * p2 < 1.0 + rate)
    ensures SizePosition(fair, p2, rate, bankrollCents, config, secondsToClose).contracts
         <= SizePosition(fair, p1, rate, bankrollCents, config, secondsToClose).contracts
  {
    EffectiveInsideExactly(p2, rate);
    if 0.0 < EffectiveBuyPrice(p2, rate) < 1.0 {
      EffectiveInsideExactly(p1, rate);
      EffectiveIncreasing(p1, p2, rate);
      SizeAtCostMonotone(fair, EffectiveBuyPrice(p2, rate), bankrollCents, fair, EffectiveBuyPrice(p1, rate),
                         bankrollCents, config, Days(secondsToClose, config.defaultDaysToResolution));
    }
  }

  /** No cheaper price is ever sized below this one. */
  ghost predicate NeverSizedAboveCheaper(price: real, rate: real) {
    forall p: real, fair: real, bankroll: int, config: SizingConfig, seconds: Option<real> ::
      config.Valid() && 0.0 < p <= price && 0.0 < fair < 1.0 ==>
        SizePosition(fair, price, rate, bankroll, config, seconds).contracts
        <= SizePosition(fair, p, rate, bankroll, config, seconds).contracts
  }

  /** Exactly the prices at which sizing is non-increasing; every price of at most a dollar is one. */
  lemma PriceMonotoneExactly(price: real, rate: real)
    requires 0.0 <= rate < 1.0 && price > 0.0
    ensures NeverSizedAboveCheaper(price, rate) <==> !(1.0 < rate * price < 1.0 + rate)
  {
    if 1.0 < rate * price < 1.0 + rate {
      RebateBandIsSized(price, rate);
    } else {
      forall p: real, fair: real, bankroll: int, config: SizingConfig, seconds: Option<real>
        | config.Valid() && 0.0 < p <= price && 0.0 < fair < 1.0
        ensures SizePosition(fair, price, rate, bankroll, config, seconds).contracts
             <= SizePosition(fair, p, rate, bankroll, config, seconds).contracts
      {
        SizeMonotoneInPrice(p, price, fair, rate, bankroll, config, seconds);
      }
    }
  }

  /** In the rebate band a large bankroll buys contracts although one at exactly a dollar buys none. */
  lemma RebateBandIsSized(price: real, rate: real)
    requires 0.0 <= rate < 1.0 && price > 0.0 && 1.0 < rate * price < 1.0 + rate
    ensures !NeverSizedAboveCheaper(price, rate)
  {
    EffectiveInsideExactly(price, rate);
    RateBelowPrice(price, rate);
    var cost := EffectiveBuyPrice(price, rate);
    var fair := (1.0 + cost) / 2.0;
    var config := SizingConfig(1.0, 1.0, 0.0, 1.0);
    FractionPositive(fair, cost, config);
    var bankroll := EnoughBankroll(StakeFraction(fair, cost, config), cost);
    assert SizePosition(fair, price, rate, bankroll, config, None).contracts >= 1;
    assert EffectiveBuyPrice(1.0, rate) == 1.0;
    assert SizePosition(fair, 1.0, rate, bankroll, config, None).contracts == 0;
  }

  lemma RateBelowPrice(price: real, rate: real)
    requires 0.0 <= rate < 1.0 && price > 0.0 && rate * price > 1.0
    ensures price > 1.0
  {
    if price <= 1.0 {
      ProductNonNegative(rate, 1.0 - price, rate * (1.0 - price));
    }
  }

  /** Some bankroll stakes at least one contract. */
  lemma EnoughBankroll(fraction: real, cost: real) returns (bankroll: int)
    requires fraction > 0.0 && cost > 0.0
    ensures Floor(StakeContracts(StakeCents(bankroll, fraction), cost)) >= 1
  {
    var needed := cost * 100.0 / fraction;
    Quotient(cost * 100.0, fraction, needed);
    bankroll := Ceiling(needed);
    var stake := StakeCents(bankroll, fraction);
    ProductNonNegative(bankroll as real - needed, fraction, (bankroll as real - needed) * fraction);
    QuotientMonotone(1.0, cost * 100.0, cost * 100.0, StakeContracts(stake, cost), stake, cost * 100.0);
  }

  // ----- The stake bounds the spend ---------------------------------------------------

  /** A sized position costs, fees included, at most its share of the bankroll. */
  lemma SizedWithinBankroll(fair: real, price: real, rate: real, bankrollCents: int, config: SizingConfig,
                            secondsToClose: Option<real>, count: int)
    requires config.Valid() && bankrollCents >= 0
    requires 0 < count <= SizePosition(fair, price, rate, bankrollCents, config, secondsToClose).contracts
    ensures 0.0 < EffectiveBuyPrice(price, rate) < 1.0
    ensures count as real * (EffectiveBuyPrice(price, rate) * 100.0)
         <= StakeCents(bankrollCents, config.maxBankrollFraction)
  {
    var cost := EffectiveBuyPrice(price, rate);
    var fraction := StakeFraction(fair, cost, config);
    var stake := StakeCents(bankrollCents, fraction);
    var exact := StakeContracts(stake, cost);
    assert count as real <= exact;
    ProductNonNegative(exact - count as real, cost * 100.0, (exact - count as real) * (cost * 100.0));
    ProductNonNegative(bankrollCents as real, config.maxBankrollFraction - fraction,
                       bankrollCents as real * (config.maxBankrollFraction - fraction));
  }
}
