/** When the paper account's cash can fall below zero: only through a sale whose fee exceeds its price. */
module Cash {
  import opened Rounding
  import opened RealArithmetic
  import opened Domain
  import opened Config
  import opened Fees
  import opened Ledger
  import opened Broker
  import opened PaperSteps
  import opened PaperPaths

  // ----- One sale --------------------------------------------------------------------------

  /** What a sale brings in: the price rounded down less the fee rounded up. */
  function Proceeds(count: int, price: real, rate: real): int {
    Floor(price * count as real * 100.0) - OrderFeeCents(count, price, rate)
  }

  ghost predicate SalesNeverCost(rate: real) {
    forall price: real, count: int :: CENT <= price <= 1.0 && count > 0 ==> Proceeds(count, price, rate) >= 0
  }

  /** The fee of one contract just under two cents, worth one whole cent, reaches a cent at this rate. */
  const RATE_BOUND := 25.0 / 49.0

  /** A fee within the whole cents of the price leaves something. */
  lemma RoundedFee(value: real, fee: real)
    requires fee <= Floor(value) as real
    ensures Floor(value) - Rounding.Ceiling(fee) >= 0
  {
  }

  lemma FeeShare(price: real, rate: real, n: real, value: real)
    requires value == price * n * 100.0 && 0.0 <= price <= 1.0 && 0.0 <= rate && n > 0.0
    ensures rate * (price * (1.0 - price)) * n * 100.0 <= rate * value
  {
    ProductNonNegative(price, price, price * price);
    ProductNonNegative(rate, price * price, rate * (price * price));
    ProductNonNegative(rate * (price * price), n, rate * (price * price) * n);
    assert rate * (price * (1.0 - price)) * n * 100.0 == rate * value - rate * (price * price) * n * 100.0 by {
      Spread(price, rate, n);
    }
  }

  lemma Spread(price: real, rate: real, n: real)
    ensures rate * (price * (1.0 - price)) * n * 100.0 == rate * (price * n * 100.0) - rate * (price * price) * n * 100.0
  {
  }

  /** From two cents of value on, the fee is less than the whole cents. */
  lemma LargeSale(value: real, rate: real)
    requires value >= 2.0 && 0.0 <= rate <= RATE_BOUND
    ensures rate * value <= Floor(value) as real
  {
    ProductMonotone(rate, RATE_BOUND, value);
  }

  /** p (1 - p) grows up to two cents and beyond. */
  lemma SmallVariance(price: real)
    requires CENT <= price <= 0.02
    ensures 0.0 <= price * (1.0 - price) <= 0.0196
  {
    ProductNonNegative(0.02 - price, 0.98 - price, (0.02 - price) * (0.98 - price));
    assert (0.02 - price) * (0.98 - price) == 0.0196 - price * (1.0 - price);
    ProductNonNegative(price, 1.0 - price, price * (1.0 - price));
  }

  lemma SmallSale(price: real, rate: real)
    requires CENT <= price < 0.02 && 0.0 <= rate <= RATE_BOUND
    ensures rate * (price * (1.0 - price)) * 1.0 * 100.0 <= 1.0
  {
    var variance := price * (1.0 - price);
    SmallVariance(price);
    ProductMonotone(rate, RATE_BOUND, variance);
    ProductMonotone(variance, 0.0196, RATE_BOUND);
    assert RATE_BOUND * 0.0196 == 0.01;
    assert rate * variance <= 0.01;
  }

  lemma ProceedsNonNegative(count: int, price: real, rate: real)
    requires CENT <= price <= 1.0 && count > 0 && 0.0 <= rate <= RATE_BOUND
    ensures Proceeds(count, price, rate) >= 0
  {
    var n, value := count as real, price * count as real * 100.0;
    ProductMonotone(CENT, price, n);
    var fee := FeePerContract(price, rate) * n * 100.0;
    if value < 2.0 {
      assert count == 1;
      SmallSale(price, rate);
    } else {
      FeeShare(price, rate, n, value);
      LargeSale(value, rate);
    }
    FeeWithin(count, price, rate, value, fee);
  }

  lemma FeeWithin(count: int, price: real, rate: real, value: real, fee: real)
    requires count > 0 && value == price * count as real * 100.0 && value >= 1.0
    requires fee == FeePerContract(price, rate) * count as real * 100.0 && (rate > 0.0 ==> fee <= Floor(value) as real)
    ensures Proceeds(count, price, rate) >= 0
  {
    if rate > 0.0 {
      RoundedFee(value, fee);
    }
  }

  /** Above the bound some price under two cents makes one contract cost more to sell than it brings. */
  lemma CostlySale(rate: real) returns (price: real)
    requires RATE_BOUND < rate < 1.0
    ensures CENT <= price < 0.02 && Proceeds(1, price, rate) < 0
  {
    var level := 0.01 / rate;
    Quotient(0.01, rate, level);
    LevelBounds(rate, level);
    var gap := 0.0196 - level;
    price := 0.02 - gap / 2.0;
    VarianceNearTwoCents(gap, price);
    AboveLevel(rate, level, price * (1.0 - price));
  }

  lemma LevelBounds(rate: real, level: real)
    requires RATE_BOUND < rate < 1.0 && level * rate == 0.01
    ensures 0.01 < level < 0.0196
  {
    if level <= 0.01 {
      ProductMonotone(level, 0.01, rate);
    }
    if level >= 0.0196 {
      ProductMonotone(0.0196, level, rate);
    }
  }

  lemma VarianceNearTwoCents(gap: real, price: real)
    requires 0.0 < gap < 0.0096 && price == 0.02 - gap / 2.0
    ensures price * (1.0 - price) > 0.0196 - gap
  {
    assert price * (1.0 - price) == 0.0196 - 0.48 * gap - gap * gap / 4.0;
    ProductMonotone(gap, 0.0096, gap);
  }

  lemma AboveLevel(rate: real, level: real, variance: real)
    requires rate > 0.0 && level * rate == 0.01 && variance > level
    ensures rate * variance * 1.0 * 100.0 > 1.0
  {
    ProductPositive(variance - level, rate, (variance - level) * rate);
  }

  /** The rates at which no sale from a cent to a dollar ever costs money, exactly. */
  lemma SalesNeverCostExactly(rate: real)
    requires 0.0 <= rate < 1.0
    ensures SalesNeverCost(rate) <==> rate <= RATE_BOUND
  {
    if rate <= RATE_BOUND {
      forall price: real, count: int | CENT <= price <= 1.0 && count > 0
        ensures Proceeds(count, price, rate) >= 0
      {
        ProceedsNonNegative(count, price, rate);
      }
    } else {
      var price := CostlySale(rate);
    }
  }

  // ----- Every run ---------------------------------------------------------------------------

  ghost predicate Solvent(b: Books) {
    WellFormed(b) && b.balanceCents >= 0
  }

  predicate FairRates(fees: FeeConfig) {
    fees.takerRate <= RATE_BOUND && fees.makerRate <= RATE_BOUND
  }

  /** A buy is refused without the cash; a sale brings in something or nothing. */
  lemma AppliedKeepsCash(config: AppConfig, b: Books, intent: Intent, price: real)
    requires config.Valid() && FairRates(config.fees) && b.balanceCents >= 0 && intent.count > 0
    requires !intent.IsBuy() ==> CENT <= price <= 1.0
    requires Applied(config.fees, b, intent, price).Ok?
    ensures Applied(config.fees, b, intent, price).value.balanceCents >= 0
  {
    if !intent.IsBuy() {
      ProceedsNonNegative(intent.count, price, config.fees.RateFor(intent.style));
    }
  }

  lemma ElementaryKeepsCash(config: AppConfig, b: Books, after: Books)
    requires config.Valid() && FairRates(config.fees) && Solvent(b) && Elementary(config, b, after)
    ensures Solvent(after)
  {
    ElementaryKeepsWellFormed(config, b, after);
    if i, price :| Settles(config, b, after, i, price) {
      SettlingKeepsCash(config, b, after, i, price);
    }
  }

  lemma SettlingKeepsCash(config: AppConfig, b: Books, after: Books, i: nat, price: real)
    requires config.Valid() && FairRates(config.fees) && Solvent(b) && Settles(config, b, after, i, price)
    ensures after.balanceCents >= 0
  {
    assert RowOk(b.journal[i]);
    SettledIs(config.fees, b, i, price);
    if Applied(config.fees, b, b.journal[i].intent, price).Ok? {
      AppliedKeepsCash(config, b, b.journal[i].intent, price);
    }
  }

  /** Over every run cash stays at or above zero, if neither fee rate exceeds the bound. */
  lemma CashNeverNegative(config: AppConfig, steps: seq<Step>)
    requires config.Valid() && SaneRun(steps) && FairRates(config.fees)
    ensures Run(config, steps).balanceCents >= 0
  {
    forall s, t | Solvent(s) && Changes(config)(s, t)
      ensures Solvent(t)
    {
      ElementaryKeepsCash(config, s, t);
    }
    RunKeeps(config, Solvent, steps);
  }
}
