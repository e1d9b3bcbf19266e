/** Where the paper ledger's promises stop: cash, and opposite orders that rest. */
module Hazards {
  import opened Wrappers
  import opened Domain
  import opened Config
  import opened Fees
  import opened Sizing
  import opened OrderCosts
  import opened Strategy
  import opened Risk
  import opened Ledger
  import opened Broker
  import opened Engine
  import opened PaperSteps
  import opened PaperPaths
  import opened RealArithmetic

  // ----- Sized buys are affordable ------------------------------------------------------

  /** Two roundings up cost less than two cents over the exact fee-inclusive price. */
  lemma CostBelowExactPlusTwo(fees: FeeConfig, intent: Intent, price: real)
    requires intent.count > 0 && fees.RateFor(intent.style) >= 0.0
    ensures FillCost(intent, price, FillFee(fees, intent, price)) as real
          < intent.count as real * (EffectiveBuyPrice(price, fees.RateFor(intent.style)) * 100.0) + 2.0
  {
    var n, fee := intent.count as real, FeePerContract(price, fees.RateFor(intent.style));
    ExactCostSplits(price, fee, n);
  }

  lemma CheaperCostsLess(price: real, limit: real, rate: real, count: int)
    requires price <= limit <= 1.0 && 0.0 <= rate < 1.0 && count > 0
    ensures count as real * (EffectiveBuyPrice(price, rate) * 100.0) <= count as real * (EffectiveBuyPrice(limit, rate) * 100.0)
  {
    EffectiveIncreasing(price, limit, rate);
    ProductMonotone(EffectiveBuyPrice(price, rate) * 100.0, EffectiveBuyPrice(limit, rate) * 100.0, count as real);
  }

  /** A stake that covers the exact cost at the limit, with two cents to spare, covers the rounded cost
      at any better price. */
  lemma StakeCoversCost(fees: FeeConfig, b: Books, intent: Intent, price: real, rate: real, stake: real)
    requires intent.IsBuy() && intent.count > 0 && price <= intent.limitPrice <= 1.0
    requires rate == fees.RateFor(intent.style) && 0.0 <= rate < 1.0
    requires intent.count as real * (EffectiveBuyPrice(intent.limitPrice, rate) * 100.0) <= stake
    requires b.balanceCents as real - stake >= 2.0
    ensures Applied(fees, b, intent, price).Ok?
  {
    CheaperCostsLess(price, intent.limitPrice, rate, intent.count);
    CostBelowExactPlusTwo(fees, intent, price);
  }

  /** The exact cost of the buy at its limit, fee included, is within the share of the balance that sizing may stake. */
  ghost predicate StakedWithin(config: AppConfig, balanceCents: int, intent: Intent) {
    && intent.IsBuy() && intent.count > 0 && intent.limitPrice <= 1.0 && intent.style == config.strategy.orderStyle
    && intent.count as real * (EffectiveBuyPrice(intent.limitPrice, config.fees.RateFor(intent.style)) * 100.0)
       <= StakeCents(balanceCents, config.sizing.maxBankrollFraction)
  }

  ghost function SizeOf(config: AppConfig, probability: real, balanceCents: int, secondsToClose: Option<real>, intent: Intent): int
    requires config.Valid()
  {
    SizePosition(Fair(probability, intent.outcome), intent.limitPrice, config.fees.RateFor(config.strategy.orderStyle),
                 balanceCents, config.sizing, secondsToClose).contracts
  }

  lemma BuyWithinSize(config: AppConfig, signal: Signal, quote: Quote, portfolio: Portfolio, held: Position, now: real, intent: Intent)
    requires config.Valid() && SizedBuy(config, signal, quote, portfolio, held, now, intent)
    ensures intent.IsBuy() && intent.count > 0 && intent.limitPrice <= MAX_PRICE && intent.style == config.strategy.orderStyle
    ensures intent.count <= SizeOf(config, signal.fairProbability, portfolio.balanceCents, quote.SecondsToClose(now), intent)
  {
  }

  lemma SizeIsStaked(config: AppConfig, probability: real, balanceCents: int, secondsToClose: Option<real>, intent: Intent)
    requires config.Valid() && balanceCents >= 0
    requires intent.IsBuy() && intent.limitPrice <= 1.0 && intent.style == config.strategy.orderStyle
    requires 0 < intent.count <= SizeOf(config, probability, balanceCents, secondsToClose, intent)
    ensures StakedWithin(config, balanceCents, intent)
  {
    SizedWithinBankroll(Fair(probability, intent.outcome), intent.limitPrice, config.fees.RateFor(config.strategy.orderStyle),
                        balanceCents, config.sizing, secondsToClose, intent.count);
  }

  lemma SizedBuyIsStaked(config: AppConfig, signal: Signal, quote: Quote, portfolio: Portfolio, held: Position, now: real, intent: Intent)
    requires config.Valid() && portfolio.balanceCents >= 0
    requires SizedBuy(config, signal, quote, portfolio, held, now, intent)
    ensures StakedWithin(config, portfolio.balanceCents, intent)
  {
    BuyWithinSize(config, signal, quote, portfolio, held, now, intent);
    SizeIsStaked(config, signal.fairProbability, portfolio.balanceCents, quote.SecondsToClose(now), intent);
  }

  lemma ProposalIsStaked(config: AppConfig, b: Books, input: Input, intent: Intent)
    requires config.Valid() && Proposal(config, b, input) == Trade(intent) && intent.IsBuy() && b.balanceCents >= 0
    ensures StakedWithin(config, b.balanceCents, intent)
  {
    var portfolio, held := Snapshot(b, input.quote.ticker), PaperPosition(b.positions, input.quote.ticker);
    IntentAnatomy(config, input.signal, input.quote, portfolio, held, input.clientOrderId, input.now, intent);
    SizedBuyIsStaked(config, input.signal, input.quote, portfolio, held, input.now, intent);
  }

  lemma StakedIsAffordable(config: AppConfig, b: Books, intent: Intent, price: real)
    requires config.Valid() && StakedWithin(config, b.balanceCents, intent) && price <= intent.limitPrice
    requires b.balanceCents as real - StakeCents(b.balanceCents, config.sizing.maxBankrollFraction) >= 2.0
    ensures Applied(config.fees, b, intent, price).Ok?
  {
    StakeCoversCost(config.fees, b, intent, price, config.fees.RateFor(intent.style),
                    StakeCents(b.balanceCents, config.sizing.maxBankrollFraction));
  }

  /** A Kelly-sized buy that fills at or below its limit never runs out of cash when the part of the
      balance that sizing may not stake is worth two cents. */
  lemma SizedBuyIsAffordable(config: AppConfig, b: Books, input: Input, intent: Intent, price: real)
    requires config.Valid() && Proposal(config, b, input) == Trade(intent) && intent.IsBuy()
    requires price <= intent.limitPrice
    requires b.balanceCents >= 0
    requires b.balanceCents as real - StakeCents(b.balanceCents, config.sizing.maxBankrollFraction) >= 2.0
    ensures Applied(config.fees, b, intent, price).Ok?
  {
    ProposalIsStaked(config, b, input, intent);
    StakedIsAffordable(config, b, intent, price);
  }

  /** With at most half the bankroll at stake a sized buy is always affordable at its limit or better: a balance
      of one cent, where two roundings could overrun it, sizes no contract at all. */
  lemma HalfStakeIsAffordable(config: AppConfig, b: Books, intent: Intent, price: real)
    requires config.Valid() && config.sizing.maxBankrollFraction <= 0.5 && b.balanceCents >= 0
    requires StakedWithin(config, b.balanceCents, intent) && CENT <= intent.limitPrice <= MAX_PRICE && price <= intent.limitPrice
    ensures Applied(config.fees, b, intent, price).Ok?
  {
    var rate := config.fees.RateFor(intent.style);
    FillCostIs(config.fees, intent, price);
    if price <= 0.0 {
      FreeBelowZero(intent.count, price, rate);
    } else {
      HalfStake(b.balanceCents, config.sizing.maxBankrollFraction);
      HalfCoversCost(intent.count, price, intent.limitPrice, rate, b.balanceCents,
                     StakeCents(b.balanceCents, config.sizing.maxBankrollFraction));
    }
  }

  lemma FillCostIs(fees: FeeConfig, intent: Intent, price: real)
    ensures FillCost(intent, price, FillFee(fees, intent, price)) == CostCents(intent.count, price, fees.RateFor(intent.style))
  {
  }

  lemma HalfCoversCost(count: int, price: real, limit: real, rate: real, balance: int, stake: real)
    requires count > 0 && 0.0 < price <= limit && CENT <= limit < 1.0 && 0.0 <= rate < 1.0 && balance >= 0
    requires count as real * (EffectiveBuyPrice(limit, rate) * 100.0) <= stake && 2.0 * stake <= balance as real
    ensures CostCents(count, price, rate) <= balance
  {
    CheaperCostsLess(price, limit, rate, count);
    ContractsCostACent(count, limit, rate);
    CostOverrunsExactly(count, price, rate, balance);
  }

  /** With at most half the bankroll in one market, an approved taker buy that fills when placed never meets
      the insufficient-cash branch. */
  lemma ApprovedTakerBuyFills(config: AppConfig, b: Books, input: Input, intent: Intent)
    requires config.Valid() && config.sizing.maxBankrollFraction <= 0.5
    requires Proposal(config, b, input) == Trade(intent) && intent.IsBuy() && intent.style.Taker?
    requires Verdict(config, b, intent, input) == Approved
    requires !WorseThanLimit(intent, TakerPrice(config.paper, intent, input.quote))
    requires !Has(b.journal, intent.clientOrderId)
    ensures Place(config, RecordIntent(b, intent, input.now).value, intent, input.quote).1.status == Filled
  {
    var ticker, price := input.quote.ticker, TakerPrice(config.paper, intent, input.quote);
    BuyVerdict(config, Snapshot(b, ticker), intent, input.quote, LastOrderAt(b.journal, ticker), input.killSwitch, input.now);
    ProposalIsStaked(config, b, input, intent);
    ProposalPrice(config, b, input, intent);
    HalfStakeIsAffordable(config, b, intent, price);
  }

  lemma ProposalPrice(config: AppConfig, b: Books, input: Input, intent: Intent)
    requires config.Valid() && Proposal(config, b, input) == Trade(intent)
    ensures CENT <= intent.limitPrice <= MAX_PRICE
  {
    IntentAnatomy(config, input.signal, input.quote, Snapshot(b, input.quote.ticker),
                  PaperPosition(b.positions, input.quote.ticker), input.clientOrderId, input.now, intent);
  }

  // ----- Opposite orders that rest --------------------------------------------------------------

  /** Two buys of opposite sides of one market, both resting, both fill over two uncrossed quotes that
      touch one side each: the account then holds both sides, which `paper_position` assumes away. */
  lemma OppositeRestingBuysBothFill(config: AppConfig, b: Books, yes: Intent, no: Intent, first: Quote, second: Quote)
    requires config.Valid() && WellFormed(b) && Rests(b.journal, yes) && Rests(b.journal, no)
    requires yes.ticker == no.ticker && yes.outcome.Yes? && no.outcome.No? && yes.IsBuy() && no.IsBuy()
    requires yes.clientOrderId != no.clientOrderId
    requires Touched(yes, first) && Touched(no, second)
    requires b.balanceCents >= FillCost(yes, yes.limitPrice, FillFee(config.fees, yes, yes.limitPrice))
                             + FillCost(no, no.limitPrice, FillFee(config.fees, no, no.limitPrice))
    requires FillCost(no, no.limitPrice, FillFee(config.fees, no, no.limitPrice)) >= 0
    ensures var mid := ReconcileOne(config, b, yes, first);
      var end := ReconcileOne(config, mid, no, second);
      Rests(mid.journal, no) && (yes.ticker, Yes) in end.positions && (yes.ticker, No) in end.positions
  {
    ReconcileOnePath(config, b, yes, first);
    var mid := ReconcileOne(config, b, yes, first);
    var end := ReconcileOne(config, mid, no, second);
    assert (yes.ticker, Yes) in mid.positions;
    assert Applied(config.fees, mid, no, no.limitPrice).Ok?;
  }
}
