/** Pre-trade limits, and the sizer whose targets they judge. */
module Risk {
  import opened Wrappers
  import opened Rounding
  import opened RealArithmetic
  import opened Domain
  import opened Config
  import opened Fees
  import opened Sizing
  import opened Strategy

  datatype Code =
    | Approved
    | OrderCount
    | OrderNotional
    | MarketExposureLimit
    | TotalExposureLimit
    | OpenOrders
    | Balance
    | KillSwitch
    | MarketClosed
    | DailyLoss
    | Spread
    | Liquidity
    | Edge
    | Price
    | Cooldown

  /** The integer gate of the risk core: the first limit an order breaks. */
  function NumericGate(count: int, notionalCents: int, portfolio: Portfolio, risk: RiskConfig): Code {
    if count <= 0 || count > risk.maxContractsPerOrder then OrderCount
    else if notionalCents <= 0 || notionalCents > risk.maxOrderNotionalCents then OrderNotional
    else if portfolio.marketExposureCents + notionalCents > risk.maxMarketExposureCents then MarketExposureLimit
    else if portfolio.totalExposureCents + notionalCents > risk.maxTotalExposureCents then TotalExposureLimit
    else if portfolio.openOrders >= risk.maxOpenOrders then OpenOrders
    else if portfolio.balanceCents < risk.minBalanceCents then Balance
    else Approved
  }

  function EvaluateBuy(intent: Intent, quote: Quote, portfolio: Portfolio, risk: RiskConfig, minEdgeBps: int,
                       lastOrderAt: Option<real>, killSwitch: bool, now: real): Code {
    var gate := NumericGate(intent.count, intent.MaxLossCents(), portfolio, risk);
    if gate != Approved then gate
    else if killSwitch then KillSwitch
    else if !quote.IsOpen() then MarketClosed
    else if portfolio.dailyPnlCents <= -risk.maxDailyLossCents then DailyLoss
    else if quote.SpreadCents(intent.outcome) > risk.maxSpreadCents then Spread
    else if quote.AskSize(intent.outcome) < risk.minTopLevelContracts as real then Liquidity
    else if intent.EdgeBps() < minEdgeBps then Edge
    else if !(0.0 < intent.limitPrice < 1.0) then Price
    else if lastOrderAt.Some? && now - lastOrderAt.value < risk.cooldownSeconds as real then Cooldown
    else Approved
  }

  /** The shorter list of checks for a sell, which frees exposure and cash. */
  function EvaluateSell(intent: Intent, quote: Quote, risk: RiskConfig, killSwitch: bool): Code {
    if killSwitch then KillSwitch
    else if !quote.IsOpen() then MarketClosed
    else if !(0 < intent.count <= risk.maxContractsPerOrder) then OrderCount
    else if !(0.0 < intent.limitPrice < 1.0) then Price
    else Approved
  }

  function Judge(intent: Intent, quote: Quote, portfolio: Portfolio, config: AppConfig,
                 lastOrderAt: Option<real>, killSwitch: bool, now: real): Code {
    if intent.IsBuy() then
      EvaluateBuy(intent, quote, portfolio, config.risk, config.strategy.minEdgeBps, lastOrderAt, killSwitch, now)
    else EvaluateSell(intent, quote, config.risk, killSwitch)
  }

  // ----- The engine's sizer ----------------------------------------------------------

  function Target(config: AppConfig, probability: real, balanceCents: int, marketExposureCents: int,
                  secondsToClose: Option<real>, outcome: Outcome, price: real): (target: int)
    requires config.Valid()
    ensures target >= 0
  {
    var sized := SizePosition(Fair(probability, outcome), price, config.fees.RateFor(config.strategy.orderStyle),
                              balanceCents, config.sizing, secondsToClose);
    CapByRisk(sized.contracts, price, config.risk.maxContractsPerOrder, config.risk.maxOrderNotionalCents,
              config.risk.maxMarketExposureCents - marketExposureCents)
  }

  /** `_sizer`: the closure the engine hands to the strategy. */
  function SizerFor(config: AppConfig, signal: Signal, quote: Quote, portfolio: Portfolio, now: real): Sizer
    requires config.Valid()
  {
    (outcome, price) => Target(config, signal.fairProbability, portfolio.balanceCents, portfolio.marketExposureCents,
                               quote.SecondsToClose(now), outcome, price)
  }

  /** The engine's call of the strategy. */
  function Decide(config: AppConfig, signal: Signal, quote: Quote, portfolio: Portfolio, held: Position,
                  clientOrderId: string, now: real): Decision
    requires config.Valid()
  {
    Evaluate(config.strategy, config.fees, signal, quote, held, config.risk.maxContractsPerOrder,
             SizerFor(config, signal, quote, portfolio, now), clientOrderId)
  }

  // ----- Intents fit the gates ----------------------------------------------------------

  predicate WholeCents(price: real) {
    Floor(price * 100.0) as real == price * 100.0
  }

  /** What a buy intent of the strategy is made of. */
  ghost predicate SizedBuy(config: AppConfig, signal: Signal, quote: Quote, portfolio: Portfolio, held: Position,
                           now: real, intent: Intent)
    requires config.Valid()
  {
    var target := Target(config, signal.fairProbability, portfolio.balanceCents, portfolio.marketExposureCents,
                         quote.SecondsToClose(now), intent.outcome, intent.limitPrice);
    && intent.IsBuy()
    && quote.IsOpen()
    && signal.ticker == quote.ticker == intent.ticker
    && intent.style == config.strategy.orderStyle
    && intent.fairProbability == signal.fairProbability
    && BuyPrice(config.strategy, quote, intent.outcome) == Some(intent.limitPrice)
    && BuyEdgeBps(config.strategy, config.fees, signal.fairProbability, intent.outcome, intent.limitPrice) >= config.strategy.minEdgeBps
    && held.Held(intent.outcome.Opposite()) == 0
    && 0 < intent.count
    && intent.count == target - held.Held(intent.outcome)
  }

  /** What a sell intent of the strategy is made of. */
  ghost predicate ExitSell(config: AppConfig, signal: Signal, quote: Quote, held: Position, intent: Intent) {
    && !intent.IsBuy()
    && quote.IsOpen()
    && signal.ticker == quote.ticker == intent.ticker
    && intent.style == config.strategy.orderStyle
    && SellPrice(config.strategy, quote, intent.outcome) == Some(intent.limitPrice)
    && held.outcome == Some(intent.outcome)
    && intent.count == (if config.risk.maxContractsPerOrder < held.count then config.risk.maxContractsPerOrder else held.count)
    && 0 < intent.count
    && SellEdgeBps(config.strategy, config.fees, signal.fairProbability, intent.outcome, intent.limitPrice) >= config.strategy.exitEdgeBps
  }

  /** Every intent carries the given client order ID and is either a sized buy or an exit. */
  lemma IntentAnatomy(config: AppConfig, signal: Signal, quote: Quote, portfolio: Portfolio, held: Position,
                      clientOrderId: string, now: real, intent: Intent)
    requires config.Valid()
    requires Decide(config, signal, quote, portfolio, held, clientOrderId, now) == Trade(intent)
    ensures intent.clientOrderId == clientOrderId
    ensures intent.IsBuy() ==> SizedBuy(config, signal, quote, portfolio, held, now, intent)
    ensures !intent.IsBuy() ==> ExitSell(config, signal, quote, held, intent)
  {
  }

  /** `count` contracts at `price` cost at most the per-contract cents times count, plus a cent each
      when the price is not in whole cents. */
  lemma NotionalBound(count: int, price: real)
    requires count > 0 && price >= CENT
    ensures CentsUp(price * count as real) > 0
    ensures CentsUp(price * count as real) <= count * PerContractCents(price) + count
    ensures WholeCents(price) ==> CentsUp(price * count as real) == count * PerContractCents(price)
  {
    var unit := PerContractCents(price);
    var exact := price * count as real * 100.0;
    assert unit as real <= price * 100.0 < unit as real + 1.0;
    ProductNonNegative(price * 100.0 - unit as real, count as real, (price * 100.0 - unit as real) * count as real);
    ProductPositive(unit as real + 1.0 - price * 100.0, count as real, (unit as real + 1.0 - price * 100.0) * count as real);
    assert (count * unit) as real == count as real * unit as real;
    Sandwich(count * unit, exact, count);
    ProductPositive(unit as real, count as real, unit as real * count as real);
  }

  lemma Sandwich(low: int, exact: real, slack: int)
    requires low as real <= exact <= (low + slack) as real
    ensures low <= Ceiling(exact) <= low + slack
    ensures exact == low as real ==> Ceiling(exact) == low
  {
  }

  /** A net edge in basis points is never above the gross edge. */
  lemma GrossEdgeCoversNet(intent: Intent, rate: real)
    requires intent.IsBuy() && 0.0 <= intent.limitPrice <= 1.0 && rate >= 0.0
    ensures Truncate((Fair(intent.fairProbability, intent.outcome) - intent.limitPrice - FeePerContract(intent.limitPrice, rate)) * 10000.0)
         <= intent.EdgeBps()
  {
    FeeBounds(intent.limitPrice, rate);
    var gross := intent.OutcomeProbability() - intent.limitPrice;
    TruncateMonotone((gross - FeePerContract(intent.limitPrice, rate)) * 10000.0, gross * 10000.0);
  }

  /** Whatever part of the target is bought stays within every per-order and per-market cap. */
  lemma CappedTargetFits(config: AppConfig, probability: real, portfolio: Portfolio, secondsToClose: Option<real>,
                         intent: Intent)
    requires config.Valid() && intent.count > 0
    requires intent.count <= Target(config, probability, portfolio.balanceCents, portfolio.marketExposureCents,
                                    secondsToClose, intent.outcome, intent.limitPrice)
    ensures FitsCaps(config.risk, portfolio, intent)
  {
    var target := Target(config, probability, portfolio.balanceCents, portfolio.marketExposureCents,
                         secondsToClose, intent.outcome, intent.limitPrice);
    IntProductMonotone(intent.count, target, PerContractCents(intent.limitPrice));
  }

  ghost predicate FitsCaps(risk: RiskConfig, portfolio: Portfolio, intent: Intent) {
    && 0 < intent.count <= risk.maxContractsPerOrder
    && intent.count * PerContractCents(intent.limitPrice) <= risk.maxOrderNotionalCents
    && intent.count * PerContractCents(intent.limitPrice) <= risk.maxMarketExposureCents - portfolio.marketExposureCents
  }

  lemma IntProductMonotone(x: int, y: int, factor: int)
    requires x <= y && factor >= 0
    ensures x * factor <= y * factor
  {
  }

  /** The reasons a sized buy can still be turned down for: none of them is a limit the sizer applied. */
  const AFTER_SIZING := {Approved, TotalExposureLimit, OpenOrders, Balance, KillSwitch, DailyLoss, Spread, Liquidity, Cooldown}

  /** A buy sized by the engine, at a whole-cent price, is never rejected for its count, its notional,
      the market's exposure, a closed market, its edge or its price. */
  lemma SizedBuyPassesItsGates(config: AppConfig, signal: Signal, quote: Quote, portfolio: Portfolio, held: Position,
                               clientOrderId: string, now: real, intent: Intent,
                               lastOrderAt: Option<real>, killSwitch: bool)
    requires config.Valid()
    requires Decide(config, signal, quote, portfolio, held, clientOrderId, now) == Trade(intent)
    requires intent.IsBuy() && WholeCents(intent.limitPrice)
    ensures Judge(intent, quote, portfolio, config, lastOrderAt, killSwitch, now) in AFTER_SIZING
  {
    IntentAnatomy(config, signal, quote, portfolio, held, clientOrderId, now, intent);
    CappedTargetFits(config, signal.fairProbability, portfolio, quote.SecondsToClose(now), intent);
    GrossEdgeCoversNet(intent, config.fees.RateFor(config.strategy.orderStyle));
    CapsPassGates(config, intent, quote, portfolio, lastOrderAt, killSwitch, now);
  }

  lemma CapsPassGates(config: AppConfig, intent: Intent, quote: Quote, portfolio: Portfolio,
                      lastOrderAt: Option<real>, killSwitch: bool, now: real)
    requires intent.IsBuy() && FitsCaps(config.risk, portfolio, intent) && quote.IsOpen()
    requires CENT <= intent.limitPrice <= MAX_PRICE && WholeCents(intent.limitPrice)
    requires intent.EdgeBps() >= config.strategy.minEdgeBps
    ensures Judge(intent, quote, portfolio, config, lastOrderAt, killSwitch, now) in AFTER_SIZING
  {
    NotionalBound(intent.count, intent.limitPrice);
  }

  /** A sell of the strategy can only be turned down by the kill switch. */
  lemma SellOnlyFailsOnKillSwitch(config: AppConfig, signal: Signal, quote: Quote, portfolio: Portfolio, held: Position,
                                  clientOrderId: string, now: real, intent: Intent,
                                  lastOrderAt: Option<real>, killSwitch: bool)
    requires config.Valid()
    requires Decide(config, signal, quote, portfolio, held, clientOrderId, now) == Trade(intent)
    requires !intent.IsBuy()
    ensures Judge(intent, quote, portfolio, config, lastOrderAt, killSwitch, now)
         == if killSwitch then KillSwitch else Approved
  {
    IntentAnatomy(config, signal, quote, portfolio, held, clientOrderId, now, intent);
  }

  /** At a sub-cent price the order loss may exceed the notional cap and the market room, by at most
      one cent a contract. */
  lemma SubCentOvershoot(config: AppConfig, signal: Signal, quote: Quote, portfolio: Portfolio, held: Position,
                         clientOrderId: string, now: real, intent: Intent)
    requires config.Valid()
    requires Decide(config, signal, quote, portfolio, held, clientOrderId, now) == Trade(intent)
    requires intent.IsBuy()
    ensures intent.MaxLossCents() <= config.risk.maxOrderNotionalCents + intent.count
    ensures portfolio.marketExposureCents + intent.MaxLossCents() <= config.risk.maxMarketExposureCents + intent.count
  {
    IntentAnatomy(config, signal, quote, portfolio, held, clientOrderId, now, intent);
    CappedTargetFits(config, signal.fairProbability, portfolio, quote.SecondsToClose(now), intent);
    CapsBoundLoss(config.risk, portfolio, intent);
  }

  lemma CapsBoundLoss(risk: RiskConfig, portfolio: Portfolio, intent: Intent)
    requires intent.IsBuy() && FitsCaps(risk, portfolio, intent) && intent.limitPrice >= CENT
    ensures intent.MaxLossCents() <= risk.maxOrderNotionalCents + intent.count
    ensures portfolio.marketExposureCents + intent.MaxLossCents() <= risk.maxMarketExposureCents + intent.count
  {
    NotionalBound(intent.count, intent.limitPrice);
  }

  /** The whole-cent hypothesis is needed: five contracts at 50.5 cents fit a 250-cent cap by the
      sizer's reckoning and cost 253 cents by the gate's. */
  lemma SubCentPriceIsRejected(portfolio: Portfolio, risk: RiskConfig, intent: Intent)
    requires risk.maxOrderNotionalCents == 250 && risk.maxContractsPerOrder >= 5
    requires risk.maxMarketExposureCents - portfolio.marketExposureCents >= 250
    requires intent.IsBuy() && intent.count == 5 && intent.limitPrice == 0.505
    ensures FitsCaps(risk, portfolio, intent) && !WholeCents(intent.limitPrice)
    ensures NumericGate(intent.count, intent.MaxLossCents(), portfolio, risk) == OrderNotional
  {
    assert intent.limitPrice * intent.count as real * 100.0 == 252.5;
    assert Floor(intent.limitPrice * 100.0) == 50;
  }
}
