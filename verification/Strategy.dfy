/** The trading rule: exit what is overpriced, otherwise enter or top up the better side. */
module Strategy {
  import opened Wrappers
  import opened Rounding
  import opened Domain
  import opened Config
  import opened Fees

  const MAX_PRICE := 0.99
  const MIN_PRICE := CENT

  datatype Skip =
    | TickerMismatch
    | MarketNotOpen
    | StaleSignal
    | FutureSignal
    | ProbabilityOutOfBounds
    | NoEntryPrice
    | EdgeBelowThreshold
    | HoldingOpposite
    | SizedToZero
    | TargetHeld

  datatype Decision = Trade(intent: Intent) | NoTrade(reason: Skip)

  type Sizer = (Outcome, real) -> int

  /** The side an entry would take, its limit price, and its edge after fees. */
  datatype Candidate = Candidate(outcome: Outcome, price: real, netEdgeBps: int)

  function Fair(probability: real, outcome: Outcome): real {
    if outcome.Yes? then probability else 1.0 - probability
  }

  function Improvement(config: StrategyConfig): real {
    CENT * config.priceImprovementCents as real
  }

  function Lower(x: real, y: real): real {
    if y < x then y else x
  }

  function Higher(x: real, y: real): real {
    if x < y then y else x
  }

  function BuyPrice(config: StrategyConfig, quote: Quote, outcome: Outcome): (price: Option<real>)
    ensures price.Some? ==> MIN_PRICE <= price.value <= MAX_PRICE
  {
    var raw :=
      if config.orderStyle.Maker? then Lower(quote.Bid(outcome) + Improvement(config), quote.Ask(outcome) - CENT)
      else quote.Ask(outcome) + Improvement(config);
    var price := Lower(MAX_PRICE, raw);
    if price >= MIN_PRICE then Some(price) else None
  }

  function SellPrice(config: StrategyConfig, quote: Quote, outcome: Outcome): (price: Option<real>)
    ensures price.Some? ==> MIN_PRICE <= price.value <= MAX_PRICE
  {
    var raw :=
      if config.orderStyle.Maker? then Higher(quote.Ask(outcome) - Improvement(config), quote.Bid(outcome) + CENT)
      else quote.Bid(outcome) - Improvement(config);
    var price := Higher(MIN_PRICE, raw);
    if price <= MAX_PRICE then Some(price) else None
  }

  function BuyEdgeBps(config: StrategyConfig, fees: FeeConfig, probability: real, outcome: Outcome, price: real): int {
    Truncate((Fair(probability, outcome) - price - FeePerContract(price, fees.RateFor(config.orderStyle))) * 10000.0)
  }

  function SellEdgeBps(config: StrategyConfig, fees: FeeConfig, probability: real, outcome: Outcome, price: real): int {
    Truncate((price - FeePerContract(price, fees.RateFor(config.orderStyle)) - Fair(probability, outcome)) * 10000.0)
  }

  function CandidateFor(config: StrategyConfig, fees: FeeConfig, probability: real, quote: Quote, outcome: Outcome): Option<Candidate> {
    match BuyPrice(config, quote, outcome)
    case None => None
    case Some(price) => Some(Candidate(outcome, price, BuyEdgeBps(config, fees, probability, outcome, price)))
  }

  /** The better of the two sides; a tie goes to YES. */
  function BestCandidate(config: StrategyConfig, fees: FeeConfig, probability: real, quote: Quote): Option<Candidate> {
    var yes := CandidateFor(config, fees, probability, quote, Yes);
    var no := CandidateFor(config, fees, probability, quote, No);
    if yes.None? then no
    else if no.Some? && no.value.netEdgeBps > yes.value.netEdgeBps then no
    else yes
  }

  /** The loop of `_entry` over the two outcomes. */
  method ChooseSide(config: StrategyConfig, fees: FeeConfig, probability: real, quote: Quote) returns (best: Option<Candidate>)
    ensures best == BestCandidate(config, fees, probability, quote)
    ensures best.None? <==> BuyPrice(config, quote, Yes).None? && BuyPrice(config, quote, No).None?
    ensures best.Some? ==> forall side :: BuyPrice(config, quote, side).Some? ==>
      BuyEdgeBps(config, fees, probability, side, BuyPrice(config, quote, side).value) <= best.value.netEdgeBps
  {
    var sides := [Yes, No];
    best := None;
    for i := 0 to |sides|
      invariant i == 0 ==> best == None
      invariant i == 1 ==> best == CandidateFor(config, fees, probability, quote, Yes)
      invariant i == 2 ==> best == BestCandidate(config, fees, probability, quote)
    {
      var price := BuyPrice(config, quote, sides[i]);
      if price.Some? {
        var edge := BuyEdgeBps(config, fees, probability, sides[i], price.value);
        if best.None? || edge > best.value.netEdgeBps {
          best := Some(Candidate(sides[i], price.value, edge));
        }
      }
    }
  }

  function NewIntent(config: StrategyConfig, signal: Signal, clientOrderId: string, outcome: Outcome, count: int,
                     price: real, action: Action): Intent {
    Intent(clientOrderId, signal.ticker, outcome, count, price, signal.fairProbability, action, config.orderStyle)
  }

  /** Sells a held side once its bid clears fair value by the exit edge after fees. */
  function Exit(config: StrategyConfig, fees: FeeConfig, signal: Signal, quote: Quote, held: Position,
                maxOrderCount: int, clientOrderId: string): Option<Intent> {
    if held.IsFlat() then None
    else
      var side := held.outcome.value;
      match SellPrice(config, quote, side)
      case None => None
      case Some(price) =>
        if SellEdgeBps(config, fees, signal.fairProbability, side, price) < config.exitEdgeBps then None
        else
          var count := if maxOrderCount < held.count then maxOrderCount else held.count;
          Some(NewIntent(config, signal, clientOrderId, side, count, price, Sell))
  }

  function Entry(config: StrategyConfig, fees: FeeConfig, signal: Signal, quote: Quote, held: Position,
                 sizer: Sizer, clientOrderId: string): Decision {
    match BestCandidate(config, fees, signal.fairProbability, quote)
    case None => NoTrade(NoEntryPrice)
    case Some(best) =>
      if best.netEdgeBps < config.minEdgeBps then NoTrade(EdgeBelowThreshold)
      else if held.Held(best.outcome.Opposite()) > 0 then NoTrade(HoldingOpposite)
      else
        var target := sizer(best.outcome, best.price);
        if target <= 0 then NoTrade(SizedToZero)
        else
          var remaining := target - held.Held(best.outcome);
          if remaining <= 0 then NoTrade(TargetHeld)
          else Trade(NewIntent(config, signal, clientOrderId, best.outcome, remaining, best.price, Buy))
  }

  function Screen(config: StrategyConfig, signal: Signal, quote: Quote): Option<Skip> {
    var age := quote.observedAt - signal.generatedAt;
    if signal.ticker != quote.ticker then Some(TickerMismatch)
    else if !quote.IsOpen() then Some(MarketNotOpen)
    else if age > config.maxSignalAgeSeconds as real then Some(StaleSignal)
    else if age < -5.0 then Some(FutureSignal)
    else if !(config.minProbability <= signal.fairProbability <= config.maxProbability) then Some(ProbabilityOutOfBounds)
    else None
  }

  function Evaluate(config: StrategyConfig, fees: FeeConfig, signal: Signal, quote: Quote, held: Position,
                    maxOrderCount: int, sizer: Sizer, clientOrderId: string): Decision {
    match Screen(config, signal, quote)
    case Some(reason) => NoTrade(reason)
    case None =>
      match Exit(config, fees, signal, quote, held, maxOrderCount, clientOrderId)
      case Some(intent) => Trade(intent)
      case None => Entry(config, fees, signal, quote, held, sizer, clientOrderId)
  }

  // ----- The two sides of the edge ------------------------------------------------

  /** On an uncrossed quote a taker never sells a side above the price it would buy it at. */
  lemma SellNotAboveBuy(config: StrategyConfig, quote: Quote, outcome: Outcome)
    requires config.orderStyle.Taker? && config.priceImprovementCents >= 0 && quote.Uncrossed()
    requires SellPrice(config, quote, outcome).Some? && BuyPrice(config, quote, outcome).Some?
    ensures SellPrice(config, quote, outcome).value <= BuyPrice(config, quote, outcome).value
  {
  }

  /** A side worth buying after fees is never at once worth selling: no churning on a frozen quote. */
  lemma NoSellAndBuy(config: StrategyConfig, fees: FeeConfig, probability: real, quote: Quote, outcome: Outcome)
    requires config.orderStyle.Taker? && config.priceImprovementCents >= 0 && quote.Uncrossed()
    requires config.minEdgeBps > 0 && config.exitEdgeBps >= 0 && 0.0 <= fees.takerRate < 1.0
    requires SellPrice(config, quote, outcome).Some? && BuyPrice(config, quote, outcome).Some?
    requires BuyEdgeBps(config, fees, probability, outcome, BuyPrice(config, quote, outcome).value) >= config.minEdgeBps
    ensures SellEdgeBps(config, fees, probability, outcome, SellPrice(config, quote, outcome).value) < config.exitEdgeBps
  {
    var sell, buy := SellPrice(config, quote, outcome).value, BuyPrice(config, quote, outcome).value;
    SellNotAboveBuy(config, quote, outcome);
    FeeBounds(sell, fees.takerRate);
    FeeBounds(buy, fees.takerRate);
  }
}
