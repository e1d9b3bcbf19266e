/** What an intent of the strategy says about signal, quote and account, in their own terms. */
module Intents {
  import opened Wrappers
  import opened Rounding
  import opened Domain
  import opened Config
  import opened Fees
  import opened Sizing
  import opened KellySize
  import opened Strategy
  import opened Risk

  /** The chance that the side pays, and what it is offered and bid at. */
  function Chance(signal: Signal, side: Outcome): real {
    if side == Yes then signal.fairProbability else 1.0 - signal.fairProbability
  }

  function AskOf(quote: Quote, side: Outcome): real {
    if side == Yes then quote.yesAsk else quote.noAsk
  }

  function BidOf(quote: Quote, side: Outcome): real {
    if side == Yes then quote.yesBid else quote.noBid
  }

  function ImprovementOf(config: StrategyConfig): real {
    config.priceImprovementCents as real / 100.0
  }

  /** The fee of one contract in the configured style. */
  function FeeOf(config: AppConfig, price: real): real {
    var rate := if config.strategy.orderStyle == Maker then config.fees.makerRate else config.fees.takerRate;
    if rate > 0.0 then rate * (price * (1.0 - price)) else 0.0
  }

  // ----- Prices ----------------------------------------------------------------------------------

  /** `price` is the smaller of the two, and of 99 cents. */
  predicate IsLeast(price: real, x: real, y: real) {
    price <= x && price <= y && price <= 0.99 && (price == x || price == y || price == 0.99)
  }

  predicate IsGreatest(price: real, x: real, y: real) {
    price >= x && price >= y && price >= 0.01 && (price == x || price == y || price == 0.01)
  }

  /** A taker bids the ask plus the improvement; a maker its own bid plus the improvement, but a cent below the
      ask; neither above 99 cents, and not at all below one. */
  lemma BuyPriceExactly(config: StrategyConfig, quote: Quote, side: Outcome, price: real)
    ensures BuyPrice(config, quote, side) == Some(price) <==>
      && price >= 0.01
      && (config.orderStyle == Taker ==> IsLeast(price, AskOf(quote, side) + ImprovementOf(config), 0.99))
      && (config.orderStyle == Maker ==> IsLeast(price, BidOf(quote, side) + ImprovementOf(config), AskOf(quote, side) - 0.01))
  {
  }

  /** A taker offers the bid less the improvement; a maker the ask less the improvement, but a cent above the
      bid; neither below one cent, and not at all above 99. */
  lemma SellPriceExactly(config: StrategyConfig, quote: Quote, side: Outcome, price: real)
    ensures SellPrice(config, quote, side) == Some(price) <==>
      && price <= 0.99
      && (config.orderStyle == Taker ==> IsGreatest(price, BidOf(quote, side) - ImprovementOf(config), 0.01))
      && (config.orderStyle == Maker ==> IsGreatest(price, AskOf(quote, side) - ImprovementOf(config), BidOf(quote, side) + 0.01))
  {
  }

  // ----- Targets ------------------------------------------------------------------------------------

  lemma FeeIs(config: AppConfig, price: real)
    ensures FeePerContract(price, config.fees.RateFor(config.strategy.orderStyle)) == FeeOf(config, price)
    ensures CostOf(price, config.fees.RateFor(config.strategy.orderStyle)) == price + FeeOf(config, price)
  {
  }

  /** Kelly, cap and hurdle allow `n` contracts of a side at a price on this balance. */
  ghost predicate SizedTo(config: AppConfig, chance: real, price: real, balanceCents: int, seconds: Option<real>, n: int) {
    var cost := price + FeeOf(config, price);
    && 0.0 < cost < 1.0 && cost < chance
    && ClearsHurdle(chance, cost, HoldingDays(seconds, config.sizing.defaultDaysToResolution), config.sizing)
    && Staked(n, chance, cost, balanceCents, config.sizing)
  }

  lemma SizedToExactly(config: AppConfig, chance: real, price: real, balanceCents: int, seconds: Option<real>, n: int)
    requires config.Valid() && n >= 1
    ensures SizePosition(chance, price, config.fees.RateFor(config.strategy.orderStyle), balanceCents, config.sizing, seconds).contracts >= n
       <==> SizedTo(config, chance, price, balanceCents, seconds, n)
  {
    FeeIs(config, price);
    SizeExactly(chance, price, config.fees.RateFor(config.strategy.orderStyle), balanceCents, config.sizing, seconds, n);
  }

  lemma CappedTo(config: AppConfig, probability: real, balanceCents: int, exposureCents: int, seconds: Option<real>,
                 side: Outcome, price: real, n: int)
    requires config.Valid() && n >= 1
    ensures Target(config, probability, balanceCents, exposureCents, seconds, side, price) >= n <==>
      && SizePosition(if side == Yes then probability else 1.0 - probability, price,
                      config.fees.RateFor(config.strategy.orderStyle), balanceCents, config.sizing, seconds).contracts >= n
      && RoomFor(n, price, config.risk.maxContractsPerOrder, config.risk.maxOrderNotionalCents,
                 config.risk.maxMarketExposureCents - exposureCents)
  {
    var sized := SizePosition(Fair(probability, side), price, config.fees.RateFor(config.strategy.orderStyle), balanceCents,
                              config.sizing, seconds).contracts;
    CapExactly(sized, price, config.risk.maxContractsPerOrder, config.risk.maxOrderNotionalCents,
               config.risk.maxMarketExposureCents - exposureCents, n);
  }

  /** Seconds until the market closes. */
  function SecondsLeft(quote: Quote, now: real): Option<real> {
    if quote.closeTime.None? then None else Some(quote.closeTime.value - now)
  }

  /** For every number of contracts: the engine aims at `n` or more exactly if Kelly, cap and hurdle allow it on
      the account's balance, and the per-order limits and the room left in the market hold it. */
  lemma TargetExactly(config: AppConfig, signal: Signal, quote: Quote, portfolio: Portfolio, now: real, side: Outcome, price: real, n: int)
    requires config.Valid() && n >= 1
    ensures SizerFor(config, signal, quote, portfolio, now)(side, price) >= n <==>
      && SizedTo(config, Chance(signal, side), price, portfolio.balanceCents, SecondsLeft(quote, now), n)
      && RoomFor(n, price, config.risk.maxContractsPerOrder, config.risk.maxOrderNotionalCents,
                 config.risk.maxMarketExposureCents - portfolio.marketExposureCents)
  {
    CappedTo(config, signal.fairProbability, portfolio.balanceCents, portfolio.marketExposureCents, SecondsLeft(quote, now), side, price, n);
    SizedToExactly(config, Chance(signal, side), price, portfolio.balanceCents, SecondsLeft(quote, now), n);
  }

  // ----- Intents ---------------------------------------------------------------------------------------

  /** Basis points truncated towards zero reach a threshold exactly if the edge does; a threshold of zero also
      accepts what truncates to zero. */
  predicate Reaches(edge: real, bps: int) {
    edge * 10000.0 >= bps as real || (bps == 0 && edge * 10000.0 > -1.0)
  }

  lemma ReachesExactly(edge: real, bps: int)
    requires bps >= 0
    ensures Truncate(edge * 10000.0) >= bps <==> Reaches(edge, bps)
  {
  }

  /** A fresh enough signal about an open market, not dated in the future, within the confidence bounds. */
  predicate Usable(config: StrategyConfig, signal: Signal, quote: Quote) {
    && signal.ticker == quote.ticker
    && (quote.status == "open" || quote.status == "active")
    && -5.0 <= quote.observedAt - signal.generatedAt <= config.maxSignalAgeSeconds as real
    && config.minProbability <= signal.fairProbability <= config.maxProbability
  }

  lemma UsableExactly(config: StrategyConfig, signal: Signal, quote: Quote)
    ensures Screen(config, signal, quote).None? <==> Usable(config, signal, quote)
  {
  }

  /** The price clears fair value by the exit edge after fees. */
  predicate WorthSelling(config: AppConfig, signal: Signal, side: Outcome, price: real) {
    Reaches(price - FeeOf(config, price) - Chance(signal, side), config.strategy.exitEdgeBps)
  }

  /** Fair value clears the price by the entry edge after fees. */
  predicate WorthBuying(config: AppConfig, signal: Signal, side: Outcome, price: real) {
    Reaches(Chance(signal, side) - price - FeeOf(config, price), config.strategy.minEdgeBps)
  }

  lemma WorthSellingExactly(config: AppConfig, signal: Signal, side: Outcome, price: real)
    requires config.Valid()
    ensures SellEdgeBps(config.strategy, config.fees, signal.fairProbability, side, price) >= config.strategy.exitEdgeBps
       <==> WorthSelling(config, signal, side, price)
  {
    FeeIs(config, price);
    ReachesExactly(price - FeeOf(config, price) - Chance(signal, side), config.strategy.exitEdgeBps);
  }

  lemma WorthBuyingExactly(config: AppConfig, signal: Signal, side: Outcome, price: real)
    requires config.Valid()
    ensures BuyEdgeBps(config.strategy, config.fees, signal.fairProbability, side, price) >= config.strategy.minEdgeBps
       <==> WorthBuying(config, signal, side, price)
  {
    FeeIs(config, price);
    ReachesExactly(Chance(signal, side) - price - FeeOf(config, price), config.strategy.minEdgeBps);
  }

  /** The position's side is worth selling at the price a sale would ask. */
  ghost predicate MustExit(config: AppConfig, signal: Signal, quote: Quote, held: Position) {
    && held.outcome.Some? && held.count > 0
    && exists price :: SellPrice(config.strategy, quote, held.outcome.value) == Some(price)
                       && WorthSelling(config, signal, held.outcome.value, price)
  }

  /** The engine sells exactly if the signal is usable and the held side is worth selling; it then sells the
      whole position, up to one order. */
  lemma SellsExactly(config: AppConfig, signal: Signal, quote: Quote, portfolio: Portfolio, held: Position, id: string, now: real)
    requires config.Valid()
    ensures var decision := Decide(config, signal, quote, portfolio, held, id, now);
      && (decision.Trade? && decision.intent.action == Sell <==> Usable(config.strategy, signal, quote) && MustExit(config, signal, quote, held))
      && (decision.Trade? && decision.intent.action == Sell ==>
            && held.outcome == Some(decision.intent.outcome)
            && decision.intent.count == (if held.count < config.risk.maxContractsPerOrder then held.count else config.risk.maxContractsPerOrder)
            && SellPrice(config.strategy, quote, decision.intent.outcome) == Some(decision.intent.limitPrice))
  {
    UsableExactly(config.strategy, signal, quote);
    if held.outcome.Some? && held.count > 0 && SellPrice(config.strategy, quote, held.outcome.value).Some? {
      WorthSellingExactly(config, signal, held.outcome.value, SellPrice(config.strategy, quote, held.outcome.value).value);
    }
  }

  /** A buy comes from a usable signal with nothing to exit, on a side worth buying whose opposite is not held,
      and tops the holding up to the engine's target. */
  lemma BuyOnTheRecord(config: AppConfig, signal: Signal, quote: Quote, portfolio: Portfolio, held: Position, id: string, now: real, intent: Intent)
    requires config.Valid() && Decide(config, signal, quote, portfolio, held, id, now) == Trade(intent) && intent.action == Buy
    ensures Usable(config.strategy, signal, quote) && !MustExit(config, signal, quote, held)
    ensures BuyPrice(config.strategy, quote, intent.outcome) == Some(intent.limitPrice)
    ensures WorthBuying(config, signal, intent.outcome, intent.limitPrice)
    ensures held.outcome.Some? && held.count > 0 ==> held.outcome.value == intent.outcome
    ensures intent.count >= 1
    ensures SizerFor(config, signal, quote, portfolio, now)(intent.outcome, intent.limitPrice)
         == intent.count + if held.outcome.Some? && held.count > 0 then held.count else 0
    ensures intent.ticker == signal.ticker && intent.clientOrderId == id && intent.style == config.strategy.orderStyle
  {
    SellsExactly(config, signal, quote, portfolio, held, id, now);
    UsableExactly(config.strategy, signal, quote);
    WorthBuyingExactly(config, signal, intent.outcome, intent.limitPrice);
  }

  /** The edge of buying, in truncated basis points. */
  function EntryEdge(config: AppConfig, signal: Signal, side: Outcome, price: real): int {
    Truncate((Chance(signal, side) - price - FeeOf(config, price)) * 10000.0)
  }

  /** The side that has a price and the most edge; YES on a tie. */
  ghost predicate BestSide(config: AppConfig, signal: Signal, quote: Quote, side: Outcome, price: real) {
    && BuyPrice(config.strategy, quote, side) == Some(price)
    && forall other: real :: BuyPrice(config.strategy, quote, side.Opposite()) == Some(other) ==>
         if side == Yes then EntryEdge(config, signal, No, other) <= EntryEdge(config, signal, Yes, price)
         else EntryEdge(config, signal, Yes, other) < EntryEdge(config, signal, No, price)
  }

  lemma EdgeIs(config: AppConfig, signal: Signal, side: Outcome, price: real)
    ensures BuyEdgeBps(config.strategy, config.fees, signal.fairProbability, side, price) == EntryEdge(config, signal, side, price)
  {
    FeeIs(config, price);
  }

  lemma BestCandidateExactly(config: AppConfig, signal: Signal, quote: Quote, side: Outcome, price: real)
    ensures BestSide(config, signal, quote, side, price) <==>
      BestCandidate(config.strategy, config.fees, signal.fairProbability, quote)
      == Some(Candidate(side, price, EntryEdge(config, signal, side, price)))
  {
    if BuyPrice(config.strategy, quote, Yes).Some? {
      EdgeIs(config, signal, Yes, BuyPrice(config.strategy, quote, Yes).value);
    }
    if BuyPrice(config.strategy, quote, No).Some? {
      EdgeIs(config, signal, No, BuyPrice(config.strategy, quote, No).value);
    }
  }

  /** What the position holds of one side. */
  function HeldOf(held: Position, side: Outcome): int {
    if held.outcome == Some(side) && held.count > 0 then held.count else 0
  }

  /** The engine buys `count` contracts of a side exactly if the signal is usable, nothing is to be sold, the side
      is the best one and worth buying, its opposite is not held, and `count` is what the target exceeds the
      holding by. */
  lemma BuysExactly(config: AppConfig, signal: Signal, quote: Quote, portfolio: Portfolio, held: Position, id: string, now: real,
                    side: Outcome, price: real, count: int)
    requires config.Valid()
    ensures Decide(config, signal, quote, portfolio, held, id, now)
            == Trade(Intent(id, signal.ticker, side, count, price, signal.fairProbability, Buy, config.strategy.orderStyle))
       <==>
         && Usable(config.strategy, signal, quote) && !MustExit(config, signal, quote, held)
         && BestSide(config, signal, quote, side, price) && WorthBuying(config, signal, side, price)
         && HeldOf(held, side.Opposite()) == 0
         && count >= 1 && SizerFor(config, signal, quote, portfolio, now)(side, price) == HeldOf(held, side) + count
  {
    SellsExactly(config, signal, quote, portfolio, held, id, now);
    UsableExactly(config.strategy, signal, quote);
    BestCandidateExactly(config, signal, quote, side, price);
    EdgeIs(config, signal, side, price);
    WorthBuyingExactly(config, signal, side, price);
    ExitOrEntry(config, signal, quote, portfolio, held, id, now);
    EntryExactly(config, signal, quote, held, SizerFor(config, signal, quote, portfolio, now), id, side, price, count);
  }

  lemma ExitOrEntry(config: AppConfig, signal: Signal, quote: Quote, portfolio: Portfolio, held: Position, id: string, now: real)
    requires config.Valid()
    ensures var decision := Decide(config, signal, quote, portfolio, held, id, now);
      && (decision.Trade? ==> Usable(config.strategy, signal, quote))
      && (Usable(config.strategy, signal, quote) && !MustExit(config, signal, quote, held) ==>
            decision == Entry(config.strategy, config.fees, signal, quote, held, SizerFor(config, signal, quote, portfolio, now), id))
  {
    UsableExactly(config.strategy, signal, quote);
    SellsExactly(config, signal, quote, portfolio, held, id, now);
  }

  lemma EntryExactly(config: AppConfig, signal: Signal, quote: Quote, held: Position, sizer: Sizer, id: string,
                     side: Outcome, price: real, count: int)
    ensures Entry(config.strategy, config.fees, signal, quote, held, sizer, id)
            == Trade(Intent(id, signal.ticker, side, count, price, signal.fairProbability, Buy, config.strategy.orderStyle))
       <==>
         && BestCandidate(config.strategy, config.fees, signal.fairProbability, quote).Some?
         && var best := BestCandidate(config.strategy, config.fees, signal.fairProbability, quote).value;
           && best.outcome == side && best.price == price && best.netEdgeBps >= config.strategy.minEdgeBps
           && HeldOf(held, side.Opposite()) == 0
           && count >= 1 && sizer(side, price) == HeldOf(held, side) + count
  {
  }
}
