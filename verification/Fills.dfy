/** How conservative the paper broker's fills are. */
module Fills {
  import opened Wrappers
  import opened Rounding
  import opened RealArithmetic
  import opened Domain
  import opened Config
  import opened Fees
  import opened Strategy
  import opened Ledger
  import opened Broker
  import opened Engine
  import opened Risk
  import opened PaperSteps
  import opened PaperInvariants

  /** The price is at the touch or on the broker's side of it. */
  predicate Conservative(paper: PaperConfig, intent: Intent, quote: Quote) {
    if intent.IsBuy() then TakerPrice(paper, intent, quote) >= quote.Ask(intent.outcome)
    else TakerPrice(paper, intent, quote) <= quote.Bid(intent.outcome)
  }

  /** The clamp to [0.01, 0.99] makes a fill better than the touch exactly when the touch is beyond it. */
  lemma ConservativeExactly(paper: PaperConfig, intent: Intent, quote: Quote)
    requires paper.slippageCents >= 0
    ensures Conservative(paper, intent, quote) <==>
      if intent.IsBuy() then quote.Ask(intent.outcome) <= MAX_PRICE else quote.Bid(intent.outcome) >= CENT
  {
  }

  /** The same contracts bought and sold back at one quote. */
  ghost predicate RoundTrip(buy: Intent, sell: Intent) {
    && buy.IsBuy() && !sell.IsBuy()
    && buy.ticker == sell.ticker && buy.outcome == sell.outcome
    && buy.count == sell.count && buy.count > 0
  }

  /** Slippage, or the clamp, keeps the price of a sale at or below that of a buy. */
  predicate PricesInOrder(paper: PaperConfig, quote: Quote, side: Outcome) {
    quote.Bid(side) - Slip(paper) <= MAX_PRICE && quote.Ask(side) + Slip(paper) >= CENT
  }

  lemma SalePriceBelowBuyExactly(paper: PaperConfig, buy: Intent, sell: Intent, quote: Quote)
    requires RoundTrip(buy, sell) && paper.slippageCents >= 0
    requires quote.Bid(buy.outcome) <= quote.Ask(buy.outcome)
    ensures TakerPrice(paper, sell, quote) <= TakerPrice(paper, buy, quote) <==> PricesInOrder(paper, quote, buy.outcome)
    ensures CENT <= TakerPrice(paper, sell, quote) && TakerPrice(paper, buy, quote) <= MAX_PRICE
  {
  }

  /** With a cent of slippage the prices of every quote in [0, 1] are in order. */
  lemma SlippageSuffices(paper: PaperConfig, quote: Quote, side: Outcome)
    requires SaneQuote(quote) && paper.slippageCents >= 1
    ensures PricesInOrder(paper, quote, side)
  {
    assert 0.0 <= quote.Bid(side) <= 1.0 && 0.0 <= quote.Ask(side) <= 1.0;
  }

  lemma ProceedsBelowCost(fees: FeeConfig, buy: Intent, sell: Intent, ask: real, bid: real)
    requires RoundTrip(buy, sell) && 0.0 <= bid <= ask <= 1.0
    requires fees.takerRate >= 0.0 && fees.makerRate >= 0.0
    ensures SaleProceeds(sell, bid, FillFee(fees, sell, bid)) <= FillCost(buy, ask, FillFee(fees, buy, ask))
  {
    CostNonNegative(fees, buy, ask);
    CostNonNegative(fees, sell, bid);
    ProceedsAfterFees(buy, sell, ask, bid, FillFee(fees, buy, ask), FillFee(fees, sell, bid));
  }

  lemma ProceedsAfterFees(buy: Intent, sell: Intent, ask: real, bid: real, paid: int, charged: int)
    requires RoundTrip(buy, sell) && bid <= ask && paid >= 0 && charged >= 0
    ensures SaleProceeds(sell, bid, charged) <= FillCost(buy, ask, paid)
  {
    RoundedApart(bid, ask, buy.count as real);
  }

  lemma RoundedApart(bid: real, ask: real, n: real)
    requires bid <= ask && n >= 0.0
    ensures Floor(bid * n * 100.0) <= CentsUp(ask * n)
  {
    ProductMonotone(bid, ask, n);
  }

  /** The books after buying and after selling back. */
  ghost function SoldBack(paper: PaperConfig, fees: FeeConfig, b: Books, buy: Intent, sell: Intent, quote: Quote): Result<Books, StateError> {
    match Applied(fees, b, buy, TakerPrice(paper, buy, quote))
    case Err(e) => Err(e)
    case Ok(held) => Applied(fees, held, sell, TakerPrice(paper, sell, quote))
  }

  predicate ValidRates(fees: FeeConfig) {
    0.0 <= fees.takerRate < 1.0 && 0.0 <= fees.makerRate < 1.0
  }

  /** Whatever was paid can be sold again, for the difference of proceeds and cost. */
  lemma SoldBackIs(fees: FeeConfig, b: Books, buy: Intent, sell: Intent, ask: real, bid: real)
    requires RoundTrip(buy, sell) && LotOf(b.positions, (buy.ticker, buy.outcome)).count >= 0
    requires Applied(fees, b, buy, ask).Ok?
    ensures var sold := Applied(fees, Applied(fees, b, buy, ask).value, sell, bid);
      && sold.Ok?
      && sold.value.balanceCents == b.balanceCents - FillCost(buy, ask, FillFee(fees, buy, ask))
                                    + SaleProceeds(sell, bid, FillFee(fees, sell, bid))
      && LotOf(sold.value.positions, (buy.ticker, buy.outcome)).count == LotOf(b.positions, (buy.ticker, buy.outcome)).count
  {
  }

  /** Buying and selling back at one uncrossed quote whose prices are in order never leaves more cash than
      before, whatever is already held: slippage, fees and both roundings go against the trader. A market
      that was flat ends flat, and the loss is realized to the cent. */
  lemma RoundTripNeverProfits(paper: PaperConfig, fees: FeeConfig, b: Books, buy: Intent, sell: Intent, quote: Quote)
    requires paper.slippageCents >= 0 && ValidRates(fees) && RoundTrip(buy, sell)
    requires quote.Bid(buy.outcome) <= quote.Ask(buy.outcome) && PricesInOrder(paper, quote, buy.outcome)
    requires LotOf(b.positions, (buy.ticker, buy.outcome)).count >= 0
    requires Applied(fees, b, buy, TakerPrice(paper, buy, quote)).Ok?
    ensures var sold := SoldBack(paper, fees, b, buy, sell, quote);
      && sold.Ok?
      && sold.value.balanceCents <= b.balanceCents
      && LotOf(sold.value.positions, (buy.ticker, buy.outcome)).count == LotOf(b.positions, (buy.ticker, buy.outcome)).count
      && ((buy.ticker, buy.outcome) !in b.positions ==>
            && sold.value.positions == b.positions
            && sold.value.realizedCents - b.realizedCents == sold.value.balanceCents - b.balanceCents)
  {
    var ask, bid := TakerPrice(paper, buy, quote), TakerPrice(paper, sell, quote);
    SalePriceBelowBuyExactly(paper, buy, sell, quote);
    ProceedsBelowCost(fees, buy, sell, ask, bid);
    SoldBackIs(fees, b, buy, sell, ask, bid);
    if (buy.ticker, buy.outcome) !in b.positions {
      FlatEndsFlat(fees, b, buy, sell, ask, bid);
    }
  }

  lemma FlatEndsFlat(fees: FeeConfig, b: Books, buy: Intent, sell: Intent, ask: real, bid: real)
    requires RoundTrip(buy, sell) && (buy.ticker, buy.outcome) !in b.positions
    requires Applied(fees, b, buy, ask).Ok?
    ensures var sold := Applied(fees, Applied(fees, b, buy, ask).value, sell, bid);
      && sold.Ok?
      && sold.value.positions == b.positions
      && sold.value.realizedCents - b.realizedCents == sold.value.balanceCents - b.balanceCents
  {
    var key := (buy.ticker, buy.outcome);
    var cost := FillCost(buy, ask, FillFee(fees, buy, ask));
    var held := Applied(fees, b, buy, ask).value;
    assert held.positions[key] == Lot(buy.count, cost);
    WholeLotReleased(held.positions[key]);
    assert held.positions - {key} == b.positions;
  }

  // ----- When a round trip can profit --------------------------------------------------------------

  /** At this quote no account, at any fee rates, ends a round trip with more cash. */
  ghost predicate NeverProfits(paper: PaperConfig, quote: Quote, side: Outcome) {
    forall fees: FeeConfig, b: Books, buy: Intent, sell: Intent ::
      ValidRates(fees) && RoundTrip(buy, sell) && buy.outcome == side
      && LotOf(b.positions, (buy.ticker, side)).count >= 0
      && SoldBack(paper, fees, b, buy, sell, quote).Ok? ==>
        SoldBack(paper, fees, b, buy, sell, quote).value.balanceCents <= b.balanceCents
  }

  /** Enough contracts turn any gap between two prices into two cents. */
  lemma EnoughContracts(gap: real) returns (n: int)
    requires gap > 0.0
    ensures n > 0 && gap * n as real * 100.0 >= 2.0
  {
    var needed := 1.0 / gap;
    Quotient(1.0, gap, needed);
    n := Ceiling(needed) + 1;
    ProductPositive(needed, gap, 1.0);
    ProductMonotone(needed, n as real, gap);
  }

  lemma FreeFees(n: int, price: real)
    ensures OrderFeeCents(n, price, 0.0) == 0
  {
  }

  lemma GapPays(bid: real, ask: real, n: int)
    requires (bid - ask) * n as real * 100.0 >= 2.0
    ensures Floor(bid * n as real * 100.0) > CentsUp(ask * n as real)
  {
    var low, high := ask * n as real * 100.0, bid * n as real * 100.0;
    assert (bid - ask) * n as real * 100.0 == high - low;
  }

  /** Where the prices are out of order a large enough round trip without fees profits. */
  lemma OutOfOrderProfits(paper: PaperConfig, quote: Quote, side: Outcome) returns (b: Books, buy: Intent, sell: Intent)
    requires paper.slippageCents >= 0 && quote.Bid(side) <= quote.Ask(side) && !PricesInOrder(paper, quote, side)
    ensures RoundTrip(buy, sell) && buy.outcome == side && b.positions == map[]
    ensures var sold := SoldBack(paper, FeeConfig(0.0, 0.0), b, buy, sell, quote);
      sold.Ok? && sold.value.balanceCents > b.balanceCents
  {
    var one := Intent("", "", side, 1, 0.0, 0.0, Buy, Taker);
    var ask, bid := TakerPrice(paper, one, quote), TakerPrice(paper, one.(action := Sell), quote);
    SalePriceBelowBuyExactly(paper, one, one.(action := Sell), quote);
    var n := EnoughContracts(bid - ask);
    buy := one.(count := n);
    sell := buy.(action := Sell);
    b := Books([], FillCost(buy, ask, 0), 0, map[]);
    FreeTripGains(b, buy, sell, ask, bid);
  }

  lemma FreeTripGains(b: Books, buy: Intent, sell: Intent, ask: real, bid: real)
    requires RoundTrip(buy, sell) && (bid - ask) * buy.count as real * 100.0 >= 2.0
    requires b == Books([], FillCost(buy, ask, 0), 0, map[])
    ensures var fees := FeeConfig(0.0, 0.0);
      && Applied(fees, b, buy, ask).Ok?
      && Applied(fees, Applied(fees, b, buy, ask).value, sell, bid).Ok?
      && Applied(fees, Applied(fees, b, buy, ask).value, sell, bid).value.balanceCents > b.balanceCents
  {
    FreeFees(buy.count, ask);
    FreeFees(buy.count, bid);
    GapPays(bid, ask, buy.count);
    SoldBackIs(FeeConfig(0.0, 0.0), b, buy, sell, ask, bid);
  }

  /** For every uncrossed quote: no round trip there ever profits if and only if the prices are in order. */
  lemma NeverProfitsExactly(paper: PaperConfig, quote: Quote, side: Outcome)
    requires paper.slippageCents >= 0 && quote.Bid(side) <= quote.Ask(side)
    ensures NeverProfits(paper, quote, side) <==> PricesInOrder(paper, quote, side)
  {
    if PricesInOrder(paper, quote, side) {
      forall fees: FeeConfig, b: Books, buy: Intent, sell: Intent
        | ValidRates(fees) && RoundTrip(buy, sell) && buy.outcome == side
          && LotOf(b.positions, (buy.ticker, side)).count >= 0
          && SoldBack(paper, fees, b, buy, sell, quote).Ok?
        ensures SoldBack(paper, fees, b, buy, sell, quote).value.balanceCents <= b.balanceCents
      {
        RoundTripNeverProfits(paper, fees, b, buy, sell, quote);
      }
    } else {
      var b, buy, sell := OutOfOrderProfits(paper, quote, side);
      assert ValidRates(FeeConfig(0.0, 0.0));
    }
  }

  /** Without slippage or fees, a hundred contracts at a bid and ask of 99.5 cents gain 50 cents. */
  lemma NearDollarRoundTripGains(b: Books, buy: Intent, sell: Intent, quote: Quote)
    requires RoundTrip(buy, sell) && buy.count == 100
    requires quote.Bid(buy.outcome) == 0.995 && quote.Ask(buy.outcome) == 0.995
    requires b.balanceCents >= 9900 && LotOf(b.positions, (buy.ticker, buy.outcome)).count >= 0
    ensures var sold := SoldBack(PaperConfig(1, 0), FeeConfig(0.0, 0.0), b, buy, sell, quote);
      sold.Ok? && sold.value.balanceCents == b.balanceCents + 50
  {
    FreeFees(100, 0.99);
    FreeFees(100, 0.995);
    assert FillCost(buy, 0.99, 0) == 9900;
    assert SaleProceeds(sell, 0.995, 0) == 9950;
    SoldBackIs(FeeConfig(0.0, 0.0), b, buy, sell, 0.99, 0.995);
  }

  /** A maker price of the strategy is strictly inside the spread, so the broker never rejects it for
      crossing: every approved maker order comes to rest. */
  lemma MakersComeToRest(config: AppConfig, b: Books, input: Input, intent: Intent)
    requires config.Valid() && config.strategy.orderStyle.Maker?
    requires Proposal(config, b, input) == Trade(intent)
    ensures intent.style.Maker? && !Touched(intent, input.quote)
    ensures Place(config, b, intent, input.quote) == (b, Unexecuted(intent, Resting))
  {
    var ticker := input.quote.ticker;
    IntentAnatomy(config, input.signal, input.quote, Snapshot(b, ticker), PaperPosition(b.positions, ticker),
                  input.clientOrderId, input.now, intent);
    MakerPriceInside(config.strategy, input.quote, intent.outcome);
  }

  lemma MakerPriceInside(config: StrategyConfig, quote: Quote, side: Outcome)
    requires config.orderStyle.Maker?
    ensures BuyPrice(config, quote, side).Some? ==> BuyPrice(config, quote, side).value < quote.Ask(side)
    ensures SellPrice(config, quote, side).Some? ==> SellPrice(config, quote, side).value > quote.Bid(side)
  {
  }
}
