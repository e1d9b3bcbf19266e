/** On a frozen book and signal the paper machine comes to rest: it drains what it should sell, tops up
    at most once, and then trades no more. */
module PaperProgress {
  import opened Wrappers
  import opened Domain
  import opened Config
  import opened Fees
  import opened Sizing
  import opened Strategy
  import opened Risk
  import opened Ledger
  import opened Broker
  import opened Engine
  import opened PaperSteps
  import opened Runs
  import opened PaperPaths
  import opened PaperInvariants
  import opened PaperLimits

  // ----- One cycle when nothing can rest -----------------------------------------------

  function FilledFlag(): Row -> int {
    (row: Row) => if row.status == Filled then 1 else 0
  }

  function FilledCount(b: Books): int {
    Sum(b.journal, FilledFlag())
  }

  lemma {:induction false} NothingRests(journal: seq<Row>, ticker: string)
    requires forall i :: 0 <= i < |journal| ==> journal[i].status != Resting
    ensures RestingIntents(journal, ticker) == []
  {
    if journal != [] {
      NothingRests(journal[..|journal| - 1], ticker);
    }
  }

  lemma AppliedIgnoresJournal(fees: FeeConfig, b: Books, journal: seq<Row>, intent: Intent, price: real)
    ensures Applied(fees, b, intent, price).Ok? <==> Applied(fees, b.(journal := journal), intent, price).Ok?
    ensures Applied(fees, b, intent, price).Ok? ==>
      SameLedger(Applied(fees, b, intent, price).value, Applied(fees, b.(journal := journal), intent, price).value)
  {
  }

  /** `after` is `b` with the fill of `intent` applied. */
  ghost predicate FillsOnce(config: AppConfig, b: Books, after: Books, intent: Intent, price: real) {
    && 0.0 <= price <= 1.0
    && (intent.IsBuy() ==> price <= intent.limitPrice)
    && Applied(config.fees, b, intent, price).Ok?
    && SameLedger(Applied(config.fees, b, intent, price).value, after)
    && FilledCount(after) == FilledCount(b) + 1
  }

  ghost predicate FillsNothing(b: Books, after: Books) {
    SameLedger(b, after) && FilledCount(after) == FilledCount(b)
  }

  /** An approved intent that cannot rest either fills at once or is refused for lack of cash or contracts. */
  lemma PlacedFillsOrFails(config: AppConfig, b: Books, intent: Intent, quote: Quote)
    requires config.Valid() && !CanRest(config) && SaneQuote(quote) && intent.style == config.strategy.orderStyle
    requires if intent.IsBuy() then BuyPrice(config.strategy, quote, intent.outcome) == Some(intent.limitPrice)
             else SellPrice(config.strategy, quote, intent.outcome) == Some(intent.limitPrice)
    ensures var price := TakerPrice(config.paper, intent, quote);
      && 0.0 <= price <= 1.0
      && (intent.IsBuy() ==> price <= intent.limitPrice)
      && Place(config, b, intent, quote) == Fill(config.fees, b, intent, price)
  {
    TakerPriceBounds(config, intent, quote);
    GenerousLimitFills(config, intent, quote);
  }

  lemma DeclinedIs(b: Books, intent: Intent, now: real)
    requires !Has(b.journal, intent.clientOrderId)
    ensures Declined(RecordIntent(b, intent, now).value, intent.clientOrderId)
         == b.(journal := b.journal + [PendingRow(intent, now).(status := Rejected)])
  {
    var journal := b.journal + [PendingRow(intent, now)];
    assert journal[|b.journal|].intent.clientOrderId == intent.clientOrderId;
    assert Find(journal, intent.clientOrderId) == |b.journal|;
  }

  lemma DeclinedFillsNothing(b: Books, intent: Intent, now: real)
    requires !Has(b.journal, intent.clientOrderId)
    ensures FillsNothing(b, Declined(RecordIntent(b, intent, now).value, intent.clientOrderId))
  {
    DeclinedIs(b, intent, now);
    SumAppend(b.journal, PendingRow(intent, now).(status := Rejected), FilledFlag());
  }

  /** An approved intent that cannot rest goes through the ledger once or not at all. */
  lemma ApprovedFillsAtMostOnce(config: AppConfig, b: Books, intent: Intent, quote: Quote, now: real)
    requires config.Valid() && !CanRest(config) && WellFormed(b) && SaneQuote(quote) && intent.style == config.strategy.orderStyle
    requires intent.count > 0 && !Has(b.journal, intent.clientOrderId)
    requires if intent.IsBuy() then BuyPrice(config.strategy, quote, intent.outcome) == Some(intent.limitPrice)
             else SellPrice(config.strategy, quote, intent.outcome) == Some(intent.limitPrice)
    ensures var journaled, price := RecordIntent(b, intent, now).value, TakerPrice(config.paper, intent, quote);
      var (placed, result) := Place(config, journaled, intent, quote);
      && Recorded(placed, result) == Settled(config.fees, journaled, intent, price)
      && (FillsNothing(b, Recorded(placed, result)) || FillsOnce(config, b, Recorded(placed, result), intent, price))
  {
    var journaled := RecordIntent(b, intent, now).value;
    JournalingPath(config, b, intent, now);
    SumAppend(b.journal, PendingRow(intent, now), FilledFlag());
    PlacedFillsOrFails(config, journaled, intent, quote);
    SettledFillsAtMostOnce(config, b, journaled, |b.journal|, TakerPrice(config.paper, intent, quote));
  }

  lemma SubmitFillsAtMostOnce(config: AppConfig, b: Books, input: Input, intent: Intent)
    requires config.Valid() && !CanRest(config) && WellFormed(b) && SaneQuote(input.quote)
    requires Proposal(config, b, input) == Trade(intent) && !Has(b.journal, intent.clientOrderId)
    ensures var after := Submit(config, b, intent, input);
      FillsNothing(b, after) || FillsOnce(config, b, after, intent, TakerPrice(config.paper, intent, input.quote))
  {
    var ticker := input.quote.ticker;
    IntentAnatomy(config, input.signal, input.quote, Snapshot(b, ticker), PaperPosition(b.positions, ticker),
                  input.clientOrderId, input.now, intent);
    DeclinedFillsNothing(b, intent, input.now);
    ApprovedFillsAtMostOnce(config, b, intent, input.quote, input.now);
  }

  lemma SettledFillsAtMostOnce(config: AppConfig, b: Books, journaled: Books, i: nat, price: real)
    requires WellFormed(journaled) && i < |journaled.journal| && journaled.journal[i].status == Pending
    requires journaled == b.(journal := journaled.journal) && FilledCount(journaled) == FilledCount(b)
    ensures var intent := journaled.journal[i].intent;
      var after := Settled(config.fees, journaled, intent, price);
      if Applied(config.fees, b, intent, price).Ok? then
        SameLedger(Applied(config.fees, b, intent, price).value, after) && FilledCount(after) == FilledCount(b) + 1
      else FillsNothing(b, after)
  {
    var row := journaled.journal[i];
    SettledIs(config.fees, journaled, i, price);
    AppliedIgnoresJournal(config.fees, b, journaled.journal, row.intent, price);
    SumUpdate(journaled.journal, i, FilledRow(config.fees, row, price), FilledFlag());
    SumUpdate(journaled.journal, i, RefusedRow(row), FilledFlag());
  }

  lemma CycleFillsAtMostOnce(config: AppConfig, b: Books, input: Input)
    requires config.Valid() && !CanRest(config) && WellFormed(b) && Quiet(b) && SaneQuote(input.quote)
    ensures var after := Cycle(config, b, input);
      || FillsNothing(b, after)
      || (exists intent, price :: Proposal(config, b, input) == Trade(intent) && FillsOnce(config, b, after, intent, price))
  {
    NothingRests(b.journal, input.quote.ticker);
    var proposal := Proposal(config, b, input);
    if proposal.Trade? && !Has(b.journal, proposal.intent.clientOrderId) {
      SubmitFillsAtMostOnce(config, b, input, proposal.intent);
    }
  }

  // ----- What the ledger reports ----------------------------------------------------------

  lemma PositionIs(b: Books, ticker: string)
    requires WellFormed(b) && OneSided(b, ticker)
    ensures var position := PaperPosition(b.positions, ticker);
      if position.IsFlat() then position == Flat(ticker) && (ticker, Yes) !in b.positions && (ticker, No) !in b.positions
      else
        && (ticker, position.outcome.value) in b.positions
        && position.count == b.positions[(ticker, position.outcome.value)].count
        && (ticker, position.outcome.value.Opposite()) !in b.positions
  {
    assert (ticker, Yes) in b.positions ==> b.positions[(ticker, Yes)].count > 0;
    assert (ticker, No) in b.positions ==> b.positions[(ticker, No)].count > 0;
  }

  /** The position after a fill on `side`, when the other side is not held. */
  lemma PositionAfter(b: Books, after: Books, ticker: string, side: Outcome, count: int)
    requires count >= 0
    requires (ticker, side.Opposite()) !in after.positions
    requires if count == 0 then (ticker, side) !in after.positions
             else (ticker, side) in after.positions && after.positions[(ticker, side)].count == count
    ensures var position := PaperPosition(after.positions, ticker);
      && (count == 0 ==> position == Flat(ticker))
      && (count > 0 ==> position.outcome == Some(side) && position.count == count)
  {
  }

  // ----- The measure ---------------------------------------------------------------------------

  function CeilDiv(n: int, d: int): int
    requires d > 0
  {
    (n + d - 1) / d
  }

  /** Contracts held in one market, on whichever side. */
  function HeldCount(positions: map<Key, Lot>, ticker: string): int {
    if PaperPosition(positions, ticker).IsFlat() then 0 else PaperPosition(positions, ticker).count
  }

  /** The held side is worth selling at this quote. */
  predicate Exiting(config: AppConfig, signal: Signal, quote: Quote, positions: map<Key, Lot>) {
    Exit(config.strategy, config.fees, signal, quote, PaperPosition(positions, quote.ticker),
         config.risk.maxContractsPerOrder, "").Some?
  }

  /** A side is held, is not worth selling, and no target at any later time exceeds the holding. */
  ghost predicate AtTarget(config: AppConfig, signal: Signal, quote: Quote, b: Books)
    requires config.Valid()
  {
    var held := PaperPosition(b.positions, quote.ticker);
    && !held.IsFlat()
    && !Exiting(config, signal, quote, b.positions)
    && forall seconds: Option<real>, price: real ::
        Some(price) == BuyPrice(config.strategy, quote, held.outcome.value) ==>
          Target(config, signal.fairProbability, b.balanceCents, MarketExposure(b.positions, quote.ticker), seconds,
                 held.outcome.value, price)
          <= held.count
  }

  /** Fills still to come: the slices of an exit, and one entry. */
  ghost function FillsLeft(config: AppConfig, signal: Signal, quote: Quote, b: Books): int
    requires config.Valid()
  {
    var held := PaperPosition(b.positions, quote.ticker);
    if held.IsFlat() then 1
    else if Exiting(config, signal, quote, b.positions) then CeilDiv(held.count, config.risk.maxContractsPerOrder) + 1
    else if AtTarget(config, signal, quote, b) then 0
    else 1
  }

  lemma FillsLeftBounds(config: AppConfig, signal: Signal, quote: Quote, b: Books)
    requires config.Valid()
    ensures 0 <= FillsLeft(config, signal, quote, b)
         <= CeilDiv(HeldCount(b.positions, quote.ticker), config.risk.maxContractsPerOrder) + 1
  {
    CeilDivNonNegative(HeldCount(b.positions, quote.ticker), config.risk.maxContractsPerOrder);
  }

  lemma CeilDivNonNegative(n: int, d: int)
    requires d > 0 && n >= 0
    ensures CeilDiv(n, d) >= 0
  {
  }

  lemma SameLedgerSameFillsLeft(config: AppConfig, signal: Signal, quote: Quote, b: Books, after: Books)
    requires config.Valid() && SameLedger(b, after)
    ensures FillsLeft(config, signal, quote, after) == FillsLeft(config, signal, quote, b)
  {
    assert AtTarget(config, signal, quote, b) <==> AtTarget(config, signal, quote, after);
  }

  /** A side that is worth selling is never the side a buy proposes. */
  lemma SoldSideIsNotRebought(config: AppConfig, b: Books, input: Input, intent: Intent)
    requires config.Valid() && !CanRest(config) && input.quote.Uncrossed()
    requires Proposal(config, b, input) == Trade(intent) && intent.IsBuy()
    ensures SellPrice(config.strategy, input.quote, intent.outcome).Some? ==>
      SellEdgeBps(config.strategy, config.fees, input.signal.fairProbability, intent.outcome,
                  SellPrice(config.strategy, input.quote, intent.outcome).value) < config.strategy.exitEdgeBps
  {
    var ticker := input.quote.ticker;
    IntentAnatomy(config, input.signal, input.quote, Snapshot(b, ticker), PaperPosition(b.positions, ticker),
                  input.clientOrderId, input.now, intent);
    if SellPrice(config.strategy, input.quote, intent.outcome).Some? {
      NoSellAndBuy(config.strategy, config.fees, input.signal.fairProbability, input.quote, intent.outcome);
    }
  }

  lemma QuotientIs(x: int, d: int, q: int)
    requires d > 0 && q * d <= x < q * d + d
    ensures x / d == q
  {
    var p := x / d;
    assert x == p * d + x % d;
    if p < q {
      IntProductMonotone(p + 1, q, d);
    } else if p > q {
      IntProductMonotone(q + 1, p, d);
    }
  }

  /** One fewer slice is left after selling a slice. */
  lemma SliceShortens(count: int, most: int)
    requires most > 0 && count > most
    ensures CeilDiv(count - most, most) == CeilDiv(count, most) - 1
  {
    var x := count - 1;
    var p := x / most;
    assert x == p * most + x % most;
    QuotientIs(x + most, most, p + 1);
  }

  lemma CeilDivPositive(count: int, most: int)
    requires most > 0 && count > 0
    ensures CeilDiv(count, most) >= 1
  {
  }

  lemma SellShortens(config: AppConfig, b: Books, after: Books, input: Input, intent: Intent, price: real)
    requires config.Valid() && WellFormed(b) && OneSided(b, input.quote.ticker)
    requires Proposal(config, b, input) == Trade(intent) && !intent.IsBuy()
    requires FillsOnce(config, b, after, intent, price)
    ensures FillsLeft(config, input.signal, input.quote, after) < FillsLeft(config, input.signal, input.quote, b)
  {
    var ticker, most := input.quote.ticker, config.risk.maxContractsPerOrder;
    var held := PaperPosition(b.positions, ticker);
    IntentAnatomy(config, input.signal, input.quote, Snapshot(b, ticker), held, input.clientOrderId, input.now, intent);
    PositionIs(b, ticker);
    PositionAfter(b, after, ticker, intent.outcome, held.count - intent.count);
    CeilDivPositive(held.count, most);
    if held.count > most {
      SliceShortens(held.count, most);
    }
  }

  /** The stake only shrinks as cash is spent; time alone only switches it on or off. */
  lemma SizeShrinks(fair: real, price: real, rate: real, less: int, more: int, config: SizingConfig,
                    later: Option<real>, now: Option<real>)
    requires config.Valid() && less <= more && fair <= 1.0
    requires SizePosition(fair, price, rate, more, config, now).contracts > 0
    ensures SizePosition(fair, price, rate, less, config, later).contracts <= SizePosition(fair, price, rate, more, config, now).contracts
  {
    var cost := EffectiveBuyPrice(price, rate);
    if fair > cost {
      StakedMonotone(fair, cost, less, fair, cost, more, config);
    }
  }

  lemma CapShrinks(less: int, more: int, price: real, risk: RiskConfig, smaller: int, larger: int)
    requires less <= more && smaller <= larger
    ensures CapByRisk(less, price, risk.maxContractsPerOrder, risk.maxOrderNotionalCents, smaller)
         <= CapByRisk(more, price, risk.maxContractsPerOrder, risk.maxOrderNotionalCents, larger)
  {
    DivisionMonotone(smaller, larger, PerContractCents(price));
  }

  lemma DivisionMonotone(x: int, y: int, d: int)
    requires x <= y && d > 0
    ensures x / d <= y / d
  {
    var p, q := x / d, y / d;
    if p > q {
      IntProductMonotone(q + 1, p, d);
    }
  }

  lemma TargetShrinks(config: AppConfig, probability: real, less: int, more: int, larger: int, smaller: int,
                      later: Option<real>, now: Option<real>, outcome: Outcome, price: real)
    requires config.Valid() && less <= more && smaller <= larger && 0.0 <= probability <= 1.0
    requires Target(config, probability, more, smaller, now, outcome, price) > 0
    ensures Target(config, probability, less, larger, later, outcome, price)
         <= Target(config, probability, more, smaller, now, outcome, price)
  {
    var fair, rate := Fair(probability, outcome), config.fees.RateFor(config.strategy.orderStyle);
    SizeShrinks(fair, price, rate, less, more, config.sizing, later, now);
    CapShrinks(SizePosition(fair, price, rate, less, config.sizing, later).contracts,
               SizePosition(fair, price, rate, more, config.sizing, now).contracts, price, config.risk,
               config.risk.maxMarketExposureCents - larger, config.risk.maxMarketExposureCents - smaller);
  }

  // ----- A buy leaves nothing to do ------------------------------------------------------------------

  lemma BuyMovesLedger(config: AppConfig, b: Books, after: Books, intent: Intent, price: real)
    requires config.Valid() && WellFormed(b) && intent.count > 0 && intent.IsBuy() && FillsOnce(config, b, after, intent, price)
    ensures var key := (intent.ticker, intent.outcome);
      && key in after.positions
      && after.positions[key].count == LotOf(b.positions, key).count + intent.count
      && after.positions.Keys == b.positions.Keys + {key}
    ensures after.balanceCents <= b.balanceCents
    ensures MarketExposure(after.positions, intent.ticker) >= MarketExposure(b.positions, intent.ticker)
  {
    CostNonNegative(config.fees, intent, price);
  }

  lemma BuyShortens(config: AppConfig, b: Books, after: Books, input: Input, intent: Intent, price: real)
    requires config.Valid() && !CanRest(config) && input.quote.Uncrossed()
    requires WellFormed(b) && OneSided(b, input.quote.ticker)
    requires 0.0 <= input.signal.fairProbability <= 1.0
    requires Proposal(config, b, input) == Trade(intent) && intent.IsBuy()
    requires FillsOnce(config, b, after, intent, price)
    ensures FillsLeft(config, input.signal, input.quote, b) == 1
    ensures AtTarget(config, input.signal, input.quote, after)
    ensures FillsLeft(config, input.signal, input.quote, after) == 0
  {
    var ticker, side := input.quote.ticker, intent.outcome;
    var held := PaperPosition(b.positions, ticker);
    var portfolio := Snapshot(b, ticker);
    IntentAnatomy(config, input.signal, input.quote, portfolio, held, input.clientOrderId, input.now, intent);
    PositionIs(b, ticker);
    BuyMovesLedger(config, b, after, intent, price);
    BuyMeansNotExiting(config, b, input, intent);
    PositionAfter(b, after, ticker, side, held.Held(side) + intent.count);
    SoldSideIsNotRebought(config, b, input, intent);
    forall seconds: Option<real>, p: real | Some(p) == BuyPrice(config.strategy, input.quote, side)
      ensures Target(config, input.signal.fairProbability, after.balanceCents, MarketExposure(after.positions, ticker), seconds, side, p)
           <= held.Held(side) + intent.count
    {
      TargetShrinks(config, input.signal.fairProbability, after.balanceCents, b.balanceCents,
                    MarketExposure(after.positions, ticker), MarketExposure(b.positions, ticker),
                    seconds, input.quote.SecondsToClose(input.now), side, p);
    }
  }

  /** The strategy proposes a buy only when there is nothing to exit. */
  lemma BuyMeansNotExiting(config: AppConfig, b: Books, input: Input, intent: Intent)
    requires config.Valid() && Proposal(config, b, input) == Trade(intent) && intent.IsBuy()
    ensures !Exiting(config, input.signal, input.quote, b.positions)
  {
  }

  // ----- Any number of cycles ---------------------------------------------------------------------------

  ghost function Cycles(config: AppConfig, b: Books, inputs: seq<Input>): Books
    requires config.Valid()
  {
    if inputs == [] then b
    else Cycle(config, Cycles(config, b, inputs[..|inputs| - 1]), inputs[|inputs| - 1])
  }

  /** The same market at the same four prices; sizes, status, time of observation and closing time may differ. */
  predicate SamePrices(q: Quote, r: Quote) {
    q.ticker == r.ticker && q.yesBid == r.yesBid && q.yesAsk == r.yesAsk && q.noBid == r.noBid && q.noAsk == r.noAsk
  }

  /** The same opinion of the same market, however often it is issued anew. */
  predicate SameOpinion(s: Signal, t: Signal) {
    s.ticker == t.ticker && s.fairProbability == t.fairProbability
  }

  /** Prices and opinion stand still; everything else the cycles are given is arbitrary. */
  ghost predicate Frozen(inputs: seq<Input>, signal: Signal, quote: Quote) {
    forall i :: 0 <= i < |inputs| ==> SameOpinion(inputs[i].signal, signal) && SamePrices(inputs[i].quote, quote)
  }

  /** What strategy and ledger make of a position depends on prices and opinion only. */
  lemma SamePricesSamePlan(config: AppConfig, s: Signal, t: Signal, q: Quote, r: Quote, b: Books)
    requires config.Valid() && SameOpinion(s, t) && SamePrices(q, r)
    ensures SaneQuote(q) <==> SaneQuote(r)
    ensures q.Uncrossed() <==> r.Uncrossed()
    ensures forall side :: BuyPrice(config.strategy, q, side) == BuyPrice(config.strategy, r, side)
    ensures Exiting(config, s, q, b.positions) <==> Exiting(config, t, r, b.positions)
  {
    assert forall side :: q.Bid(side) == r.Bid(side) && q.Ask(side) == r.Ask(side);
  }

  lemma SamePricesSameFillsLeft(config: AppConfig, s: Signal, t: Signal, q: Quote, r: Quote, b: Books)
    requires config.Valid() && SameOpinion(s, t) && SamePrices(q, r)
    ensures FillsLeft(config, s, q, b) == FillsLeft(config, t, r, b)
    ensures AtTarget(config, s, q, b) <==> AtTarget(config, t, r, b)
  {
    SamePricesSamePlan(config, s, t, q, r, b);
  }

  lemma CycleShortens(config: AppConfig, b: Books, input: Input)
    requires config.Valid() && !CanRest(config) && input.quote.Uncrossed() && SaneQuote(input.quote)
    requires WellFormed(b) && Quiet(b) && 0.0 <= input.signal.fairProbability <= 1.0
    ensures var after := Cycle(config, b, input);
      && WellFormed(after) && Quiet(after)
      && FilledCount(b) <= FilledCount(after)
      && FilledCount(after) + FillsLeft(config, input.signal, input.quote, after)
         <= FilledCount(b) + FillsLeft(config, input.signal, input.quote, b)
  {
    var after := Cycle(config, b, input);
    CycleKeepsQuiet(config, b, input);
    CycleFillsAtMostOnce(config, b, input);
    assert OneSided(b, input.quote.ticker);
    if FillsNothing(b, after) {
      SameLedgerSameFillsLeft(config, input.signal, input.quote, b, after);
    } else {
      var intent, price :| Proposal(config, b, input) == Trade(intent) && FillsOnce(config, b, after, intent, price);
      if intent.IsBuy() {
        BuyShortens(config, b, after, input, intent, price);
      } else {
        SellShortens(config, b, after, input, intent, price);
      }
    }
  }

  lemma CycleKeepsQuiet(config: AppConfig, b: Books, input: Input)
    requires config.Valid() && !CanRest(config) && SaneQuote(input.quote) && WellFormed(b) && Quiet(b)
    ensures WellFormed(Cycle(config, b, input)) && Quiet(Cycle(config, b, input))
  {
    CyclePath(config, b, input);
    var n: nat :| Star(Changes(config), b, Cycle(config, b, input), n);
    StarKeepsQuiet(config, b, Cycle(config, b, input), n);
  }

  lemma {:induction false} CyclesShorten(config: AppConfig, b: Books, inputs: seq<Input>, signal: Signal, quote: Quote)
    requires config.Valid() && !CanRest(config) && quote.Uncrossed() && SaneQuote(quote)
    requires WellFormed(b) && Quiet(b) && 0.0 <= signal.fairProbability <= 1.0
    requires Frozen(inputs, signal, quote)
    ensures var after := Cycles(config, b, inputs);
      && WellFormed(after) && Quiet(after)
      && FilledCount(b) <= FilledCount(after)
      && FilledCount(after) + FillsLeft(config, signal, quote, after) <= FilledCount(b) + FillsLeft(config, signal, quote, b)
  {
    if inputs != [] {
      var n := |inputs| - 1;
      CyclesShorten(config, b, inputs[..n], signal, quote);
      var mid, input := Cycles(config, b, inputs[..n]), inputs[n];
      assert SameOpinion(input.signal, signal) && SamePrices(input.quote, quote);
      SamePricesSamePlan(config, input.signal, signal, input.quote, quote, mid);
      SamePricesSameFillsLeft(config, input.signal, signal, input.quote, quote, mid);
      SamePricesSameFillsLeft(config, input.signal, signal, input.quote, quote, Cycle(config, mid, input));
      CycleShortens(config, mid, input);
    }
  }

  /** However often the engine cycles on a market whose prices and opinion stand still, it fills at most
      ceil(held / max contracts) + 1 orders there. */
  lemma FrozenBookComesToRest(config: AppConfig, b: Books, inputs: seq<Input>, signal: Signal, quote: Quote)
    requires config.Valid() && !CanRest(config) && WellFormed(b) && Quiet(b)
    requires quote.Uncrossed() && SaneQuote(quote) && 0.0 <= signal.fairProbability <= 1.0
    requires Frozen(inputs, signal, quote)
    ensures FilledCount(Cycles(config, b, inputs)) - FilledCount(b)
         <= CeilDiv(HeldCount(b.positions, quote.ticker), config.risk.maxContractsPerOrder) + 1
  {
    CyclesShorten(config, b, inputs, signal, quote);
    FillsLeftBounds(config, signal, quote, b);
    FillsLeftBounds(config, signal, quote, Cycles(config, b, inputs));
  }

  /** After any run of the machine that is at most two orders: one exit and one entry. */
  lemma AtMostTwoMoreFills(config: AppConfig, steps: seq<Step>, inputs: seq<Input>, signal: Signal, quote: Quote)
    requires config.Valid() && !CanRest(config) && SaneRun(steps)
    requires quote.Uncrossed() && SaneQuote(quote) && 0.0 <= signal.fairProbability <= 1.0
    requires Frozen(inputs, signal, quote)
    ensures FilledCount(Cycles(config, Run(config, steps), inputs)) - FilledCount(Run(config, steps)) <= 2
  {
    var b := Run(config, steps);
    RunPath(config, steps, 0);
    TakersFillAtOnce(config, steps);
    FrozenBookComesToRest(config, b, inputs, signal, quote);
    SmallHolding(config, b, quote.ticker);
  }

  lemma SmallHolding(config: AppConfig, b: Books, ticker: string)
    requires config.Valid() && WellFormed(b) && SmallLots(config, b)
    ensures CeilDiv(HeldCount(b.positions, ticker), config.risk.maxContractsPerOrder) <= 1
  {
    assert forall key :: LotOf(b.positions, key).count <= config.risk.maxContractsPerOrder;
    AtMostOneSlice(HeldCount(b.positions, ticker), config.risk.maxContractsPerOrder);
  }

  lemma AtMostOneSlice(count: int, most: int)
    requires 0 <= count <= most && most > 0
    ensures CeilDiv(count, most) == if count == 0 then 0 else 1
  {
    QuotientIs(count + most - 1, most, if count == 0 then 0 else 1);
  }

  /** Once a market is at target, and prices and opinion stand still, it never fills again. */
  lemma AtTargetIsFinal(config: AppConfig, b: Books, inputs: seq<Input>, signal: Signal, quote: Quote)
    requires config.Valid() && !CanRest(config) && quote.Uncrossed() && SaneQuote(quote)
    requires WellFormed(b) && Quiet(b) && 0.0 <= signal.fairProbability <= 1.0
    requires Frozen(inputs, signal, quote) && AtTarget(config, signal, quote, b)
    ensures FilledCount(Cycles(config, b, inputs)) == FilledCount(b)
  {
    CyclesShorten(config, b, inputs, signal, quote);
    FillsLeftBounds(config, signal, quote, Cycles(config, b, inputs));
  }

  // ----- Exits drain --------------------------------------------------------------------------------------

  /** With a fresh order ID and the kill switch off, a cycle sells the next slice of a side worth exiting. */
  lemma ExitSellsASlice(config: AppConfig, b: Books, input: Input)
    requires config.Valid() && !CanRest(config) && SaneQuote(input.quote)
    requires WellFormed(b) && Quiet(b)
    requires Screen(config.strategy, input.signal, input.quote).None?
    requires Exiting(config, input.signal, input.quote, b.positions)
    requires !input.killSwitch && !Has(b.journal, input.clientOrderId)
    ensures var held := PaperPosition(b.positions, input.quote.ticker);
      var left := PaperPosition(Cycle(config, b, input).positions, input.quote.ticker);
      if held.count <= config.risk.maxContractsPerOrder then left.IsFlat()
      else left.outcome == held.outcome && left.count == held.count - config.risk.maxContractsPerOrder
  {
    var ticker := input.quote.ticker;
    var held := PaperPosition(b.positions, ticker);
    var proposal := Proposal(config, b, input);
    ExitingProposesSell(config, b, input);
    var intent := proposal.intent;
    IntentAnatomy(config, input.signal, input.quote, Snapshot(b, ticker), held, input.clientOrderId, input.now, intent);
    SellOnlyFailsOnKillSwitch(config, input.signal, input.quote, Snapshot(b, ticker), held, input.clientOrderId, input.now,
                              intent, LastOrderAt(b.journal, ticker), input.killSwitch);
    NothingRests(b.journal, ticker);
    PositionIs(b, ticker);
    var after := Cycle(config, b, input);
    ApprovedSellFills(config, b, input, intent);
    PositionAfter(b, after, ticker, intent.outcome, held.count - intent.count);
  }

  lemma ExitingProposesSell(config: AppConfig, b: Books, input: Input)
    requires config.Valid() && Screen(config.strategy, input.signal, input.quote).None?
    requires Exiting(config, input.signal, input.quote, b.positions)
    ensures var proposal := Proposal(config, b, input); proposal.Trade? && !proposal.intent.IsBuy()
  {
  }

  lemma ApprovedSellFills(config: AppConfig, b: Books, input: Input, intent: Intent)
    requires config.Valid() && !CanRest(config) && WellFormed(b) && SaneQuote(input.quote)
    requires Proposal(config, b, input) == Trade(intent) && !intent.IsBuy() && !Has(b.journal, intent.clientOrderId)
    requires Verdict(config, b, intent, input) == Approved
    requires (intent.ticker, intent.outcome) in b.positions && b.positions[(intent.ticker, intent.outcome)].count >= intent.count
    ensures var price := TakerPrice(config.paper, intent, input.quote);
      var after := Submit(config, b, intent, input);
      Applied(config.fees, b, intent, price).Ok? && SameLedger(Applied(config.fees, b, intent, price).value, after)
  {
    var ticker := input.quote.ticker;
    IntentAnatomy(config, input.signal, input.quote, Snapshot(b, ticker), PaperPosition(b.positions, ticker),
                  input.clientOrderId, input.now, intent);
    var journaled := RecordIntent(b, intent, input.now).value;
    var i, price := |b.journal|, TakerPrice(config.paper, intent, input.quote);
    JournalingPath(config, b, intent, input.now);
    FindIs(journaled.journal, i);
    SumAppend(b.journal, PendingRow(intent, input.now), FilledFlag());
    PlacedFillsOrFails(config, journaled, intent, input.quote);
    SettledFillsAtMostOnce(config, b, journaled, i, price);
  }

  ghost predicate FreshIds(b: Books, inputs: seq<Input>) {
    && (forall i :: 0 <= i < |inputs| ==> !Has(b.journal, inputs[i].clientOrderId))
    && (forall i, j :: 0 <= i < j < |inputs| ==> inputs[i].clientOrderId != inputs[j].clientOrderId)
  }

  lemma CycleAddsOneId(config: AppConfig, b: Books, input: Input, id: string)
    requires config.Valid() && !CanRest(config) && WellFormed(b) && Quiet(b) && SaneQuote(input.quote)
    requires Has(Cycle(config, b, input).journal, id)
    ensures Has(b.journal, id) || id == input.clientOrderId
  {
    NothingRests(b.journal, input.quote.ticker);
    var proposal := Proposal(config, b, input);
    if proposal.Trade? && !Has(b.journal, proposal.intent.clientOrderId) {
      ProposalCarriesId(config, b, input, proposal.intent);
      SubmitAddsOneId(config, b, input, proposal.intent, id);
    }
  }

  lemma RowsAddOneId(journal: seq<Row>, longer: seq<Row>, intent: Intent, id: string)
    requires |longer| == |journal| + 1 && longer[|journal|].intent == intent
    requires forall i :: 0 <= i < |journal| ==> longer[i] == journal[i]
    requires Has(longer, id)
    ensures Has(journal, id) || id == intent.clientOrderId
  {
    var k :| 0 <= k < |longer| && longer[k].intent.clientOrderId == id;
    if k < |journal| {
      assert journal[k].intent.clientOrderId == id;
    }
  }

  lemma ProposalCarriesId(config: AppConfig, b: Books, input: Input, intent: Intent)
    requires config.Valid() && Proposal(config, b, input) == Trade(intent)
    ensures intent.clientOrderId == input.clientOrderId
  {
    var ticker := input.quote.ticker;
    IntentAnatomy(config, input.signal, input.quote, Snapshot(b, ticker), PaperPosition(b.positions, ticker),
                  input.clientOrderId, input.now, intent);
  }

  lemma SubmitAddsOneId(config: AppConfig, b: Books, input: Input, intent: Intent, id: string)
    requires intent.clientOrderId == input.clientOrderId && !Has(b.journal, intent.clientOrderId)
    requires Has(Submit(config, b, intent, input).journal, id)
    ensures Has(b.journal, id) || id == input.clientOrderId
  {
    SubmitRows(config, b, intent, input);
    RowsAddOneId(b.journal, Submit(config, b, intent, input).journal, intent, id);
  }

  ghost predicate Uses(inputs: seq<Input>, id: string) {
    exists i :: 0 <= i < |inputs| && inputs[i].clientOrderId == id
  }

  ghost predicate SaneInputs(inputs: seq<Input>) {
    forall i :: 0 <= i < |inputs| ==> SaneQuote(inputs[i].quote)
  }

  lemma {:induction false} CyclesAddTheirIds(config: AppConfig, b: Books, inputs: seq<Input>, id: string)
    requires config.Valid() && !CanRest(config) && WellFormed(b) && Quiet(b) && SaneInputs(inputs)
    ensures WellFormed(Cycles(config, b, inputs)) && Quiet(Cycles(config, b, inputs))
    ensures Has(Cycles(config, b, inputs).journal, id) ==> Has(b.journal, id) || Uses(inputs, id)
  {
    if inputs != [] {
      var n := |inputs| - 1;
      var mid := Cycles(config, b, inputs[..n]);
      CyclesAddTheirIds(config, b, inputs[..n], id);
      CycleKeepsQuiet(config, mid, inputs[n]);
      if Has(Cycle(config, mid, inputs[n]).journal, id) {
        CycleAddsOneId(config, mid, inputs[n], id);
        if id == inputs[n].clientOrderId {
          assert Uses(inputs, id);
        }
      }
    }
  }

  /** The state of an exit: what is left of the position, and that it is still worth selling. */
  ghost predicate Draining(config: AppConfig, signal: Signal, quote: Quote, b: Books, slices: int)
    requires config.Valid()
  {
    && CeilDiv(HeldCount(b.positions, quote.ticker), config.risk.maxContractsPerOrder) == slices
    && (slices > 0 ==> Exiting(config, signal, quote, b.positions))
  }

  lemma DrainOneSlice(config: AppConfig, b: Books, input: Input, slices: int)
    requires config.Valid() && !CanRest(config) && SaneQuote(input.quote)
    requires WellFormed(b) && Quiet(b) && slices > 0
    requires Screen(config.strategy, input.signal, input.quote).None?
    requires Draining(config, input.signal, input.quote, b, slices)
    requires !input.killSwitch && !Has(b.journal, input.clientOrderId)
    ensures Draining(config, input.signal, input.quote, Cycle(config, b, input), slices - 1)
  {
    var most := config.risk.maxContractsPerOrder;
    ExitSellsASlice(config, b, input);
    SliceCounts(HeldCount(b.positions, input.quote.ticker), most);
    CeilDivZero(HeldCount(Cycle(config, b, input).positions, input.quote.ticker), most);
  }

  /** A cycle in which an exit is not blocked: the signal is usable at its own quote, and the kill switch is off. */
  predicate MayExit(config: AppConfig, input: Input) {
    Screen(config.strategy, input.signal, input.quote).None? && !input.killSwitch
  }

  /** Exits drain: while prices and opinion stand still, each cycle that may exit sells one of the
      ceil(held / max contracts) slices of a position that is worth selling. */
  lemma {:induction false} ExitDrains(config: AppConfig, b: Books, inputs: seq<Input>, signal: Signal, quote: Quote, slices: int)
    requires config.Valid() && !CanRest(config) && SaneQuote(quote) && WellFormed(b) && Quiet(b)
    requires Draining(config, signal, quote, b, slices)
    requires Frozen(inputs, signal, quote) && FreshIds(b, inputs)
    requires forall i :: 0 <= i < |inputs| ==> MayExit(config, inputs[i])
    requires |inputs| <= slices
    ensures Draining(config, signal, quote, Cycles(config, b, inputs), slices - |inputs|)
  {
    if inputs != [] {
      var n := |inputs| - 1;
      var mid, input := Cycles(config, b, inputs[..n]), inputs[n];
      ExitDrains(config, b, inputs[..n], signal, quote, slices);
      FrozenIsSane(config, inputs, signal, quote, mid);
      CyclesAddTheirIds(config, b, inputs[..n], input.clientOrderId);
      assert SameOpinion(input.signal, signal) && SamePrices(input.quote, quote) && MayExit(config, input);
      SamePricesSamePlan(config, input.signal, signal, input.quote, quote, mid);
      DrainOneSlice(config, mid, input, slices - n);
      SamePricesSamePlan(config, input.signal, signal, input.quote, quote, Cycle(config, mid, input));
    }
  }

  lemma FrozenIsSane(config: AppConfig, inputs: seq<Input>, signal: Signal, quote: Quote, b: Books)
    requires config.Valid() && SaneQuote(quote) && Frozen(inputs, signal, quote)
    ensures SaneInputs(inputs)
  {
    forall i | 0 <= i < |inputs|
      ensures SaneQuote(inputs[i].quote)
    {
      SamePricesSamePlan(config, inputs[i].signal, signal, inputs[i].quote, quote, b);
    }
  }

  /** After the last slice the position is flat. */
  lemma DrainedIsFlat(config: AppConfig, signal: Signal, quote: Quote, b: Books)
    requires config.Valid() && Draining(config, signal, quote, b, 0)
    ensures PaperPosition(b.positions, quote.ticker).IsFlat()
  {
    CeilDivZero(HeldCount(b.positions, quote.ticker), config.risk.maxContractsPerOrder);
  }

  lemma SliceCounts(count: int, most: int)
    requires most > 0 && count > 0
    ensures count > most ==> CeilDiv(count - most, most) == CeilDiv(count, most) - 1
    ensures count <= most ==> CeilDiv(count, most) == 1
  {
    if count > most {
      SliceShortens(count, most);
    } else {
      AtMostOneSlice(count, most);
    }
  }

  lemma CeilDivZero(count: int, most: int)
    requires most > 0 && count >= 0
    ensures CeilDiv(count, most) == 0 <==> count == 0
  {
  }
}
