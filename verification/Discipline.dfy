/** Which orders one cycle of the paper engine sends, in terms of clock, book, limits and journal. */
module Discipline {
  import opened Wrappers
  import opened Domain
  import opened Config
  import opened Risk
  import opened Ledger
  import opened Broker
  import opened Engine
  import opened PaperPaths
  import opened PaperInvariants
  import opened Intents

  // ----- What a buy has to pass -----------------------------------------------------------------

  /** Rows that are pending or resting. */
  ghost function OpenRows(journal: seq<Row>): set<nat> {
    set i: nat | i < |journal| && (journal[i].status == Pending || journal[i].status == Resting)
  }

  /** `loss` is the fewest cents that pay for the order at its limit. */
  predicate IsWorstLoss(intent: Intent, loss: int) {
    loss as real - 1.0 < intent.limitPrice * intent.count as real * 100.0 <= loss as real
  }

  function AskSizeOf(quote: Quote, side: Outcome): real {
    if side == Yes then quote.yesAskSize else quote.noAskSize
  }

  /** No order of the market that was neither rejected nor canceled is younger than the cooldown. */
  ghost predicate CooledDown(journal: seq<Row>, ticker: string, now: real, cooldownSeconds: int) {
    forall i :: 0 <= i < |journal| && journal[i].intent.ticker == ticker && journal[i].status != Rejected && journal[i].status != Canceled
      ==> now - journal[i].createdAt >= cooldownSeconds as real
  }

  /** The limits on count and money, with the worst-case loss counted in. */
  ghost predicate WithinMoney(risk: RiskConfig, b: Books, intent: Intent, ticker: string) {
    exists loss: int ::
      && IsWorstLoss(intent, loss)
      && 0 < intent.count <= risk.maxContractsPerOrder
      && 0 < loss <= risk.maxOrderNotionalCents
      && LotOf(b.positions, (ticker, Yes)).costCents + LotOf(b.positions, (ticker, No)).costCents + loss <= risk.maxMarketExposureCents
      && TotalExposure(b.positions) + loss <= risk.maxTotalExposureCents
      && |OpenRows(b.journal)| < risk.maxOpenOrders
      && b.balanceCents >= risk.minBalanceCents
  }

  /** Everything a buy must meet to be sent. */
  ghost predicate MayBuy(config: AppConfig, b: Books, intent: Intent, input: Input) {
    var quote := input.quote;
    && WithinMoney(config.risk, b, intent, quote.ticker)
    && !input.killSwitch
    && (quote.status == "open" || quote.status == "active")
    && b.realizedCents > -config.risk.maxDailyLossCents
    && (AskOf(quote, intent.outcome) - BidOf(quote, intent.outcome)) * 100.0 <= config.risk.maxSpreadCents as real
    && AskSizeOf(quote, intent.outcome) >= config.risk.minTopLevelContracts as real
    && ((if intent.outcome == Yes then intent.fairProbability else 1.0 - intent.fairProbability) - intent.limitPrice) * 10000.0
       >= config.strategy.minEdgeBps as real
    && 0.0 < intent.limitPrice < 1.0
    && CooledDown(b.journal, quote.ticker, input.now, config.risk.cooldownSeconds)
  }

  /** Everything a sale must meet to be sent. */
  predicate MaySell(config: AppConfig, intent: Intent, input: Input) {
    && !input.killSwitch
    && (input.quote.status == "open" || input.quote.status == "active")
    && 0 < intent.count <= config.risk.maxContractsPerOrder
    && 0.0 < intent.limitPrice < 1.0
  }

  ghost predicate MaySend(config: AppConfig, b: Books, intent: Intent, input: Input) {
    if intent.action == Buy then MayBuy(config, b, intent, input) else MaySell(config, intent, input)
  }

  // ----- The gates are these ------------------------------------------------------------------------

  lemma {:induction false} OpenRowsAreCounted(journal: seq<Row>)
    ensures OpenOrderCount(journal) == |OpenRows(journal)|
  {
    if journal == [] {
      assert OpenRows(journal) == {};
    } else {
      var n := |journal| - 1;
      OpenRowsAreCounted(journal[..n]);
      var here := journal[n].status == Pending || journal[n].status == Resting;
      assert OpenRows(journal) == OpenRows(journal[..n]) + if here then {n} else {};
    }
  }

  ghost predicate Counts(row: Row, ticker: string) {
    row.intent.ticker == ticker && row.status != Rejected && row.status != Canceled
  }

  /** The time of the latest order that counts: one of them, and none later. */
  lemma {:induction false} LastOrderExactly(journal: seq<Row>, ticker: string)
    ensures LastOrderAt(journal, ticker).None? <==> forall i :: 0 <= i < |journal| ==> !Counts(journal[i], ticker)
    ensures LastOrderAt(journal, ticker).Some? ==>
      && (exists i :: 0 <= i < |journal| && Counts(journal[i], ticker) && journal[i].createdAt == LastOrderAt(journal, ticker).value)
      && (forall i :: 0 <= i < |journal| && Counts(journal[i], ticker) ==> journal[i].createdAt <= LastOrderAt(journal, ticker).value)
  {
    if journal != [] {
      var n := |journal| - 1;
      LastOrderExactly(journal[..n], ticker);
      var earlier := LastOrderAt(journal[..n], ticker);
      assert forall i :: 0 <= i < n ==> journal[..n][i] == journal[i];
      if earlier.Some? {
        var k :| 0 <= k < n && Counts(journal[..n][k], ticker) && journal[..n][k].createdAt == earlier.value;
        assert Counts(journal[k], ticker);
      }
    }
  }

  lemma CooldownExactly(journal: seq<Row>, ticker: string, now: real, cooldownSeconds: int)
    ensures CooledDown(journal, ticker, now, cooldownSeconds) <==>
      (LastOrderAt(journal, ticker).Some? ==> now - LastOrderAt(journal, ticker).value >= cooldownSeconds as real)
  {
    LastOrderExactly(journal, ticker);
    if LastOrderAt(journal, ticker).Some? {
      var last := LastOrderAt(journal, ticker).value;
      var k :| 0 <= k < |journal| && Counts(journal[k], ticker) && journal[k].createdAt == last;
    }
  }

  lemma LossExactly(intent: Intent, loss: int)
    requires intent.IsBuy()
    ensures IsWorstLoss(intent, loss) <==> loss == intent.MaxLossCents()
  {
  }

  lemma MoneyExactly(risk: RiskConfig, b: Books, intent: Intent, ticker: string)
    requires intent.IsBuy()
    ensures WithinMoney(risk, b, intent, ticker)
       <==> NumericGate(intent.count, intent.MaxLossCents(), Snapshot(b, ticker), risk) == Approved
  {
    OpenRowsAreCounted(b.journal);
    LossExactly(intent, intent.MaxLossCents());
    if WithinMoney(risk, b, intent, ticker) {
      var loss: int :| IsWorstLoss(intent, loss)
        && 0 < intent.count <= risk.maxContractsPerOrder
        && 0 < loss <= risk.maxOrderNotionalCents
        && LotOf(b.positions, (ticker, Yes)).costCents + LotOf(b.positions, (ticker, No)).costCents + loss <= risk.maxMarketExposureCents
        && TotalExposure(b.positions) + loss <= risk.maxTotalExposureCents
        && |OpenRows(b.journal)| < risk.maxOpenOrders
        && b.balanceCents >= risk.minBalanceCents;
      LossExactly(intent, loss);
    }
  }

  lemma SpreadExactly(quote: Quote, side: Outcome, cents: int)
    ensures quote.SpreadCents(side) <= cents <==> (AskOf(quote, side) - BidOf(quote, side)) * 100.0 <= cents as real
  {
  }

  lemma EdgeExactly(intent: Intent, bps: int)
    requires intent.IsBuy() && bps >= 1
    ensures intent.EdgeBps() >= bps <==>
      ((if intent.outcome == Yes then intent.fairProbability else 1.0 - intent.fairProbability) - intent.limitPrice) * 10000.0 >= bps as real
  {
  }

  lemma SoftChecksExactly(config: AppConfig, portfolio: Portfolio, intent: Intent, input: Input, lastOrderAt: Option<real>)
    requires intent.IsBuy() && config.strategy.minEdgeBps >= 1
    ensures EvaluateBuy(intent, input.quote, portfolio, config.risk, config.strategy.minEdgeBps, lastOrderAt, input.killSwitch, input.now) == Approved
       <==>
         && NumericGate(intent.count, intent.MaxLossCents(), portfolio, config.risk) == Approved
         && !input.killSwitch
         && (input.quote.status == "open" || input.quote.status == "active")
         && portfolio.dailyPnlCents > -config.risk.maxDailyLossCents
         && (AskOf(input.quote, intent.outcome) - BidOf(input.quote, intent.outcome)) * 100.0 <= config.risk.maxSpreadCents as real
         && AskSizeOf(input.quote, intent.outcome) >= config.risk.minTopLevelContracts as real
         && ((if intent.outcome == Yes then intent.fairProbability else 1.0 - intent.fairProbability) - intent.limitPrice) * 10000.0
            >= config.strategy.minEdgeBps as real
         && 0.0 < intent.limitPrice < 1.0
         && (lastOrderAt.Some? ==> input.now - lastOrderAt.value >= config.risk.cooldownSeconds as real)
  {
    SpreadExactly(input.quote, intent.outcome, config.risk.maxSpreadCents);
    EdgeExactly(intent, config.strategy.minEdgeBps);
  }

  /** Risk approves exactly what may be sent. */
  lemma VerdictExactly(config: AppConfig, b: Books, intent: Intent, input: Input)
    requires config.Valid()
    ensures Verdict(config, b, intent, input) == Approved <==> MaySend(config, b, intent, input)
  {
    if intent.IsBuy() {
      var ticker := input.quote.ticker;
      SoftChecksExactly(config, Snapshot(b, ticker), intent, input, LastOrderAt(b.journal, ticker));
      MoneyExactly(config.risk, b, intent, ticker);
      CooldownExactly(b.journal, ticker, input.now, config.risk.cooldownSeconds);
    }
  }

  // ----- What becomes of an order that is sent ---------------------------------------------------------

  /** A taker buys at the ask plus slippage up to 99 cents, and sells at the bid less slippage down to one. */
  predicate IsTouchPrice(paper: PaperConfig, intent: Intent, quote: Quote, price: real) {
    var slip := paper.slippageCents as real / 100.0;
    if intent.action == Buy then IsLeast(price, AskOf(quote, intent.outcome) + slip, 0.99)
    else IsGreatest(price, BidOf(quote, intent.outcome) - slip, 0.01)
  }

  lemma TouchPriceExactly(paper: PaperConfig, intent: Intent, quote: Quote, price: real)
    ensures IsTouchPrice(paper, intent, quote, price) <==> price == TakerPrice(paper, intent, quote)
  {
  }

  /** The order's limit reaches the price. */
  predicate LimitReaches(intent: Intent, price: real) {
    if intent.action == Buy then price <= intent.limitPrice else intent.limitPrice <= price
  }

  /** The far side of the book has reached the order's limit. */
  predicate BookReaches(intent: Intent, quote: Quote) {
    if intent.action == Buy then AskOf(quote, intent.outcome) <= intent.limitPrice
    else intent.limitPrice <= BidOf(quote, intent.outcome)
  }

  /** The row an order leaves: makers rest unless they cross; takers rest unless their limit reaches the touch
      price, and otherwise trade there or are rejected. */
  ghost predicate LeavesRowOf(config: AppConfig, intent: Intent, quote: Quote, row: Row) {
    && row.intent == intent
    && (intent.style == Maker ==> row.status == if BookReaches(intent, quote) then Rejected else Resting)
    && (intent.style == Taker ==>
          forall price :: IsTouchPrice(config.paper, intent, quote, price) ==>
            && (row.status == Resting <==> !LimitReaches(intent, price))
            && (row.status != Resting ==> row.status == Rejected || row.status == Filled)
            && (row.status == Filled ==> row.filledCount == intent.count && row.averageFillPrice == Some(price)))
  }

  lemma PlacedResult(config: AppConfig, b: Books, intent: Intent, quote: Quote)
    ensures var result := Place(config, b, intent, quote).1;
      && result.clientOrderId == intent.clientOrderId
      && (intent.style == Maker ==> result.status == if BookReaches(intent, quote) then Rejected else Resting)
      && (intent.style == Taker ==>
            forall price :: IsTouchPrice(config.paper, intent, quote, price) ==>
              && (result.status == Resting <==> !LimitReaches(intent, price))
              && (result.status != Resting ==> result.status == Rejected || result.status == Filled)
              && (result.status == Filled ==> result.filledCount == intent.count && result.averageFillPrice == Some(price)))
  {
    forall price | IsTouchPrice(config.paper, intent, quote, price)
      ensures price == TakerPrice(config.paper, intent, quote)
    {
      TouchPriceExactly(config.paper, intent, quote, price);
    }
  }

  lemma PlacedQuietly(config: AppConfig, b: Books, intent: Intent, quote: Quote)
    ensures var (placed, result) := Place(config, b, intent, quote); result.status != Filled ==> placed == b
  {
  }

  lemma LastRowTakesResult(b: Books, intent: Intent, now: real, placed: Books, result: OrderResult)
    requires !Has(b.journal, intent.clientOrderId) && result.clientOrderId == intent.clientOrderId
    requires placed.journal == b.journal + [PendingRow(intent, now)]
    ensures Recorded(placed, result).journal == b.journal + [WithResult(PendingRow(intent, now), result)]
    ensures SameLedger(Recorded(placed, result), placed)
  {
    assert placed.journal[|b.journal|].intent.clientOrderId == intent.clientOrderId;
    assert Find(placed.journal, intent.clientOrderId) == |b.journal|;
  }

  /** A refused intent ends as one rejected row, and the ledger stays. */
  lemma RefusedIsRejected(config: AppConfig, b: Books, intent: Intent, input: Input)
    requires config.Valid() && !Has(b.journal, intent.clientOrderId) && !MaySend(config, b, intent, input)
    ensures Submit(config, b, intent, input) == b.(journal := b.journal + [PendingRow(intent, input.now).(status := Rejected)])
  {
    VerdictExactly(config, b, intent, input);
    var journal := b.journal + [PendingRow(intent, input.now)];
    assert journal[|b.journal|].intent.clientOrderId == intent.clientOrderId;
    assert Find(journal, intent.clientOrderId) == |b.journal|;
  }

  /** An intent that may be sent ends as one row with what became of it; only a fill moves the ledger. */
  lemma SentIsPlaced(config: AppConfig, b: Books, intent: Intent, input: Input)
    requires config.Valid() && !Has(b.journal, intent.clientOrderId) && MaySend(config, b, intent, input)
    ensures var after := Submit(config, b, intent, input);
      && |after.journal| == |b.journal| + 1 && after.journal[..|b.journal|] == b.journal
      && LeavesRowOf(config, intent, input.quote, after.journal[|b.journal|])
      && (after.journal[|b.journal|].status != Filled ==> SameLedger(b, after))
  {
    VerdictExactly(config, b, intent, input);
    var journaled := RecordIntent(b, intent, input.now).value;
    var (placed, result) := Place(config, journaled, intent, input.quote);
    PlaceKeepsJournal(config, journaled, intent, input.quote);
    PlacedResult(config, journaled, intent, input.quote);
    PlacedQuietly(config, journaled, intent, input.quote);
    LastRowTakesResult(b, intent, input.now, placed, result);
  }

  // ----- One cycle ----------------------------------------------------------------------------------------

  /** A cycle is reconciliation, and one new row for a proposal under a fresh ID: rejected and without effect unless
      it may be sent. */
  lemma CycleSendsExactly(config: AppConfig, b: Books, input: Input)
    requires config.Valid()
    ensures var current, after := Reconciled(config, b, input.quote), Cycle(config, b, input);
      var proposal := Proposal(config, current, input);
      if proposal.NoTrade? || Has(current.journal, proposal.intent.clientOrderId) then after == current
      else
        && |after.journal| == |current.journal| + 1 && after.journal[..|current.journal|] == current.journal
        && var row := after.journal[|current.journal|];
          && row.intent == proposal.intent
          && if MaySend(config, current, row.intent, input) then
               LeavesRowOf(config, row.intent, input.quote, row) && (row.status != Filled ==> SameLedger(current, after))
             else row.status == Rejected && SameLedger(current, after)
  {
    var current := Reconciled(config, b, input.quote);
    var proposal := Proposal(config, current, input);
    if proposal.Trade? && !Has(current.journal, proposal.intent.clientOrderId) {
      if MaySend(config, current, proposal.intent, input) {
        SentIsPlaced(config, current, proposal.intent, input);
      } else {
        RefusedIsRejected(config, current, proposal.intent, input);
      }
    }
  }

  /** The new row of a cycle, if it has one. */
  ghost predicate NewRow(current: Books, after: Books, row: Row) {
    |after.journal| == |current.journal| + 1 && row == after.journal[|current.journal|]
  }

  /** With the kill switch on the cycle's own intent is rejected, and the ledger moves by reconciliation only. */
  lemma KillSwitchStopsOrders(config: AppConfig, b: Books, input: Input)
    requires config.Valid() && input.killSwitch
    ensures var current, after := Reconciled(config, b, input.quote), Cycle(config, b, input);
      SameLedger(current, after) && forall row :: NewRow(current, after, row) ==> row.status == Rejected
  {
    CycleSendsExactly(config, b, input);
  }

  /** Once the day's loss is at its limit no new buy rests or fills. */
  lemma DailyLossStopsBuys(config: AppConfig, b: Books, input: Input)
    requires config.Valid() && Reconciled(config, b, input.quote).realizedCents <= -config.risk.maxDailyLossCents
    ensures var current, after := Reconciled(config, b, input.quote), Cycle(config, b, input);
      forall row :: NewRow(current, after, row) && row.intent.action == Buy ==> row.status == Rejected && SameLedger(current, after)
  {
    CycleSendsExactly(config, b, input);
  }

  /** A buy that a cycle puts to rest or fills met every limit, on spread and depth, on edge and price, on money,
      and on the time since the market's last order. */
  lemma PlacedBuyMetItsLimits(config: AppConfig, b: Books, input: Input, row: Row)
    requires config.Valid() && NewRow(Reconciled(config, b, input.quote), Cycle(config, b, input), row)
    requires row.intent.action == Buy && (row.status == Resting || row.status == Filled)
    ensures MayBuy(config, Reconciled(config, b, input.quote), row.intent, input)
  {
    CycleSendsExactly(config, b, input);
  }
}
