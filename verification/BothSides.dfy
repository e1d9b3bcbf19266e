/** Runs of the paper machine that end with both sides of one market held. */
module BothSides {
  import opened Wrappers
  import opened Domain
  import opened Config
  import opened Fees
  import opened Sizing
  import opened Strategy
  import opened Risk
  import opened Ledger
  import opened Broker
  import opened Engine
  import opened Quotes
  import opened PaperSteps
  import opened PaperPaths
  import opened PaperLimits
  import opened PaperSides

  // ----- Two bids that an opening account can place ----------------------------------------------

  ghost function LimitCost(config: AppConfig, intent: Intent): int {
    FillCost(intent, intent.limitPrice, FillFee(config.fees, intent, intent.limitPrice))
  }

  /** On the opening account this input leads to this buy, risk approves it, and its limit is below the
      price ceiling. */
  ghost predicate OpeningBid(config: AppConfig, input: Input, intent: Intent)
    requires config.Valid()
  {
    && SaneQuote(input.quote)
    && Proposal(config, Opening(config), input) == Trade(intent)
    && Verdict(config, Opening(config), intent, input) == Approved
    && intent.IsBuy()
    && intent.limitPrice < MAX_PRICE
  }

  /** A bid for each side of one market, a cooldown apart, that the opening cash pays for together. */
  ghost predicate OpposingBids(config: AppConfig, first: Input, second: Input, yes: Intent, no: Intent)
    requires config.Valid()
  {
    && OpeningBid(config, first, yes) && OpeningBid(config, second, no)
    && yes.outcome.Yes? && no.outcome.No? && yes.ticker == no.ticker
    && yes.clientOrderId != no.clientOrderId
    && second.now - first.now >= config.risk.cooldownSeconds as real
    && !Touched(yes, second.quote)
    && LimitCost(config, yes) + LimitCost(config, no) <= config.paper.startingBalanceCents
  }

  function RestingRow(intent: Intent, now: real): Row {
    WithResult(PendingRow(intent, now), Unexecuted(intent, Status.Resting))
  }

  /** Where orders can rest, an approved buy below the price ceiling does. */
  lemma BidRests(config: AppConfig, b: Books, input: Input, intent: Intent)
    requires config.Valid() && CanRest(config) && SaneQuote(input.quote)
    requires Proposal(config, b, input) == Trade(intent) && intent.IsBuy() && intent.limitPrice < MAX_PRICE
    requires Verdict(config, b, intent, input) == Approved && !Has(b.journal, intent.clientOrderId)
    ensures Submit(config, b, intent, input) == b.(journal := b.journal + [RestingRow(intent, input.now)])
  {
    var ticker := input.quote.ticker;
    IntentAnatomy(config, input.signal, input.quote, Snapshot(b, ticker), PaperPosition(b.positions, ticker),
                  input.clientOrderId, input.now, intent);
    PlacedBidRests(config, RecordIntent(b, intent, input.now).value, intent, input.quote);
    RestIsRecorded(b, intent, input.now);
  }

  lemma RestIsRecorded(b: Books, intent: Intent, now: real)
    requires !Has(b.journal, intent.clientOrderId)
    ensures Recorded(RecordIntent(b, intent, now).value, Unexecuted(intent, Status.Resting))
         == b.(journal := b.journal + [RestingRow(intent, now)])
  {
    var journal := b.journal + [PendingRow(intent, now)];
    assert journal[|b.journal|].intent.clientOrderId == intent.clientOrderId;
    assert Find(journal, intent.clientOrderId) == |b.journal|;
  }

  lemma PlacedBidRests(config: AppConfig, b: Books, intent: Intent, quote: Quote)
    requires config.Valid() && CanRest(config) && SaneQuote(quote) && intent.IsBuy() && intent.limitPrice < MAX_PRICE
    requires intent.style == config.strategy.orderStyle && BuyPrice(config.strategy, quote, intent.outcome) == Some(intent.limitPrice)
    ensures Place(config, b, intent, quote) == (b, Unexecuted(intent, Status.Resting))
  {
  }

  /** The strategy looks at the ledger, not at the journal. */
  lemma JournalDoesNotDecide(config: AppConfig, b: Books, journal: seq<Row>, input: Input)
    requires config.Valid()
    ensures Proposal(config, b.(journal := journal), input) == Proposal(config, b, input)
  {
  }

  lemma SecondVerdict(config: AppConfig, b: Books, row: Row, intent: Intent, input: Input)
    requires b.journal == [] && intent.IsBuy() && config.risk.maxOpenOrders >= 2
    requires Verdict(config, b, intent, input) == Approved
    requires row.status == Status.Resting && input.now - row.createdAt >= config.risk.cooldownSeconds as real
    ensures Verdict(config, b.(journal := [row]), intent, input) == Approved
  {
    assert [row][..0] == [];
    assert OpenOrderCount([row]) == 1;
    assert LastOrderAt([row], input.quote.ticker) in {None, Some(row.createdAt)};
  }

  lemma RestingAlone(row: Row, ticker: string)
    requires row.status == Status.Resting && row.intent.ticker == ticker
    ensures RestingIntents([row], ticker) == [row.intent]
  {
    assert [row][..0] == [];
  }

  lemma ReconcileAlone(config: AppConfig, b: Books, intent: Intent, quote: Quote)
    ensures Reconcile(config, b, [intent], quote) == ReconcileOne(config, b, intent, quote)
  {
    assert [intent][..0] == [];
  }

  lemma FirstBid(config: AppConfig, first: Input, yes: Intent)
    requires config.Valid() && CanRest(config) && OpeningBid(config, first, yes)
    ensures Cycle(config, Opening(config), first) == Opening(config).(journal := [RestingRow(yes, first.now)])
  {
    BidRests(config, Opening(config), first, yes);
    assert Reconciled(config, Opening(config), first.quote) == Opening(config);
  }

  lemma SecondBid(config: AppConfig, first: Input, second: Input, yes: Intent, no: Intent)
    requires config.Valid() && CanRest(config) && config.risk.maxOpenOrders >= 2
    requires OpposingBids(config, first, second, yes, no)
    ensures Cycle(config, Opening(config).(journal := [RestingRow(yes, first.now)]), second)
         == Opening(config).(journal := [RestingRow(yes, first.now), RestingRow(no, second.now)])
  {
    var row := RestingRow(yes, first.now);
    var b := Opening(config).(journal := [row]);
    BidTicker(config, second, no);
    RestingAlone(row, second.quote.ticker);
    ReconcileAlone(config, b, yes, second.quote);
    assert Reconciled(config, b, second.quote) == b;
    JournalDoesNotDecide(config, Opening(config), [row], second);
    SecondVerdict(config, Opening(config), row, no, second);
    BidRests(config, b, second, no);
  }

  lemma BidTicker(config: AppConfig, input: Input, intent: Intent)
    requires config.Valid() && OpeningBid(config, input, intent)
    ensures intent.ticker == input.quote.ticker && intent.count > 0 && MIN_PRICE <= intent.limitPrice
    ensures intent.clientOrderId == input.clientOrderId
  {
    var ticker := input.quote.ticker;
    IntentAnatomy(config, input.signal, input.quote, Snapshot(Opening(config), ticker), PaperPosition(map[], ticker),
                  input.clientOrderId, input.now, intent);
  }

  // ----- Both fill ------------------------------------------------------------------------------------

  /** The book once it offers the intent's side at its limit, with a bid of a cent for that side. */
  function OfferedAtLimit(intent: Intent): Quote {
    var limit := intent.limitPrice;
    if intent.outcome.Yes? then Quote(intent.ticker, CENT, limit, 1.0 - limit, 1.0 - CENT, 1.0, 1.0, 0.0, "open", None)
    else Quote(intent.ticker, 1.0 - limit, 1.0 - CENT, CENT, limit, 1.0, 1.0, 0.0, "open", None)
  }

  /** A cycle on that book whose signal is for another market: it only reconciles. */
  function Watches(intent: Intent): Input {
    Input(Signal(intent.ticker + "!", 0.5, 0.0, ""), OfferedAtLimit(intent), "", 0.0, false)
  }

  lemma WatchingReconciles(config: AppConfig, b: Books, intent: Intent)
    requires config.Valid()
    ensures Cycle(config, b, Watches(intent)) == Reconciled(config, b, OfferedAtLimit(intent))
  {
    assert |intent.ticker + "!"| != |intent.ticker|;
  }

  ghost predicate Bought(config: AppConfig, b: Books, after: Books, intent: Intent) {
    && after.balanceCents == b.balanceCents - LimitCost(config, intent)
    && (intent.ticker, intent.outcome) in after.positions
    && b.positions.Keys <= after.positions.Keys
  }

  /** A touched resting buy that cash covers is bought, and only its own row changes. */
  lemma TouchedBuyFills(config: AppConfig, b: Books, i: nat, quote: Quote)
    requires UniqueIds(b.journal) && i < |b.journal|
    requires b.journal[i].intent.IsBuy() && Touched(b.journal[i].intent, quote)
    requires b.balanceCents >= LimitCost(config, b.journal[i].intent)
    ensures var after := ReconcileOne(config, b, b.journal[i].intent, quote);
      && Bought(config, b, after, b.journal[i].intent)
      && after.journal == b.journal[i := FilledRow(config.fees, b.journal[i], b.journal[i].intent.limitPrice)]
  {
    var intent := b.journal[i].intent;
    SettledIs(config.fees, b, i, intent.limitPrice);
    AppliedJournal(config.fees, b, intent, intent.limitPrice);
  }

  lemma RestingBoth(yes: Row, no: Row, ticker: string)
    requires yes.intent.ticker == ticker && no.intent.ticker == ticker && no.status == Status.Resting
    ensures yes.status == Status.Resting ==> RestingIntents([yes, no], ticker) == [yes.intent, no.intent]
    ensures yes.status == Filled ==> RestingIntents([yes, no], ticker) == [no.intent]
  {
    var both, one := [yes, no], [yes];
    assert both[..1] == one && one[..0] == [];
    assert RestingIntents(one, ticker) == if yes.status == Status.Resting then [yes.intent] else [];
    assert both[1] == no;
  }

  lemma YesFills(config: AppConfig, b: Books, yes: Row, no: Row)
    requires config.Valid() && b.journal == [yes, no] && UniqueIds(b.journal)
    requires yes.status == Status.Resting && no.status == Status.Resting && yes.intent.ticker == no.intent.ticker
    requires yes.intent.IsBuy() && no.intent.IsBuy() && yes.intent.outcome.Yes? && no.intent.outcome.No?
    requires no.intent.limitPrice < MAX_PRICE && b.balanceCents >= LimitCost(config, yes.intent)
    ensures var after := Cycle(config, b, Watches(yes.intent));
      && Bought(config, b, after, yes.intent)
      && after.journal == [FilledRow(config.fees, yes, yes.intent.limitPrice), no]
  {
    var quote := OfferedAtLimit(yes.intent);
    WatchingReconciles(config, b, yes.intent);
    RestingBoth(yes, no, quote.ticker);
    assert [yes.intent, no.intent][..1] == [yes.intent];
    ReconcileAlone(config, b, yes.intent, quote);
    assert b.journal[0] == yes;
    TouchedBuyFills(config, b, 0, quote);
    assert !Touched(no.intent, quote);
  }

  lemma NoFills(config: AppConfig, b: Books, yes: Row, no: Row)
    requires config.Valid() && b.journal == [yes, no] && UniqueIds(b.journal)
    requires yes.status == Filled && no.status == Status.Resting && yes.intent.ticker == no.intent.ticker
    requires no.intent.IsBuy() && b.balanceCents >= LimitCost(config, no.intent)
    ensures Bought(config, b, Cycle(config, b, Watches(no.intent)), no.intent)
  {
    var quote := OfferedAtLimit(no.intent);
    WatchingReconciles(config, b, no.intent);
    RestingBoth(yes, no, quote.ticker);
    ReconcileAlone(config, b, no.intent, quote);
    assert b.journal[1] == no;
    TouchedBuyFills(config, b, 1, quote);
  }

  // ----- The run ----------------------------------------------------------------------------------------

  lemma RunSnoc(config: AppConfig, steps: seq<Step>, input: Input)
    requires config.Valid() && SaneRun(steps) && SaneQuote(input.quote)
    ensures SaneRun(steps + [Process(input)])
    ensures Run(config, steps + [Process(input)]) == Cycle(config, Run(config, steps), input)
  {
    assert (steps + [Process(input)])[..|steps|] == steps;
  }

  lemma BothBid(config: AppConfig, first: Input, second: Input, yes: Intent, no: Intent) returns (steps: seq<Step>)
    requires config.Valid() && CanRest(config) && config.risk.maxOpenOrders >= 2
    requires OpposingBids(config, first, second, yes, no)
    ensures SaneRun(steps)
    ensures Run(config, steps) == Opening(config).(journal := [RestingRow(yes, first.now), RestingRow(no, second.now)])
  {
    var none: seq<Step> := [];
    RunSnoc(config, none, first);
    FirstBid(config, first, yes);
    RunSnoc(config, none + [Process(first)], second);
    SecondBid(config, first, second, yes, no);
    steps := none + [Process(first)] + [Process(second)];
  }

  lemma WatchIsSane(intent: Intent)
    requires CENT <= intent.limitPrice <= 1.0
    ensures SaneQuote(Watches(intent).quote) && Watches(intent).quote.Uncrossed() && Quotable(Watches(intent).quote)
  {
    MirroredIsQuotable(Watches(intent).quote);
  }

  /** Two opposite bids resting side by side fill on the books that reach one limit after the other. */
  lemma RestingBidsBothFill(config: AppConfig, b: Books, yes: Row, no: Row)
    requires config.Valid() && b.journal == [yes, no] && UniqueIds(b.journal)
    requires yes.status == Status.Resting && no.status == Status.Resting && yes.intent.ticker == no.intent.ticker
    requires yes.intent.IsBuy() && no.intent.IsBuy() && yes.intent.outcome.Yes? && no.intent.outcome.No?
    requires no.intent.limitPrice < MAX_PRICE && LimitCost(config, no.intent) >= 0
    requires b.balanceCents >= LimitCost(config, yes.intent) + LimitCost(config, no.intent)
    ensures !OneSided(Cycle(config, Cycle(config, b, Watches(yes.intent)), Watches(no.intent)), yes.intent.ticker)
  {
    assert b.journal[0] == yes && b.journal[1] == no;
    YesFills(config, b, yes, no);
    NoFills(config, Cycle(config, b, Watches(yes.intent)), FilledRow(config.fees, yes, yes.intent.limitPrice), no);
  }

  lemma WatchBoth(config: AppConfig, steps: seq<Step>, yes: Intent, no: Intent) returns (longer: seq<Step>)
    requires config.Valid() && SaneRun(steps) && CENT <= yes.limitPrice <= 1.0 && CENT <= no.limitPrice <= 1.0
    ensures SaneRun(longer)
    ensures Run(config, longer) == Cycle(config, Cycle(config, Run(config, steps), Watches(yes)), Watches(no))
  {
    WatchIsSane(yes);
    WatchIsSane(no);
    RunSnoc(config, steps, Watches(yes));
    RunSnoc(config, steps + [Process(Watches(yes))], Watches(no));
    longer := steps + [Process(Watches(yes))] + [Process(Watches(no))];
  }

  /** Opposing bids that can rest together both fill, one after the other. */
  lemma OpposingBidsBothFill(config: AppConfig, first: Input, second: Input, yes: Intent, no: Intent) returns (steps: seq<Step>)
    requires config.Valid() && CanRest(config) && config.risk.maxOpenOrders >= 2
    requires OpposingBids(config, first, second, yes, no)
    ensures SaneRun(steps) && !OneSided(Run(config, steps), yes.ticker)
  {
    var two := BothBid(config, first, second, yes, no);
    BidTicker(config, first, yes);
    BidTicker(config, second, no);
    CostOfBid(config, no);
    steps := WatchBoth(config, two, yes, no);
    RestingBidsBothFill(config, Run(config, two), RestingRow(yes, first.now), RestingRow(no, second.now));
  }

  lemma CostOfBid(config: AppConfig, intent: Intent)
    requires config.Valid() && intent.count > 0 && 0.0 <= intent.limitPrice <= 1.0
    ensures LimitCost(config, intent) >= 0
  {
    CostNonNegative(config.fees, intent, intent.limitPrice);
  }

  /** For every configuration under which an opening account can bid for both sides of a market: no run ever
      holds both sides if and only if no order can rest or only one may be open. */
  lemma NeverBothExactly(config: AppConfig, first: Input, second: Input, yes: Intent, no: Intent)
    requires config.Valid() && OpposingBids(config, first, second, yes, no)
    ensures (forall steps :: SaneRun(steps) ==> NeverBoth(Run(config, steps))) <==> OneOrderAtATime(config)
  {
    if OneOrderAtATime(config) {
      forall steps | SaneRun(steps)
        ensures NeverBoth(Run(config, steps))
      {
        NeverHoldsBoth(config, steps);
      }
    } else {
      var steps := OpposingBidsBothFill(config, first, second, yes, no);
      assert !NeverBoth(Run(config, steps));
    }
  }

  // ----- A desk that does ---------------------------------------------------------------------------------

  /** A maker's configuration: one contract an order, no maker fee. */
  function Desk(): AppConfig {
    AppConfig(StrategyConfig(1, 0.01, 0.99, 1000, 1, Maker, 10000),
              RiskConfig(1, 100, 100, 100, 100, 10, 100, 0, 1, 0),
              FeeConfig(0.07, 0.0), PaperConfig(10000, 0), SizingConfig(1.0, 0.5, 0.0, 1.0))
  }

  /** A wide book; a maker joins either side one cent above its bid. */
  function Wide(): Quote {
    Quote("m", 0.40, 0.60, 0.40, 0.60, 10.0, 10.0, 0.0, "open", None)
  }

  /** A signal that favours `side` with probability 0.8, on the wide book. */
  function Favours(side: Outcome): Input {
    Input(Signal("m", if side.Yes? then 0.8 else 0.2, 0.0, "v"), Wide(), if side.Yes? then "a" else "b", 0.0, false)
  }

  function BidFor(side: Outcome): Intent {
    Intent(Favours(side).clientOrderId, "m", side, 1, 0.41, Favours(side).signal.fairProbability, Buy, Maker)
  }

  lemma DeskIsValid()
    ensures Desk().Valid()
  {
  }

  lemma TargetIsOne(side: Outcome)
    ensures Desk().Valid()
    ensures Target(Desk(), Favours(side).signal.fairProbability, 10000, 0, None, side, 0.41) == 1
  {
    DeskIsValid();
    var cost := EffectiveBuyPrice(0.41, 0.0);
    assert cost == 0.41;
    var sizing := Desk().sizing;
    var kelly := Kelly(0.8, 0.41);
    assert kelly * 0.59 == 0.39;
    assert kelly > 0.5;
    assert StakeFraction(0.8, 0.41, sizing) == 0.5;
    assert StakeCents(10000, 0.5) == 5000.0;
    var contracts := StakeContracts(5000.0, 0.41);
    assert contracts * 41.0 == 5000.0;
    assert PerContractCents(0.41) == 41;
  }

  lemma CandidateAt41(side: Outcome)
    ensures BestCandidate(Desk().strategy, Desk().fees, Favours(side).signal.fairProbability, Wide())
         == Some(Candidate(side, 0.41, 3900))
  {
    assert BuyPrice(Desk().strategy, Wide(), Yes) == Some(0.41);
    assert BuyPrice(Desk().strategy, Wide(), No) == Some(0.41);
    assert BuyEdgeBps(Desk().strategy, Desk().fees, Favours(side).signal.fairProbability, side, 0.41) == 3900;
    assert BuyEdgeBps(Desk().strategy, Desk().fees, Favours(side).signal.fairProbability, side.Opposite(), 0.41) == -2100;
  }

  lemma DecidesBid(portfolio: Portfolio, side: Outcome)
    requires Desk().Valid() && portfolio.balanceCents == 10000 && portfolio.marketExposureCents == 0
    ensures Decide(Desk(), Favours(side).signal, Wide(), portfolio, Flat("m"), Favours(side).clientOrderId, 0.0) == Trade(BidFor(side))
  {
    TargetIsOne(side);
    CandidateAt41(side);
  }

  lemma ProposesBid(side: Outcome)
    ensures Desk().Valid()
    ensures Proposal(Desk(), Opening(Desk()), Favours(side)) == Trade(BidFor(side))
  {
    DeskIsValid();
    assert PaperPosition(map[], "m") == Flat("m");
    assert MarketExposure(map[], "m") == 0;
    DecidesBid(Snapshot(Opening(Desk()), "m"), side);
  }

  lemma ApprovesBid(side: Outcome)
    ensures Verdict(Desk(), Opening(Desk()), BidFor(side), Favours(side)) == Approved
  {
    assert BidFor(side).MaxLossCents() == 41;
    assert BidFor(side).EdgeBps() == 3900;
    assert Wide().SpreadCents(side) == 20;
    assert TotalExposure(map[]) == 0;
  }

  lemma BidCosts41(side: Outcome)
    ensures FillFee(Desk().fees, BidFor(side), 0.41) == 0
    ensures LimitCost(Desk(), BidFor(side)) == 41
  {
  }

  lemma DeskBids(side: Outcome)
    ensures Desk().Valid() && OpeningBid(Desk(), Favours(side), BidFor(side))
    ensures LimitCost(Desk(), BidFor(side)) == 41 && Quotable(Wide())
  {
    MirroredIsQuotable(Wide());
    ProposesBid(side);
    ApprovesBid(side);
    BidCosts41(side);
  }

  lemma DeskBidsOppose()
    ensures Desk().Valid()
    ensures OpposingBids(Desk(), Favours(Yes), Favours(No), BidFor(Yes), BidFor(No))
  {
    DeskBids(Yes);
    DeskBids(No);
    assert !Touched(BidFor(Yes), Wide());
  }

  /** So the ledger's own comment, that an account never holds both sides, fails for this desk. */
  lemma DeskHoldsBothSides() returns (steps: seq<Step>)
    ensures Desk().Valid() && SaneRun(steps) && !OneSided(Run(Desk(), steps), "m")
  {
    DeskBidsOppose();
    steps := OpposingBidsBothFill(Desk(), Favours(Yes), Favours(No), BidFor(Yes), BidFor(No));
  }
}
