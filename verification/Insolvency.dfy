/** Above the fee bound some configuration has a run that ends in debt. */
module Insolvency {
  import opened Wrappers
  import opened RealArithmetic
  import opened Domain
  import opened Config
  import opened Fees
  import opened Sizing
  import opened Strategy
  import opened Risk
  import opened Quotes
  import opened Ledger
  import opened Broker
  import opened Engine
  import opened PaperSteps
  import opened PaperPaths
  import opened BothSides
  import opened Cash

  /** Two cents to start with, one contract an order, and any edge will do. */
  function Shop(rate: real): AppConfig {
    AppConfig(StrategyConfig(1, 0.00001, 0.9999, 1000, 0, Taker, 0),
              RiskConfig(1, 1, 1, 1, 100, 1, 100, 0, 1, 0),
              FeeConfig(rate, rate), PaperConfig(2, 0), SizingConfig(1.0, 1.0, 0.0, 1.0))
  }

  /** A book with one bid on each side that leave no spread. */
  function Locked(price: real): Quote {
    Quote("m", price, price, 1.0 - price, 1.0 - price, 1.0, 1.0, 0.0, "open", None)
  }

  function BuyInput(): Input {
    Input(Signal("m", 0.999, 0.0, "v"), Locked(CENT), "a", 0.0, false)
  }

  function SellInput(price: real): Input {
    Input(Signal("m", 0.00001, 0.0, "v"), Locked(price), "b", 0.0, false)
  }

  function BuyOne(): Intent {
    Intent("a", "m", Yes, 1, CENT, 0.999, Buy, Taker)
  }

  function SellOne(price: real): Intent {
    Intent("b", "m", Yes, 1, price, 0.00001, Sell, Taker)
  }

  // ----- The buy ----------------------------------------------------------------------------

  lemma CentFee(rate: real)
    requires 0.0 < rate < 1.0
    ensures FeePerContract(CENT, rate) == rate * 0.0099
    ensures OrderFeeCents(1, CENT, rate) == 1
    ensures CENT < EffectiveBuyPrice(CENT, rate) < 0.0199
  {
    assert CENT * (1.0 - CENT) == 0.0099;
    assert FeePerContract(CENT, rate) * 1.0 * 100.0 == rate * 0.99;
  }

  /** Nearly the whole two cents are staked, which is more than one contract costs. */
  lemma StakeBuysOne(cost: real, config: SizingConfig)
    requires CENT < cost < 0.0199 && config == SizingConfig(1.0, 1.0, 0.0, 1.0)
    ensures StakedContracts(0.999, cost, 2, config) >= 1
  {
    var kelly := Kelly(0.999, cost);
    KellyAbove(kelly, cost);
    var fraction := StakeFraction(0.999, cost, config);
    assert fraction >= 0.998;
    var stake := StakeCents(2, fraction);
    assert stake >= 1.996;
    QuotientMonotone(1.0, cost * 100.0, cost * 100.0, StakeContracts(stake, cost), stake, cost * 100.0);
  }

  lemma KellyAbove(kelly: real, cost: real)
    requires kelly * (1.0 - cost) == 0.999 - cost && 0.0 < cost < 0.0199
    ensures kelly >= 0.998
  {
    if kelly < 0.998 {
      ProductPositive(0.998 - kelly, 1.0 - cost, (0.998 - kelly) * (1.0 - cost));
    }
  }

  lemma ShopIsValid(rate: real)
    requires 0.0 < rate < 1.0
    ensures Shop(rate).Valid()
  {
  }

  lemma TargetIsOne(rate: real)
    requires 0.0 < rate < 1.0
    ensures Shop(rate).Valid()
    ensures Target(Shop(rate), 0.999, 2, 0, None, Yes, CENT) == 1
  {
    ShopIsValid(rate);
    CentFee(rate);
    StakeBuysOne(EffectiveBuyPrice(CENT, rate), Shop(rate).sizing);
    assert SizePosition(0.999, CENT, rate, 2, Shop(rate).sizing, None).contracts >= 1;
    assert PerContractCents(CENT) == 1;
  }

  lemma YesIsBest(rate: real)
    requires 0.0 < rate < 1.0
    ensures var best := BestCandidate(Shop(rate).strategy, Shop(rate).fees, 0.999, Locked(CENT));
      best.Some? && best.value.outcome.Yes? && best.value.price == CENT && best.value.netEdgeBps >= 1
  {
    CentFee(rate);
    FeeBounds(1.0 - CENT, rate);
    assert BuyPrice(Shop(rate).strategy, Locked(CENT), Yes) == Some(CENT);
    assert BuyPrice(Shop(rate).strategy, Locked(CENT), No) == Some(1.0 - CENT);
    assert BuyEdgeBps(Shop(rate).strategy, Shop(rate).fees, 0.999, No, 1.0 - CENT) <= 0;
    assert BuyEdgeBps(Shop(rate).strategy, Shop(rate).fees, 0.999, Yes, CENT) >= 1;
  }

  lemma ProposesBuy(rate: real)
    requires 0.0 < rate < 1.0
    ensures Shop(rate).Valid()
    ensures Proposal(Shop(rate), Opening(Shop(rate)), BuyInput()) == Trade(BuyOne())
  {
    TargetIsOne(rate);
    YesIsBest(rate);
    assert PaperPosition(map[], "m") == Flat("m");
    assert MarketExposure(map[], "m") == 0;
  }

  lemma BuyFacts()
    ensures BuyOne().MaxLossCents() == 1 && BuyOne().EdgeBps() >= 1 && Locked(CENT).SpreadCents(Yes) == 0
  {
    assert (0.999 - CENT) * 10000.0 == 9890.0;
  }

  lemma ApprovesBuy(rate: real)
    ensures Verdict(Shop(rate), Opening(Shop(rate)), BuyOne(), BuyInput()) == Approved
  {
    BuyFacts();
    var b := Opening(Shop(rate));
    assert Snapshot(b, "m") == Portfolio(2, 0, 0, 0, 0);
    PassesShop(BuyOne(), Locked(CENT), Portfolio(2, 0, 0, 0, 0), Shop(rate));
  }

  lemma PassesShop(intent: Intent, quote: Quote, portfolio: Portfolio, config: AppConfig)
    requires intent.IsBuy() && intent.count == 1 && intent.limitPrice == CENT && intent.MaxLossCents() == 1 && intent.EdgeBps() >= 1
    requires quote.IsOpen() && quote.SpreadCents(intent.outcome) == 0 && quote.AskSize(intent.outcome) == 1.0
    requires portfolio == Portfolio(2, 0, 0, 0, 0)
    requires config.risk == RiskConfig(1, 1, 1, 1, 100, 1, 100, 0, 1, 0) && config.strategy.minEdgeBps == 1
    ensures Judge(intent, quote, portfolio, config, None, false, 0.0) == Approved
  {
  }

  /** All cash is spent on one contract. */
  ghost predicate Spent(b: Books) {
    && b.balanceCents == 0 && b.positions == map[("m", Yes) := Lot(1, 2)]
    && |b.journal| == 1 && b.journal[0].status == Filled && b.journal[0].intent == BuyOne()
  }

  lemma BuyIsCharged(rate: real, b: Books)
    requires 0.0 < rate < 1.0 && b.balanceCents == 2 && b.positions == map[]
    ensures Place(Shop(rate), b, BuyOne(), Locked(CENT))
         == (b.(balanceCents := 0, positions := map[("m", Yes) := Lot(1, 2)]), Executed(BuyOne(), CENT, 1))
  {
    assert TakerPrice(Shop(rate).paper, BuyOne(), Locked(CENT)) == CENT;
    CentFee(rate);
    assert FillCost(BuyOne(), CENT, 1) == 2;
  }

  lemma BuyFills(rate: real)
    requires 0.0 < rate < 1.0
    ensures Spent(Submit(Shop(rate), Opening(Shop(rate)), BuyOne(), BuyInput()))
  {
    ApprovesBuy(rate);
    var journaled := RecordIntent(Opening(Shop(rate)), BuyOne(), 0.0).value;
    BuyIsCharged(rate, journaled);
    assert journaled.journal == [PendingRow(BuyOne(), 0.0)];
    assert journaled.journal[0].intent.clientOrderId == "a";
    assert Find(journaled.journal, "a") == 0;
  }

  lemma AfterBuy(rate: real)
    requires 0.0 < rate < 1.0
    ensures Shop(rate).Valid() && Spent(Cycle(Shop(rate), Opening(Shop(rate)), BuyInput()))
  {
    ProposesBuy(rate);
    BuyFills(rate);
    assert Reconciled(Shop(rate), Opening(Shop(rate)), Locked(CENT)) == Opening(Shop(rate));
  }

  // ----- The sale --------------------------------------------------------------------------------

  /** Even a fee of almost the whole price leaves a hair of edge over a fair value of almost nothing. */
  lemma HairOfEdge(price: real, rate: real)
    requires CENT <= price < 0.02 && RATE_BOUND < rate < 1.0
    ensures price - FeePerContract(price, rate) - 0.00001 >= 0.0
  {
    var square := price * price;
    ProductMonotone(CENT, price, CENT);
    ProductMonotone(CENT, price, price);
    assert square >= 0.0001;
    ProductMonotone(RATE_BOUND, rate, square);
    ProductMonotone(0.0001, square, RATE_BOUND);
    ProductMonotone(rate, 1.0, price);
    FeeSplits(price, rate);
    assert RATE_BOUND * 0.0001 >= 0.00005;
    assert rate * square >= 0.00005;
  }

  lemma FeeSplits(price: real, rate: real)
    requires rate > 0.0
    ensures FeePerContract(price, rate) == rate * price - rate * (price * price)
  {
  }

  lemma SellsTheContract(rate: real, price: real)
    requires CENT <= price < 0.02 && RATE_BOUND < rate < 1.0
    ensures Exit(Shop(rate).strategy, Shop(rate).fees, SellInput(price).signal, Locked(price), Position("m", Some(Yes), 1, 2), 1, "b")
         == Some(SellOne(price))
  {
    HairOfEdge(price, rate);
    assert SellPrice(Shop(rate).strategy, Locked(price), Yes) == Some(price);
    assert SellEdgeBps(Shop(rate).strategy, Shop(rate).fees, 0.00001, Yes, price) >= 0;
  }

  lemma ProposesSale(rate: real, price: real, b: Books)
    requires CENT <= price < 0.02 && RATE_BOUND < rate < 1.0 && Spent(b)
    ensures Shop(rate).Valid()
    ensures Proposal(Shop(rate), b, SellInput(price)) == Trade(SellOne(price))
    ensures Verdict(Shop(rate), b, SellOne(price), SellInput(price)) == Approved
  {
    ShopIsValid(rate);
    assert PaperPosition(b.positions, "m") == Position("m", Some(Yes), 1, 2);
    SellsTheContract(rate, price);
  }

  lemma SaleFills(rate: real, price: real, b: Books)
    requires CENT <= price < 0.02 && RATE_BOUND < rate < 1.0 && Spent(b)
    requires Verdict(Shop(rate), b, SellOne(price), SellInput(price)) == Approved
    ensures !Has(b.journal, "b")
    ensures Submit(Shop(rate), b, SellOne(price), SellInput(price)).balanceCents == Proceeds(1, price, rate)
  {
    var journaled := RecordIntent(b, SellOne(price), 0.0).value;
    assert TakerPrice(Shop(rate).paper, SellOne(price), Locked(price)) == price;
    assert FillFee(Shop(rate).fees, SellOne(price), price) == OrderFeeCents(1, price, rate);
    assert LotOf(journaled.positions, ("m", Yes)) == Lot(1, 2);
    SaleBalance(Shop(rate).fees, journaled, SellOne(price), price);
  }

  lemma SaleBalance(fees: FeeConfig, b: Books, intent: Intent, price: real)
    requires !intent.IsBuy() && intent.count == 1 && LotOf(b.positions, (intent.ticker, intent.outcome)).count >= 1
    ensures Applied(fees, b, intent, price).Ok?
    ensures Settled(fees, b, intent, price).balanceCents == b.balanceCents + Proceeds(1, price, fees.RateFor(intent.style))
  {
  }

  lemma AfterSale(rate: real, price: real, b: Books)
    requires CENT <= price < 0.02 && RATE_BOUND < rate < 1.0 && Spent(b)
    ensures Shop(rate).Valid()
    ensures Cycle(Shop(rate), b, SellInput(price)).balanceCents == Proceeds(1, price, rate)
  {
    ProposesSale(rate, price, b);
    assert b.journal[..0] == [] && RestingIntents(b.journal, "m") == [];
    assert Reconciled(Shop(rate), b, Locked(price)) == b;
    SaleFills(rate, price, b);
  }

  // ----- The run -----------------------------------------------------------------------------------

  lemma TwoMore(config: AppConfig, steps: seq<Step>, first: Input, second: Input)
    requires config.Valid() && SaneRun(steps) && SaneQuote(first.quote) && SaneQuote(second.quote)
    ensures SaneRun(steps + [Process(first)] + [Process(second)])
    ensures Run(config, steps + [Process(first)] + [Process(second)]) == Cycle(config, Cycle(config, Run(config, steps), first), second)
  {
    RunSnoc(config, steps, first);
    RunSnoc(config, steps + [Process(first)], second);
  }

  lemma NoSteps(config: AppConfig) returns (none: seq<Step>)
    requires config.Valid()
    ensures none == [] && Run(config, none) == Opening(config)
  {
    none := [];
  }

  lemma LockedIsSane(price: real)
    requires 0.0 <= price <= 1.0
    ensures SaneQuote(Locked(price)) && Locked(price).Uncrossed() && Quotable(Locked(price))
  {
    MirroredIsQuotable(Locked(price));
  }

  /** Two cycles over quotes of real books: buy one contract with all cash, and sell it for less than the fee. */
  lemma ShopGoesNegative(rate: real) returns (price: real, steps: seq<Step>)
    requires RATE_BOUND < rate < 1.0
    ensures Shop(rate).Valid() && SaneRun(steps) && steps == [Process(BuyInput()), Process(SellInput(price))]
    ensures Quotable(Locked(CENT)) && Quotable(Locked(price))
    ensures Run(Shop(rate), steps).balanceCents < 0
  {
    price := CostlySale(rate);
    ShopIsValid(rate);
    LockedIsSane(CENT);
    LockedIsSane(price);
    var none := NoSteps(Shop(rate));
    TwoMore(Shop(rate), none, BuyInput(), SellInput(price));
    steps := none + [Process(BuyInput())] + [Process(SellInput(price))];
    AfterBuy(rate);
    AfterSale(rate, price, Cycle(Shop(rate), Opening(Shop(rate)), BuyInput()));
  }

  /** No configuration that charges this rate on every order can run into debt. */
  ghost predicate AlwaysSolvent(rate: real) {
    forall config: AppConfig, steps: seq<Step> ::
      config.Valid() && config.fees == FeeConfig(rate, rate) && SaneRun(steps) ==> Run(config, steps).balanceCents >= 0
  }

  /** For all fee rates: cash never falls below zero, whatever the configuration and the run, if and only if the
      rate is at most 25/49. */
  lemma AlwaysSolventExactly(rate: real)
    requires 0.0 <= rate < 1.0
    ensures AlwaysSolvent(rate) <==> rate <= RATE_BOUND
  {
    if rate <= RATE_BOUND {
      forall config: AppConfig, steps: seq<Step>
        | config.Valid() && config.fees == FeeConfig(rate, rate) && SaneRun(steps)
        ensures Run(config, steps).balanceCents >= 0
      {
        CashNeverNegative(config, steps);
      }
    } else {
      var price, steps := ShopGoesNegative(rate);
      assert Shop(rate).fees == FeeConfig(rate, rate);
    }
  }
}
