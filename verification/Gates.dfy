/** At which prices the sizer and the gates reckon alike. */
module Gates {
  import opened Wrappers
  import opened Domain
  import opened Config
  import opened Fees
  import opened Sizing
  import opened Strategy
  import opened Risk
  import opened Quotes

  // ----- The caps against the gates -------------------------------------------------------------

  /** Whatever fits the sizer's caps at this price passes the gates for the same limits. */
  ghost predicate CapsAgree(price: real) {
    forall risk: RiskConfig, portfolio: Portfolio, intent: Intent ::
      intent.IsBuy() && intent.limitPrice == price && FitsCaps(risk, portfolio, intent) ==>
        NumericGate(intent.count, intent.MaxLossCents(), portfolio, risk) !in {OrderCount, OrderNotional, MarketExposureLimit}
  }

  /** One contract at a price between two cents costs one cent more than the sizer reckons. */
  lemma SubCentUnit(price: real)
    requires price >= CENT
    ensures CentsUp(price * 1.0) == PerContractCents(price) + if WholeCents(price) then 0 else 1
  {
    assert price * 1.0 * 100.0 == price * 100.0;
  }

  /** At whole cents the order's loss is what the caps were reckoned with. */
  lemma WholeCentsPass(risk: RiskConfig, portfolio: Portfolio, intent: Intent)
    requires intent.IsBuy() && intent.limitPrice >= CENT && WholeCents(intent.limitPrice) && FitsCaps(risk, portfolio, intent)
    ensures NumericGate(intent.count, intent.MaxLossCents(), portfolio, risk) !in {OrderCount, OrderNotional, MarketExposureLimit}
  {
    NotionalBound(intent.count, intent.limitPrice);
  }

  /** Between two cents one contract fits a cap of its floor and costs a cent more. */
  lemma SubCentFails(price: real)
    requires price >= CENT && !WholeCents(price)
    ensures !CapsAgree(price)
  {
    SubCentUnit(price);
    var risk, portfolio := OneUnit(PerContractCents(price)), Portfolio(1, 0, 0, 0, 0);
    var intent := Intent("", "", Yes, 1, price, 0.0, Buy, Taker);
    assert FitsCaps(risk, portfolio, intent);
    assert NumericGate(1, intent.MaxLossCents(), portfolio, risk) == OrderNotional;
  }

  lemma CapsAgreeExactly(price: real)
    requires price >= CENT
    ensures CapsAgree(price) <==> WholeCents(price)
  {
    if WholeCents(price) {
      forall risk: RiskConfig, portfolio: Portfolio, intent: Intent
        | intent.IsBuy() && intent.limitPrice == price && FitsCaps(risk, portfolio, intent)
        ensures NumericGate(intent.count, intent.MaxLossCents(), portfolio, risk) !in {OrderCount, OrderNotional, MarketExposureLimit}
      {
        WholeCentsPass(risk, portfolio, intent);
      }
    } else {
      SubCentFails(price);
    }
  }

  // ----- The strategy's own buys ------------------------------------------------------------------

  /** Every buy the engine proposes at this price passes the gates its sizer worked to. */
  ghost predicate BuysAlwaysFit(price: real) {
    forall config: AppConfig, signal: Signal, quote: Quote, portfolio: Portfolio, held: Position, id: string, now: real,
           intent: Intent, lastOrderAt: Option<real>, killSwitch: bool ::
      config.Valid() && Decide(config, signal, quote, portfolio, held, id, now) == Trade(intent)
      && intent.IsBuy() && intent.limitPrice == price ==>
        Judge(intent, quote, portfolio, config, lastOrderAt, killSwitch, now) in AFTER_SIZING
  }

  /** Limits that leave room for one contract of `unit` cents. */
  function OneUnit(unit: int): RiskConfig {
    RiskConfig(1, unit, unit, unit, 1, 1, 0, 0, 1, 0)
  }

  function Tight(price: real): AppConfig {
    AppConfig(StrategyConfig(1, 0.01, 0.999, 1, 0, Taker, 0), OneUnit(PerContractCents(price)),
              FeeConfig(0.0, 0.0), PaperConfig(1, 0), SizingConfig(1.0, 1.0, 0.0, 1.0))
  }

  function Offered(price: real): Quote {
    Quote("m", price, price, 1.0 - price, 1.0 - price, 1.0, 1.0, 0.0, "open", None)
  }

  function Likely(price: real): Signal {
    Signal("m", (1.0 + price) / 2.0, 0.0, "v")
  }

  function OneContract(price: real): Intent {
    Intent("a", "m", Yes, 1, price, Likely(price).fairProbability, Buy, Taker)
  }

  /** A bankroll that sizes at least one contract, which the caps then cut to one. */
  lemma TargetIsOne(price: real) returns (balance: int)
    requires CENT <= price <= MAX_PRICE
    ensures Tight(price).Valid()
    ensures Target(Tight(price), Likely(price).fairProbability, balance, 0, None, Yes, price) == 1
  {
    var fair, sizing := Likely(price).fairProbability, Tight(price).sizing;
    assert EffectiveBuyPrice(price, 0.0) == price;
    FractionPositive(fair, price, sizing);
    balance := EnoughBankroll(StakeFraction(fair, price, sizing), price);
    assert SizePosition(fair, price, 0.0, balance, sizing, None).contracts >= 1;
    UnitOnce(PerContractCents(price));
  }

  lemma UnitOnce(unit: int)
    requires unit > 0
    ensures unit / unit == 1
  {
  }

  lemma YesIsBest(price: real)
    requires CENT <= price <= MAX_PRICE
    ensures var best := BestCandidate(Tight(price).strategy, Tight(price).fees, Likely(price).fairProbability, Offered(price));
      best.Some? && best.value.outcome.Yes? && best.value.price == price && best.value.netEdgeBps >= 1
  {
    assert BuyPrice(Tight(price).strategy, Offered(price), Yes) == Some(price);
    assert BuyPrice(Tight(price).strategy, Offered(price), No) == Some(1.0 - price);
    assert BuyEdgeBps(Tight(price).strategy, Tight(price).fees, Likely(price).fairProbability, No, 1.0 - price) <= 0;
  }

  lemma ProposesOne(price: real, portfolio: Portfolio)
    requires CENT <= price <= MAX_PRICE && Tight(price).Valid() && portfolio == Portfolio(portfolio.balanceCents, 0, 0, 0, 0)
    requires Target(Tight(price), Likely(price).fairProbability, portfolio.balanceCents, 0, None, Yes, price) == 1
    ensures Decide(Tight(price), Likely(price), Offered(price), portfolio, Flat("m"), "a", 0.0) == Trade(OneContract(price))
  {
    YesIsBest(price);
  }

  lemma RejectsOne(price: real, portfolio: Portfolio)
    requires CENT <= price && !WholeCents(price) && portfolio.marketExposureCents == 0
    ensures Judge(OneContract(price), Offered(price), portfolio, Tight(price), None, false, 0.0) == OrderNotional
  {
    SubCentUnit(price);
  }

  /** At every price that is not in whole cents some proposed buy is rejected for its notional. */
  lemma SubCentBuyIsProposed(price: real) returns (portfolio: Portfolio)
    requires CENT <= price <= MAX_PRICE && !WholeCents(price)
    ensures Tight(price).Valid()
    ensures Decide(Tight(price), Likely(price), Offered(price), portfolio, Flat("m"), "a", 0.0) == Trade(OneContract(price))
    ensures Judge(OneContract(price), Offered(price), portfolio, Tight(price), None, false, 0.0) == OrderNotional
    ensures Quotable(Offered(price))
  {
    MirroredIsQuotable(Offered(price));
    var balance := TargetIsOne(price);
    portfolio := Portfolio(balance, 0, 0, 0, 0);
    ProposesOne(price, portfolio);
    RejectsOne(price, portfolio);
  }

  /** For all prices a buy can have: the engine's buys always fit the gates if and only if the price is in
      whole cents. */
  lemma BuysAlwaysFitExactly(price: real)
    requires CENT <= price <= MAX_PRICE
    ensures BuysAlwaysFit(price) <==> WholeCents(price)
  {
    if WholeCents(price) {
      forall config: AppConfig, signal: Signal, quote: Quote, portfolio: Portfolio, held: Position, id: string, now: real,
             intent: Intent, lastOrderAt: Option<real>, killSwitch: bool
        | config.Valid() && Decide(config, signal, quote, portfolio, held, id, now) == Trade(intent)
          && intent.IsBuy() && intent.limitPrice == price
        ensures Judge(intent, quote, portfolio, config, lastOrderAt, killSwitch, now) in AFTER_SIZING
      {
        SizedBuyPassesItsGates(config, signal, quote, portfolio, held, id, now, intent, lastOrderAt, killSwitch);
      }
    } else {
      var portfolio := SubCentBuyIsProposed(price);
      assert !(Judge(OneContract(price), Offered(price), portfolio, Tight(price), None, false, 0.0) in AFTER_SIZING);
    }
  }
}
