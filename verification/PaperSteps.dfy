/** Runs of the paper machine, and the journal and ledger changes every run is made of. */
module PaperSteps {
  import opened Wrappers
  import opened Domain
  import opened Config
  import opened Fees
  import opened Strategy
  import opened Risk
  import opened Ledger
  import opened Broker
  import opened Engine
  import opened Runs
  import RealArithmetic

  // ----- Runs -------------------------------------------------------------------

  /** One thing that happens to the machine. A process may die after handling some of the resting
      orders, between journaling an intent and placing it, or part of the way through shutdown. */
  datatype Step =
    | Process(input: Input)
    | DieReconciling(quote: Quote, handled: nat)
    | DieBeforePlacing(input: Input)
    | Shutdown(handled: nat)

  function Take<T>(s: seq<T>, n: nat): seq<T> {
    if n < |s| then s[..n] else s
  }

  ghost function Apply(config: AppConfig, b: Books, step: Step): Books
    requires config.Valid()
  {
    match step
    case Process(input) => Cycle(config, b, input)
    case DieReconciling(quote, handled) => Reconcile(config, b, Take(RestingIntents(b.journal, quote.ticker), handled), quote)
    case DieBeforePlacing(input) =>
      var current := Reconciled(config, b, input.quote);
      (match Proposal(config, current, input)
       case NoTrade(_) => current
       case Trade(intent) => if Has(current.journal, intent.clientOrderId) then current
                             else RecordIntent(current, intent, input.now).value)
    case Shutdown(handled) => CancelAll(b, Take(RestingOrderIds(b.journal), handled))
  }

  function Opening(config: AppConfig): Books {
    Books([], config.paper.startingBalanceCents, 0, map[])
  }

  ghost function Stepper(config: AppConfig): (Books, Step) -> Books
    requires config.Valid()
  {
    (b, step) => Apply(config, b, step)
  }

  ghost function Run(config: AppConfig, steps: seq<Step>): Books
    requires config.Valid()
  {
    Drive(Stepper(config), Opening(config), steps)
  }

  // ----- Elementary changes ---------------------------------------------------------

  predicate Terminal(status: Status) {
    status in {Filled, Rejected, Canceled}
  }

  ghost predicate UniqueIds(journal: seq<Row>) {
    forall i, j :: 0 <= i < j < |journal| ==> journal[i].intent.clientOrderId != journal[j].intent.clientOrderId
  }

  ghost predicate RowOk(row: Row) {
    && row.intent.count > 0
    && row.status != Unknown
    && (row.status in {Resting, Filled, Canceled} ==> row.orderId == Some(PaperId(row.intent.clientOrderId)))
    && (row.orderId.Some? ==> row.orderId.value == PaperId(row.intent.clientOrderId))
    && (row.status == Filled ==> row.averageFillPrice.Some?)
    && (row.status == Resting ==> MIN_PRICE <= row.intent.limitPrice <= MAX_PRICE)
  }

  ghost predicate WellFormed(b: Books) {
    && UniqueIds(b.journal)
    && (forall i :: 0 <= i < |b.journal| ==> RowOk(b.journal[i]))
    && (forall key :: key in b.positions ==> b.positions[key].count > 0 && b.positions[key].costCents >= 0)
  }

  lemma {:induction false} FindIs(journal: seq<Row>, i: nat)
    requires UniqueIds(journal) && i < |journal|
    ensures Has(journal, journal[i].intent.clientOrderId)
    ensures Find(journal, journal[i].intent.clientOrderId) == i
  {
  }

  /** An approved intent: what risk and strategy established when row `i` went to the broker. */
  ghost predicate Cleared(config: AppConfig, b: Books, intent: Intent) {
    && intent.style == config.strategy.orderStyle
    && 0 < intent.count <= config.risk.maxContractsPerOrder
    && MIN_PRICE <= intent.limitPrice <= MAX_PRICE
    && (intent.IsBuy() ==>
          && 0 < intent.MaxLossCents() <= config.risk.maxOrderNotionalCents
          && MarketExposure(b.positions, intent.ticker) + intent.MaxLossCents() <= config.risk.maxMarketExposureCents
          && TotalExposure(b.positions) + intent.MaxLossCents() <= config.risk.maxTotalExposureCents
          && OpenOrderCount(b.journal) <= config.risk.maxOpenOrders
          && PaperPosition(b.positions, intent.ticker).Held(intent.outcome) + intent.count <= config.risk.maxContractsPerOrder
          && PaperPosition(b.positions, intent.ticker).Held(intent.outcome.Opposite()) == 0)
  }

  /** Whether the configuration lets a paper order rest at all. An improvement of 99 cents or more always
      reaches the end of the price range, and so does the fill. */
  predicate CanRest(config: AppConfig) {
    || config.strategy.orderStyle.Maker?
    || config.strategy.priceImprovementCents < (if config.paper.slippageCents < 99 then config.paper.slippageCents else 99)
  }

  /** A new intent is journaled as pending. */
  ghost predicate Journals(b: Books, after: Books, intent: Intent, now: real) {
    && !Has(b.journal, intent.clientOrderId)
    && intent.count > 0
    && after == b.(journal := b.journal + [PendingRow(intent, now)])
  }

  ghost function Settled(fees: FeeConfig, b: Books, intent: Intent, price: real): Books {
    var (filled, result) := Fill(fees, b, intent, price);
    Recorded(filled, result)
  }

  /** Row `i` goes to the ledger at a price no worse than its limit: from pending straight after
      approval, or from resting at its own limit. */
  ghost predicate Settles(config: AppConfig, b: Books, after: Books, i: nat, price: real) {
    && i < |b.journal|
    && var row := b.journal[i];
      && (row.status == Pending || row.status == Resting)
      && (row.status == Pending ==> Cleared(config, b, row.intent))
      && (row.status == Resting ==> price == row.intent.limitPrice)
      && 0.0 <= price <= 1.0
      && (if row.intent.IsBuy() then price <= row.intent.limitPrice else price >= MIN_PRICE)
      && after == Settled(config.fees, b, row.intent, price)
  }

  /** Row `i` comes to rest, is rejected or is canceled; the ledger is untouched. */
  ghost predicate Moves(config: AppConfig, b: Books, after: Books, i: nat, row: Row) {
    && i < |b.journal|
    && (b.journal[i].status == Pending || b.journal[i].status == Resting)
    && row.intent == b.journal[i].intent
    && row.status in {Resting, Rejected, Canceled}
    && RowOk(row)
    && (row.status == Resting ==>
          b.journal[i].status == Pending && Cleared(config, b, row.intent) && CanRest(config))
    && after == b.(journal := b.journal[i := row])
  }

  ghost predicate Elementary(config: AppConfig, b: Books, after: Books) {
    || (exists intent, now :: Journals(b, after, intent, now))
    || (exists i, price :: Settles(config, b, after, i, price))
    || (exists i, row :: Moves(config, b, after, i, row))
  }

  ghost function Changes(config: AppConfig): (Books, Books) -> bool {
    (b, after) => Elementary(config, b, after)
  }

  ghost predicate Reaches(config: AppConfig, b: Books, after: Books) {
    Reach(Changes(config), b, after)
  }

  lemma ReachesSelf(config: AppConfig, b: Books)
    ensures Reaches(config, b, b)
  {
    assert Star(Changes(config), b, b, 0);
  }

  lemma ReachesThen(config: AppConfig, b: Books, mid: Books, after: Books)
    requires Reaches(config, b, mid) && Reaches(config, mid, after)
    ensures Reaches(config, b, after)
  {
    ReachTransitive(Changes(config), b, mid, after);
  }

  lemma OneChange(config: AppConfig, b: Books, after: Books)
    requires Elementary(config, b, after)
    ensures Reaches(config, b, after)
  {
    assert Star(Changes(config), b, b, 0);
    assert Changes(config)(b, after);
    assert Star(Changes(config), b, after, 1);
  }

  // ----- Elementary changes keep the tables well formed --------------------------------

  ghost function FilledRow(fees: FeeConfig, row: Row, price: real): Row {
    WithResult(row, Executed(row.intent, price, FillFee(fees, row.intent, price)))
  }

  ghost function RefusedRow(row: Row): Row {
    WithResult(row, Unexecuted(row.intent, Rejected))
  }

  /** Settling touches the ledger through one transaction and the journal at one row. */
  lemma SettledIs(fees: FeeConfig, b: Books, i: nat, price: real)
    requires UniqueIds(b.journal) && i < |b.journal|
    ensures var intent := b.journal[i].intent;
      Settled(fees, b, intent, price) ==
        match Applied(fees, b, intent, price)
        case Ok(filled) => filled.(journal := b.journal[i := FilledRow(fees, b.journal[i], price)])
        case Err(_) => b.(journal := b.journal[i := RefusedRow(b.journal[i])])
  {
    FindIs(b.journal, i);
  }

  lemma CostNonNegative(fees: FeeConfig, intent: Intent, price: real)
    requires intent.count > 0 && 0.0 <= price <= 1.0
    requires fees.takerRate >= 0.0 && fees.makerRate >= 0.0
    ensures FillFee(fees, intent, price) >= 0
    ensures FillCost(intent, price, FillFee(fees, intent, price)) >= 0
  {
    var rate := fees.RateFor(intent.style);
    FeeBounds(price, rate);
    RealArithmetic.ProductNonNegative(FeePerContract(price, rate), intent.count as real, FeePerContract(price, rate) * intent.count as real);
    RealArithmetic.ProductNonNegative(price, intent.count as real, price * intent.count as real);
  }

  /** A slice releases between nothing and the whole cost basis. */
  lemma ReleaseBounds(lot: Lot, count: int)
    requires 0 < count <= lot.count && lot.costCents >= 0
    ensures 0 <= ReleasedCost(lot, count) <= lot.costCents
    ensures count == lot.count ==> ReleasedCost(lot, count) == lot.costCents
  {
    var exact := lot.costCents * count;
    IntProductMonotone(0, lot.costCents, count);
    IntProductMonotone(count, lot.count, lot.costCents);
    DivisionBounds(exact, lot.count, lot.costCents);
  }

  lemma DivisionBounds(x: int, d: int, top: int)
    requires d > 0 && 0 <= x <= top * d
    ensures 0 <= x / d <= top
    ensures x == top * d ==> x / d == top
  {
    var q := x / d;
    assert x == q * d + x % d;
    if q > top {
      IntProductMonotone(top + 1, q, d);
    }
    if x == top * d && q < top {
      IntProductMonotone(q + 1, top, d);
    }
  }

  lemma AppliedKeepsLots(fees: FeeConfig, b: Books, intent: Intent, price: real)
    requires intent.count > 0 && 0.0 <= price <= 1.0
    requires fees.takerRate >= 0.0 && fees.makerRate >= 0.0
    requires forall key :: key in b.positions ==> b.positions[key].count > 0 && b.positions[key].costCents >= 0
    requires Applied(fees, b, intent, price).Ok?
    ensures var after := Applied(fees, b, intent, price).value;
      forall key :: key in after.positions ==> after.positions[key].count > 0 && after.positions[key].costCents >= 0
  {
    CostNonNegative(fees, intent, price);
    if !intent.IsBuy() {
      ReleaseBounds(LotOf(b.positions, (intent.ticker, intent.outcome)), intent.count);
    }
  }

  lemma RowChangeKeepsWellFormed(b: Books, i: nat, row: Row)
    requires WellFormed(b) && i < |b.journal| && row.intent == b.journal[i].intent && RowOk(row)
    ensures WellFormed(b.(journal := b.journal[i := row]))
  {
  }

  lemma JournalingKeepsWellFormed(b: Books, after: Books, intent: Intent, now: real)
    requires WellFormed(b) && Journals(b, after, intent, now)
    ensures WellFormed(after)
  {
    assert RowOk(PendingRow(intent, now));
  }

  lemma SettlingKeepsWellFormed(config: AppConfig, b: Books, after: Books, i: nat, price: real)
    requires config.Valid() && WellFormed(b) && Settles(config, b, after, i, price)
    ensures WellFormed(after)
  {
    var row := b.journal[i];
    SettledIs(config.fees, b, i, price);
    match Applied(config.fees, b, row.intent, price)
    case Ok(filled) =>
      AppliedKeepsLots(config.fees, b, row.intent, price);
      AppliedKeepsJournal(config.fees, b, row.intent, price);
      RowChangeKeepsWellFormed(filled, i, FilledRow(config.fees, row, price));
    case Err(_) =>
      RowChangeKeepsWellFormed(b, i, RefusedRow(row));
  }

  lemma AppliedKeepsJournal(fees: FeeConfig, b: Books, intent: Intent, price: real)
    requires Applied(fees, b, intent, price).Ok?
    ensures Applied(fees, b, intent, price).value.journal == b.journal
  {
  }

  lemma ElementaryKeepsWellFormed(config: AppConfig, b: Books, after: Books)
    requires config.Valid() && WellFormed(b) && Elementary(config, b, after)
    ensures WellFormed(after)
  {
    if intent, now :| Journals(b, after, intent, now) {
      JournalingKeepsWellFormed(b, after, intent, now);
    } else if i, price :| Settles(config, b, after, i, price) {
      SettlingKeepsWellFormed(config, b, after, i, price);
    } else {
      var i, row :| Moves(config, b, after, i, row);
      RowChangeKeepsWellFormed(b, i, row);
    }
  }

  lemma StarKeepsWellFormed(config: AppConfig, b: Books, after: Books, n: nat)
    requires config.Valid() && WellFormed(b) && Star(Changes(config), b, after, n)
    ensures WellFormed(after)
  {
    forall s, t | WellFormed(s) && Changes(config)(s, t)
      ensures WellFormed(t)
    {
      ElementaryKeepsWellFormed(config, s, t);
    }
    StarKeeps(Changes(config), WellFormed, b, after, n);
  }
}
