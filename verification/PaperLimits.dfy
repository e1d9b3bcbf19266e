/** Limits that hold over every run of the paper machine, resting orders that fill later included. */
module PaperLimits {
  import opened Rounding
  import opened Domain
  import opened Config
  import opened Fees
  import opened Risk
  import opened Ledger
  import opened Broker
  import opened PaperSteps
  import opened Runs
  import opened PaperPaths
  import opened PaperInvariants
  import opened RealArithmetic

  // ----- The cost of one order ---------------------------------------------------------

  /** F: the largest fee one order of the configured style can pay. */
  function FeeCap(config: AppConfig): int {
    Ceiling(25.0 * config.fees.RateFor(config.strategy.orderStyle) * config.risk.maxContractsPerOrder as real)
  }

  lemma FeeWithinCap(config: AppConfig, intent: Intent, price: real)
    requires config.Valid() && intent.style == config.strategy.orderStyle
    requires 0 < intent.count <= config.risk.maxContractsPerOrder
    ensures FillFee(config.fees, intent, price) <= FeeCap(config)
    ensures FeeCap(config) >= 0
  {
    var rate, n, top := config.fees.RateFor(intent.style), intent.count as real, config.risk.maxContractsPerOrder as real;
    var fee := FeePerContract(price, rate);
    FeeBounds(price, rate);
    ScaleFee(fee, rate, n, top);
    CeilingMonotone(fee * n * 100.0, 25.0 * rate * top);
    FeeCapNonNegative(config);
  }

  lemma ScaleFee(fee: real, rate: real, n: real, top: real)
    requires fee <= rate / 4.0 && 0.0 <= n <= top && rate >= 0.0
    ensures fee * n * 100.0 <= 25.0 * rate * top
  {
    ProductMonotone(fee, rate / 4.0, n);
    ProductMonotone(n, top, rate);
  }

  lemma FeeCapNonNegative(config: AppConfig)
    requires config.Valid()
    ensures FeeCap(config) >= 0
  {
    var rate, top := config.fees.RateFor(config.strategy.orderStyle), config.risk.maxContractsPerOrder as real;
    ProductMonotone(0.0, 25.0 * rate, top);
  }

  lemma LossMonotone(price: real, limit: real, count: int)
    requires price <= limit && count > 0
    ensures CentsUp(price * count as real) <= CentsUp(limit * count as real)
  {
    ProductMonotone(price, limit, count as real);
    CeilingMonotone(price * count as real * 100.0, limit * count as real * 100.0);
  }

  /** A buy never costs more than its worst-case loss plus the fee cap. */
  lemma CostWithinLossAndFee(config: AppConfig, intent: Intent, price: real)
    requires config.Valid() && intent.style == config.strategy.orderStyle && intent.IsBuy()
    requires 0 < intent.count <= config.risk.maxContractsPerOrder && price <= intent.limitPrice
    ensures FillCost(intent, price, FillFee(config.fees, intent, price)) <= intent.MaxLossCents() + FeeCap(config)
  {
    FeeWithinCap(config, intent, price);
    CostWithinLoss(intent, price, FillFee(config.fees, intent, price));
  }

  lemma CostWithinLoss(intent: Intent, price: real, fee: int)
    requires intent.IsBuy() && intent.count > 0 && price <= intent.limitPrice
    ensures FillCost(intent, price, fee) <= intent.MaxLossCents() + fee
  {
    LossMonotone(price, intent.limitPrice, intent.count);
  }

  /** What one fill can add to exposure. */
  function PerOrder(config: AppConfig): int {
    config.risk.maxOrderNotionalCents + FeeCap(config)
  }

  // ----- Exposure --------------------------------------------------------------------------

  /** The whole account, or one market of it. */
  datatype Scope = AllMarkets | Only(ticker: string) {
    predicate Covers(t: string) {
      AllMarkets? || ticker == t
    }

    ghost function Exposure(positions: map<Key, Lot>): int {
      if AllMarkets? then TotalExposure(positions) else MarketExposure(positions, ticker)
    }

    function Limit(risk: RiskConfig): int {
      if AllMarkets? then risk.maxTotalExposureCents else risk.maxMarketExposureCents
    }
  }

  /** What a buy may cost at most: its worst-case loss and the fee cap. */
  function Reserve(config: AppConfig, intent: Intent): int {
    intent.MaxLossCents() + FeeCap(config)
  }

  /** Room kept for each resting buy in scope, which fills later without a new risk check. */
  function ReserveColumn(config: AppConfig, scope: Scope): Row -> int {
    (row: Row) => if row.status == Resting && row.intent.IsBuy() && scope.Covers(row.intent.ticker) then Reserve(config, row.intent) else 0
  }

  /** A resting buy has passed the per-order limits. */
  ghost predicate ReservedOk(config: AppConfig, row: Row) {
    row.status == Resting && row.intent.IsBuy() ==>
      && row.intent.style == config.strategy.orderStyle
      && 0 < row.intent.count <= config.risk.maxContractsPerOrder
      && 0 < row.intent.MaxLossCents() <= config.risk.maxOrderNotionalCents
  }

  ghost predicate AllReserved(config: AppConfig, journal: seq<Row>) {
    forall i :: 0 <= i < |journal| ==> ReservedOk(config, journal[i])
  }

  /** The limit, one fee, and one full order for each further order that may be open. */
  function Bound(config: AppConfig, scope: Scope): int {
    scope.Limit(config.risk) + FeeCap(config) + (config.risk.maxOpenOrders - 1) * PerOrder(config)
  }

  ghost predicate Reserved(config: AppConfig, scope: Scope, b: Books) {
    && AllReserved(config, b.journal)
    && scope.Exposure(b.positions) + Sum(b.journal, ReserveColumn(config, scope)) <= Bound(config, scope)
  }

  /** Each reserve belongs to one open order. */
  lemma {:induction false} ReserveWithinOpen(config: AppConfig, journal: seq<Row>, scope: Scope)
    requires config.Valid() && AllReserved(config, journal)
    ensures 0 <= Sum(journal, ReserveColumn(config, scope)) <= PerOrder(config) * OpenOrderCount(journal)
  {
    FeeCapNonNegative(config);
    if journal != [] {
      var n := |journal| - 1;
      ReserveWithinOpen(config, journal[..n], scope);
      assert ReservedOk(config, journal[n]);
      DistributeInt(PerOrder(config), OpenOrderCount(journal[..n]), OpenFlag()(journal[n]));
    }
  }

  lemma DistributeInt(x: int, y: int, z: int)
    ensures x * (y + z) == x * y + x * z
  {
  }

  /** While a pending order is open, the others hold at most one reserve less than the limit. */
  lemma ReserveBesidesPending(config: AppConfig, b: Books, i: nat, scope: Scope)
    requires config.Valid() && AllReserved(config, b.journal) && i < |b.journal| && b.journal[i].status == Pending
    requires OpenOrderCount(b.journal) <= config.risk.maxOpenOrders
    ensures Sum(b.journal, ReserveColumn(config, scope)) <= (config.risk.maxOpenOrders - 1) * PerOrder(config)
  {
    var row := b.journal[i].(status := Rejected);
    var others := b.journal[i := row];
    SumUpdate(b.journal, i, row, ReserveColumn(config, scope));
    SumUpdate(b.journal, i, row, OpenFlag());
    ReserveWithinOpen(config, others, scope);
    FeeCapNonNegative(config);
    IntProductMonotone(OpenOrderCount(others), config.risk.maxOpenOrders - 1, PerOrder(config));
  }

  lemma ReserveFloor(config: AppConfig, scope: Scope, journal: seq<Row>)
    requires config.Valid() && AllReserved(config, journal)
    ensures Sum(journal, ReserveColumn(config, scope)) >= 0
  {
    ReserveWithinOpen(config, journal, scope);
  }

  /** Exposure after one transaction: a buy adds its cost where it is in scope, a sale releases part of the basis. */
  lemma AppliedExposure(fees: FeeConfig, b: Books, intent: Intent, price: real, scope: Scope)
    requires WellFormed(b) && intent.count > 0 && Applied(fees, b, intent, price).Ok?
    ensures var before, after := scope.Exposure(b.positions), scope.Exposure(Applied(fees, b, intent, price).value.positions);
      && (intent.IsBuy() ==> after == before + if scope.Covers(intent.ticker) then FillCost(intent, price, FillFee(fees, intent, price)) else 0)
      && (!intent.IsBuy() ==> after <= before)
  {
    var key := (intent.ticker, intent.outcome);
    var lot, after := LotOf(b.positions, key), Applied(fees, b, intent, price).value;
    if intent.IsBuy() {
      ExposureOfUpdate(b.positions, key, after.positions[key], scope);
    } else {
      ReleaseBounds(lot, intent.count);
      if lot.count != intent.count {
        ExposureOfUpdate(b.positions, key, after.positions[key], scope);
      } else {
        ExposureOfDelete(b.positions, key, scope);
      }
    }
  }

  lemma ExposureOfUpdate(positions: map<Key, Lot>, key: Key, lot: Lot, scope: Scope)
    ensures scope.Exposure(positions[key := lot])
         == scope.Exposure(positions) + if scope.Covers(key.0) then lot.costCents - LotOf(positions, key).costCents else 0
  {
    ExposureAfterUpdate(positions, key, lot);
    assert key == (key.0, key.1) && (key.1.Yes? || key.1.No?);
  }

  lemma ExposureOfDelete(positions: map<Key, Lot>, key: Key, scope: Scope)
    ensures scope.Exposure(positions - {key})
         == scope.Exposure(positions) - if scope.Covers(key.0) then LotOf(positions, key).costCents else 0
  {
    ExposureAfterDelete(positions, key);
    assert key == (key.0, key.1) && (key.1.Yes? || key.1.No?);
  }

  lemma JournalingKeepsReserved(config: AppConfig, scope: Scope, b: Books, after: Books, intent: Intent, now: real)
    requires Reserved(config, scope, b) && Journals(b, after, intent, now)
    ensures Reserved(config, scope, after)
  {
    SumAppend(b.journal, PendingRow(intent, now), ReserveColumn(config, scope));
  }

  /** What the risk check left room for at placement covers the cost of a fill right away. */
  lemma ClearedFits(config: AppConfig, scope: Scope, b: Books, intent: Intent, price: real)
    requires config.Valid() && Cleared(config, b, intent) && intent.IsBuy() && price <= intent.limitPrice
    ensures var cost := FillCost(intent, price, FillFee(config.fees, intent, price));
      && cost <= Reserve(config, intent)
      && (scope.Covers(intent.ticker) ==> scope.Exposure(b.positions) + cost <= scope.Limit(config.risk) + FeeCap(config))
  {
    CostWithinLossAndFee(config, intent, price);
  }

  /** What a settled row leaves in its place is neither resting nor pending. */
  lemma SettledRow(config: AppConfig, b: Books, after: Books, i: nat, price: real) returns (row: Row)
    requires WellFormed(b) && Settles(config, b, after, i, price)
    ensures row.status in {Filled, Rejected} && after.journal == b.journal[i := row]
    ensures var intent := b.journal[i].intent;
      after.positions == if Applied(config.fees, b, intent, price).Ok? then Applied(config.fees, b, intent, price).value.positions else b.positions
  {
    SettledIs(config.fees, b, i, price);
    AppliedJournal(config.fees, b, b.journal[i].intent, price);
    row := if Applied(config.fees, b, b.journal[i].intent, price).Ok? then FilledRow(config.fees, b.journal[i], price) else RefusedRow(b.journal[i]);
  }

  lemma SettlingKeepsReserved(config: AppConfig, scope: Scope, b: Books, after: Books, i: nat, price: real)
    requires config.Valid() && WellFormed(b) && Reserved(config, scope, b) && Settles(config, b, after, i, price)
    ensures Reserved(config, scope, after)
  {
    var row := b.journal[i];
    var result := SettledRow(config, b, after, i, price);
    SumUpdate(b.journal, i, result, ReserveColumn(config, scope));
    FeeCapNonNegative(config);
    assert RowOk(row) && ReservedOk(config, row);
    if Applied(config.fees, b, row.intent, price).Ok? {
      AppliedExposure(config.fees, b, row.intent, price, scope);
      if row.intent.IsBuy() && scope.Covers(row.intent.ticker) {
        SettledBuyFits(config, scope, b, i, price);
      }
    }
  }

  /** A settling buy fits: pending, into the room that was checked; resting, into its own reserve. */
  lemma SettledBuyFits(config: AppConfig, scope: Scope, b: Books, i: nat, price: real)
    requires config.Valid() && Reserved(config, scope, b) && i < |b.journal| && b.journal[i].intent.IsBuy()
    requires price <= b.journal[i].intent.limitPrice && b.journal[i].intent.count > 0
    requires b.journal[i].status == Resting || (b.journal[i].status == Pending && Cleared(config, b, b.journal[i].intent))
    requires scope.Covers(b.journal[i].intent.ticker)
    ensures var intent := b.journal[i].intent;
      scope.Exposure(b.positions) + FillCost(intent, price, FillFee(config.fees, intent, price))
      + Sum(b.journal, ReserveColumn(config, scope)) - (if b.journal[i].status == Resting then Reserve(config, intent) else 0)
      <= Bound(config, scope)
  {
    var row := b.journal[i];
    assert ReservedOk(config, row);
    if row.status == Pending {
      ClearedFits(config, scope, b, row.intent, price);
      ReserveBesidesPending(config, b, i, scope);
    } else {
      CostWithinLossAndFee(config, row.intent, price);
    }
  }

  lemma MovingKeepsReserved(config: AppConfig, scope: Scope, b: Books, after: Books, i: nat, row: Row)
    requires config.Valid() && WellFormed(b) && Reserved(config, scope, b) && Moves(config, b, after, i, row)
    ensures Reserved(config, scope, after)
  {
    SumUpdate(b.journal, i, row, ReserveColumn(config, scope));
    FeeCapNonNegative(config);
    assert ReservedOk(config, b.journal[i]);
    if row.status == Resting && row.intent.IsBuy() && scope.Covers(row.intent.ticker) {
      ReserveBesidesPending(config, b, i, scope);
      ClearedInScope(config, scope, b, row.intent);
    }
  }

  lemma ClearedInScope(config: AppConfig, scope: Scope, b: Books, intent: Intent)
    requires Cleared(config, b, intent) && intent.IsBuy() && scope.Covers(intent.ticker)
    ensures scope.Exposure(b.positions) + intent.MaxLossCents() <= scope.Limit(config.risk)
  {
  }

  lemma ElementaryKeepsReserved(config: AppConfig, scope: Scope, b: Books, after: Books)
    requires config.Valid() && WellFormed(b) && Reserved(config, scope, b) && Elementary(config, b, after)
    ensures Reserved(config, scope, after)
  {
    if intent, now :| Journals(b, after, intent, now) {
      JournalingKeepsReserved(config, scope, b, after, intent, now);
    } else if i, price :| Settles(config, b, after, i, price) {
      SettlingKeepsReserved(config, scope, b, after, i, price);
    } else {
      var i, row :| Moves(config, b, after, i, row);
      MovingKeepsReserved(config, scope, b, after, i, row);
    }
  }

  lemma OpeningIsReserved(config: AppConfig, scope: Scope)
    requires config.Valid()
    ensures Reserved(config, scope, Opening(config))
  {
    FeeCapNonNegative(config);
    IntProductMonotone(0, config.risk.maxOpenOrders - 1, PerOrder(config));
  }

  lemma RunIsReserved(config: AppConfig, scope: Scope, steps: seq<Step>)
    requires config.Valid() && SaneRun(steps)
    ensures Reserved(config, scope, Run(config, steps))
  {
    var kept := (b: Books) => WellFormed(b) && Reserved(config, scope, b);
    forall s, t | kept(s) && Changes(config)(s, t)
      ensures kept(t)
    {
      ElementaryKeepsReserved(config, scope, s, t);
      ElementaryKeepsWellFormed(config, s, t);
    }
    OpeningIsReserved(config, scope);
    RunKeeps(config, kept, steps);
  }

  /** Over every run, exposure exceeds its limit by at most one fee, and one order's notional and fee for each
      further order that may be open: in total and in every market. */
  lemma ExposureIsBounded(config: AppConfig, steps: seq<Step>, ticker: string)
    requires config.Valid() && SaneRun(steps)
    ensures TotalExposure(Run(config, steps).positions)
         <= config.risk.maxTotalExposureCents + FeeCap(config) + (config.risk.maxOpenOrders - 1) * PerOrder(config)
    ensures MarketExposure(Run(config, steps).positions, ticker)
         <= config.risk.maxMarketExposureCents + FeeCap(config) + (config.risk.maxOpenOrders - 1) * PerOrder(config)
  {
    RunIsReserved(config, AllMarkets, steps);
    ReserveFloor(config, AllMarkets, Run(config, steps).journal);
    RunIsReserved(config, Only(ticker), steps);
    ReserveFloor(config, Only(ticker), Run(config, steps).journal);
  }

  // ----- When no order can rest ---------------------------------------------------------------

  ghost predicate OneSided(b: Books, ticker: string) {
    !((ticker, Yes) in b.positions && (ticker, No) in b.positions)
  }

  ghost predicate NeverBoth(b: Books) {
    forall ticker :: OneSided(b, ticker)
  }

  /** No order rests and no market is held on both sides. */
  ghost predicate Quiet(b: Books) {
    (forall i :: 0 <= i < |b.journal| ==> b.journal[i].status != Resting) && NeverBoth(b)
  }

  /** Every fill was judged when it was made: exposure exceeds its limits by one fee at most. */
  ghost predicate WithinLimits(config: AppConfig, b: Books) {
    forall scope: Scope :: scope.Exposure(b.positions) <= scope.Limit(config.risk) + FeeCap(config)
  }

  /** No lot is larger than one order may be. */
  ghost predicate SmallLots(config: AppConfig, b: Books) {
    forall key :: key in b.positions ==> b.positions[key].count <= config.risk.maxContractsPerOrder
  }

  /** With one side held at most, the reported position is that side. */
  lemma OppositeIsFlat(b: Books, ticker: string, outcome: Outcome)
    requires WellFormed(b) && OneSided(b, ticker)
    requires PaperPosition(b.positions, ticker).Held(outcome.Opposite()) == 0
    ensures (ticker, outcome.Opposite()) !in b.positions
    ensures PaperPosition(b.positions, ticker).Held(outcome) == LotOf(b.positions, (ticker, outcome)).count
  {
    assert (ticker, Yes) in b.positions ==> b.positions[(ticker, Yes)].count > 0;
    assert (ticker, No) in b.positions ==> b.positions[(ticker, No)].count > 0;
  }

  /** A buy whose opposite is not held, and every sell, leaves one side at most. */
  lemma AppliedKeepsOneSide(fees: FeeConfig, b: Books, intent: Intent, price: real)
    requires NeverBoth(b) && Applied(fees, b, intent, price).Ok?
    requires intent.IsBuy() ==> (intent.ticker, intent.outcome.Opposite()) !in b.positions
    ensures NeverBoth(Applied(fees, b, intent, price).value)
  {
    var after := Applied(fees, b, intent, price).value;
    assert after.positions.Keys <= b.positions.Keys + {(intent.ticker, intent.outcome)};
    forall ticker
      ensures OneSided(after, ticker)
    {
      assert OneSided(b, ticker);
    }
  }

  lemma BuyKeepsLimits(config: AppConfig, b: Books, intent: Intent, price: real)
    requires config.Valid() && WellFormed(b) && WithinLimits(config, b) && Cleared(config, b, intent) && intent.IsBuy()
    requires price <= intent.limitPrice && Applied(config.fees, b, intent, price).Ok?
    ensures WithinLimits(config, Applied(config.fees, b, intent, price).value)
  {
    var after := Applied(config.fees, b, intent, price).value;
    forall scope: Scope
      ensures scope.Exposure(after.positions) <= scope.Limit(config.risk) + FeeCap(config)
    {
      AppliedExposure(config.fees, b, intent, price, scope);
      ClearedFits(config, scope, b, intent, price);
    }
  }

  lemma SellKeepsLimits(config: AppConfig, b: Books, intent: Intent, price: real)
    requires config.Valid() && WellFormed(b) && WithinLimits(config, b) && intent.count > 0 && !intent.IsBuy()
    requires Applied(config.fees, b, intent, price).Ok?
    ensures WithinLimits(config, Applied(config.fees, b, intent, price).value)
  {
    var after := Applied(config.fees, b, intent, price).value;
    forall scope: Scope
      ensures scope.Exposure(after.positions) <= scope.Limit(config.risk) + FeeCap(config)
    {
      AppliedExposure(config.fees, b, intent, price, scope);
    }
  }

  lemma AppliedKeepsSmallLots(config: AppConfig, b: Books, intent: Intent, price: real)
    requires WellFormed(b) && SmallLots(config, b) && Applied(config.fees, b, intent, price).Ok? && intent.count > 0
    requires intent.IsBuy() ==>
      LotOf(b.positions, (intent.ticker, intent.outcome)).count + intent.count <= config.risk.maxContractsPerOrder
    ensures SmallLots(config, Applied(config.fees, b, intent, price).value)
  {
  }

  lemma RowKeepsQuiet(b: Books, i: nat, row: Row)
    requires Quiet(b) && i < |b.journal| && row.status != Resting
    ensures Quiet(b.(journal := b.journal[i := row]))
  {
    var after := b.(journal := b.journal[i := row]);
    assert forall ticker :: OneSided(after, ticker) <==> OneSided(b, ticker);
  }

  /** A fill of a quiet account leaves it quiet, and keeps its limits and lot sizes where it had them. */
  lemma FillKeepsQuiet(config: AppConfig, b: Books, intent: Intent, price: real)
    requires config.Valid() && WellFormed(b) && Quiet(b) && Cleared(config, b, intent)
    requires (intent.IsBuy() ==> price <= intent.limitPrice) && Applied(config.fees, b, intent, price).Ok?
    ensures var filled := Applied(config.fees, b, intent, price).value;
      && Quiet(filled)
      && (WithinLimits(config, b) ==> WithinLimits(config, filled))
      && (SmallLots(config, b) ==> SmallLots(config, filled))
  {
    AppliedJournal(config.fees, b, intent, price);
    if intent.IsBuy() {
      OppositeIsFlat(b, intent.ticker, intent.outcome);
    }
    AppliedKeepsOneSide(config.fees, b, intent, price);
    if WithinLimits(config, b) {
      if intent.IsBuy() {
        BuyKeepsLimits(config, b, intent, price);
      } else {
        SellKeepsLimits(config, b, intent, price);
      }
    }
    if SmallLots(config, b) {
      AppliedKeepsSmallLots(config, b, intent, price);
    }
  }

  lemma SettlingKeepsQuiet(config: AppConfig, b: Books, after: Books, i: nat, price: real)
    requires config.Valid() && WellFormed(b) && Quiet(b) && Settles(config, b, after, i, price)
    ensures Quiet(after)
    ensures WithinLimits(config, b) ==> WithinLimits(config, after)
    ensures SmallLots(config, b) ==> SmallLots(config, after)
  {
    var row := b.journal[i];
    SettledIs(config.fees, b, i, price);
    AppliedJournal(config.fees, b, row.intent, price);
    match Applied(config.fees, b, row.intent, price)
    case Ok(filled) =>
      FillKeepsQuiet(config, b, row.intent, price);
      RowKeepsQuiet(filled, i, FilledRow(config.fees, row, price));
    case Err(_) =>
      RowKeepsQuiet(b, i, RefusedRow(row));
  }

  lemma ElementaryKeepsQuiet(config: AppConfig, b: Books, after: Books)
    requires config.Valid() && !CanRest(config) && WellFormed(b) && Quiet(b) && Elementary(config, b, after)
    ensures Quiet(after)
    ensures WithinLimits(config, b) ==> WithinLimits(config, after)
    ensures SmallLots(config, b) ==> SmallLots(config, after)
  {
    if intent, now :| Journals(b, after, intent, now) {
      assert forall ticker :: OneSided(after, ticker) <==> OneSided(b, ticker);
    } else if i, price :| Settles(config, b, after, i, price) {
      SettlingKeepsQuiet(config, b, after, i, price);
    } else {
      var i, row :| Moves(config, b, after, i, row);
      RowKeepsQuiet(b, i, row);
    }
  }

  lemma StarKeepsQuiet(config: AppConfig, b: Books, after: Books, n: nat)
    requires config.Valid() && !CanRest(config) && WellFormed(b) && Quiet(b) && Star(Changes(config), b, after, n)
    ensures WellFormed(after) && Quiet(after)
  {
    var kept := (v: Books) => WellFormed(v) && Quiet(v);
    forall s, t | kept(s) && Changes(config)(s, t)
      ensures kept(t)
    {
      ElementaryKeepsQuiet(config, s, t);
      ElementaryKeepsWellFormed(config, s, t);
    }
    StarKeeps(Changes(config), kept, b, after, n);
  }

  lemma OpeningIsQuiet(config: AppConfig)
    requires config.Valid()
    ensures Quiet(Opening(config)) && WithinLimits(config, Opening(config)) && SmallLots(config, Opening(config))
  {
    FeeCapNonNegative(config);
  }

  /** In taker style with an improvement of at least the slippage, no paper order ever rests, no market
      is ever held on both sides, no lot exceeds one order, and exposure exceeds its limits by at most one
      fee, per market too. */
  lemma TakersFillAtOnce(config: AppConfig, steps: seq<Step>)
    requires config.Valid() && SaneRun(steps) && !CanRest(config)
    ensures var b := Run(config, steps); Quiet(b) && WithinLimits(config, b) && SmallLots(config, b)
  {
    var kept := (b: Books) => WellFormed(b) && Quiet(b) && WithinLimits(config, b) && SmallLots(config, b);
    forall s, t | kept(s) && Changes(config)(s, t)
      ensures kept(t)
    {
      ElementaryKeepsQuiet(config, s, t);
      ElementaryKeepsWellFormed(config, s, t);
    }
    OpeningIsQuiet(config);
    RunKeeps(config, kept, steps);
  }
}
