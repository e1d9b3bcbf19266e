/** Replaying history as taker entries held to settlement. */
module Backtest {
  import opened Wrappers
  import opened Rounding
  import opened RealArithmetic
  import opened Domain
  import opened Config
  import opened Fees
  import opened Sizing
  import opened OrderCosts
  import opened KellySize

  datatype BacktestRow = BacktestRow(
    ticker: string,
    observedAt: real,
    fairProbability: real,
    yesAsk: real,
    noAsk: real,
    result: Outcome,
    closeTime: Option<real>)
  {
    function Fair(side: Outcome): real {
      if side.Yes? then fairProbability else 1.0 - fairProbability
    }

    function SecondsToClose(): Option<real> {
      if closeTime.Some? then Some(closeTime.value - observedAt) else None
    }

    function SquaredError(): real {
      Square(fairProbability - if result.Yes? then 1.0 else 0.0)
    }
  }

  // ----- One row -------------------------------------------------------------------------------

  /** The ask plus slippage. */
  function EntryPrice(config: AppConfig, row: BacktestRow, side: Outcome): real {
    (if side.Yes? then row.yesAsk else row.noAsk) + config.paper.slippageCents as real / 100.0
  }

  function Edge(config: AppConfig, row: BacktestRow, side: Outcome): real {
    row.Fair(side) - EffectiveBuyPrice(EntryPrice(config, row, side), config.fees.takerRate)
  }

  /** The side with more edge, and YES on a tie. */
  function Side(config: AppConfig, row: BacktestRow): (side: Outcome)
    ensures Edge(config, row, side) >= Edge(config, row, side.Opposite())
    ensures Edge(config, row, Yes) == Edge(config, row, No) ==> side == Yes
  {
    if Edge(config, row, Yes) >= Edge(config, row, No) then Yes else No
  }

  function Price(config: AppConfig, row: BacktestRow): real {
    EntryPrice(config, row, Side(config, row))
  }

  predicate Clears(config: AppConfig, row: BacktestRow) {
    Truncate(Edge(config, row, Side(config, row)) * 10000.0) >= config.strategy.minEdgeBps
    && 0.0 < Price(config, row) < 1.0
  }

  function UnitCents(price: real): (cents: int)
    ensures cents >= 1
  {
    Max(1, HalfEven(price * 100.0))
  }

  function SizedAt(config: AppConfig, row: BacktestRow, balance: int): int
    requires config.Valid()
  {
    SizePosition(row.Fair(Side(config, row)), Price(config, row), config.fees.takerRate, balance, config.sizing,
                 row.SecondsToClose()).contracts
  }

  function Count(config: AppConfig, row: BacktestRow, balance: int): (count: int)
    requires config.Valid()
    ensures count >= 0
    ensures count > 0 ==> count <= SizedAt(config, row, balance) && count * UnitCents(Price(config, row)) <= balance
  {
    var unit := UnitCents(Price(config, row));
    var count := CapByRisk(Min(SizedAt(config, row, balance), balance / unit), Price(config, row),
                           config.risk.maxContractsPerOrder, config.risk.maxOrderNotionalCents,
                           config.risk.maxMarketExposureCents);
    DivisionCap(count, balance, unit);
    count
  }

  /** The row clears the edge and sizes above zero. */
  predicate Qualifies(config: AppConfig, row: BacktestRow, balance: int)
    requires config.Valid()
  {
    Clears(config, row) && Count(config, row, balance) > 0
  }

  function Cost(config: AppConfig, row: BacktestRow, balance: int): int
    requires config.Valid()
  {
    CostCents(Count(config, row, balance), Price(config, row), config.fees.takerRate)
  }

  function Payout(config: AppConfig, row: BacktestRow, balance: int): (cents: int)
    requires config.Valid()
    ensures cents >= 0
  {
    if Side(config, row) == row.result then Count(config, row, balance) * 100 else 0
  }

  // ----- The loop ----------------------------------------------------------------------------------

  datatype State = State(
    balance: int,
    peak: int,
    maxDrawdown: real,
    trades: nat,
    wins: nat,
    squaredErrors: real,
    skippedBySizing: nat,
    traded: set<string>)

  function Start(config: AppConfig): State {
    State(config.paper.startingBalanceCents, config.paper.startingBalanceCents, 0.0, 0, 0, 0.0, 0, {})
  }

  function Fall(peak: int, balance: int): real {
    if peak == 0 then 0.0 else (peak - balance) as real / peak as real
  }

  function Settle(s: State, ticker: string, cost: int, payout: int): State {
    var balance := s.balance + payout - cost;
    var peak := Max(s.peak, balance);
    s.(balance := balance, peak := peak, maxDrawdown := RealMax(s.maxDrawdown, Fall(peak, balance)),
       trades := s.trades + 1, wins := s.wins + (if payout > 0 then 1 else 0), traded := s.traded + {ticker})
  }

  function Advance(config: AppConfig, s: State, row: BacktestRow): State
    requires config.Valid()
  {
    var scored := s.(squaredErrors := s.squaredErrors + row.SquaredError());
    if row.ticker in s.traded || !Clears(config, row) then scored
    else if Count(config, row, s.balance) <= 0 then scored.(skippedBySizing := s.skippedBySizing + 1)
    else Settle(scored, row.ticker, Cost(config, row, s.balance), Payout(config, row, s.balance))
  }

  function Run(config: AppConfig, rows: seq<BacktestRow>, k: nat): State
    requires config.Valid() && k <= |rows|
  {
    if k == 0 then Start(config) else Advance(config, Run(config, rows, k - 1), rows[k - 1])
  }

  datatype Report = Report(
    startingBalance: int,
    endingBalance: int,
    pnl: int,
    roi: real,
    maxDrawdown: real,
    trades: nat,
    wins: nat,
    winRate: real,
    brierScore: real,
    skippedBySizing: nat)

  function ReportOf(config: AppConfig, s: State, evaluated: nat): Report
    requires config.Valid()
  {
    var pnl := s.balance - config.paper.startingBalanceCents;
    Report(config.paper.startingBalanceCents, s.balance, pnl, pnl as real / config.paper.startingBalanceCents as real, s.maxDrawdown,
           s.trades, s.wins, if s.trades > 0 then s.wins as real / s.trades as real else 0.0,
           if evaluated > 0 then s.squaredErrors / evaluated as real else 0.0, s.skippedBySizing)
  }

  method RunBacktest(config: AppConfig, rows: seq<BacktestRow>) returns (report: Report)
    requires config.Valid()
    ensures report == ReportOf(config, Run(config, rows, |rows|), |rows|)
  {
    var balance, peak, maxDrawdown := config.paper.startingBalanceCents, config.paper.startingBalanceCents, 0.0;
    var trades: nat, wins: nat, skipped: nat := 0, 0, 0;
    var brierTotal, evaluated, traded: set<string> := 0.0, 0, {};
    for k := 0 to |rows|
      invariant State(balance, peak, maxDrawdown, trades, wins, brierTotal, skipped, traded) == Run(config, rows, k)
      invariant evaluated == k
    {
      var row := rows[k];
      assert Run(config, rows, k + 1) == Advance(config, Run(config, rows, k), row);
      brierTotal := brierTotal + row.SquaredError();
      evaluated := evaluated + 1;
      if row.ticker in traded || !Clears(config, row) {
        continue;
      }
      var count := Count(config, row, balance);
      if count <= 0 {
        skipped := skipped + 1;
        continue;
      }
      var payout := if Side(config, row) == row.result then count * 100 else 0;
      balance := balance + payout - CostCents(count, Price(config, row), config.fees.takerRate);
      trades := trades + 1;
      wins := wins + if payout > 0 then 1 else 0;
      traded := traded + {row.ticker};
      peak := Max(peak, balance);
      maxDrawdown := RealMax(maxDrawdown, Fall(peak, balance));
    }
    report := ReportOf(config, State(balance, peak, maxDrawdown, trades, wins, brierTotal, skipped, traded), evaluated);
  }

  // ----- Which rows trade -----------------------------------------------------------------------------

  function BalanceAt(config: AppConfig, rows: seq<BacktestRow>, k: nat): int
    requires config.Valid() && k <= |rows|
  {
    Run(config, rows, k).balance
  }

  predicate TradesAt(config: AppConfig, rows: seq<BacktestRow>, k: nat)
    requires config.Valid() && k < |rows|
  {
    rows[k].ticker !in Run(config, rows, k).traded && Qualifies(config, rows[k], BalanceAt(config, rows, k))
  }

  ghost predicate QualifiesAt(config: AppConfig, rows: seq<BacktestRow>, k: nat)
    requires config.Valid() && k < |rows|
  {
    Qualifies(config, rows[k], BalanceAt(config, rows, k))
  }

  /** A ticker is marked as traded exactly if one of its rows qualified. */
  lemma {:induction false} TradedExactly(config: AppConfig, rows: seq<BacktestRow>, k: nat, ticker: string)
    requires config.Valid() && k <= |rows|
    ensures ticker in Run(config, rows, k).traded <==> exists j :: 0 <= j < k && rows[j].ticker == ticker && QualifiesAt(config, rows, j)
  {
    if k > 0 {
      TradedExactly(config, rows, k - 1, ticker);
      AdvanceMarks(config, Run(config, rows, k - 1), rows[k - 1]);
      assert QualifiesAt(config, rows, k - 1) <==> Qualifies(config, rows[k - 1], BalanceAt(config, rows, k - 1));
    }
  }

  lemma AdvanceMarks(config: AppConfig, s: State, row: BacktestRow)
    requires config.Valid()
    ensures Advance(config, s, row).traded == if Qualifies(config, row, s.balance) then s.traded + {row.ticker} else s.traded
  {
  }

  /** A row trades if and only if it is the first of its ticker to clear the edge and size above zero. */
  lemma FirstQualifyingRowTrades(config: AppConfig, rows: seq<BacktestRow>, k: nat)
    requires config.Valid() && k < |rows|
    ensures TradesAt(config, rows, k) <==>
      QualifiesAt(config, rows, k) && forall j :: 0 <= j < k && rows[j].ticker == rows[k].ticker ==> !QualifiesAt(config, rows, j)
  {
    TradedExactly(config, rows, k, rows[k].ticker);
  }

  lemma TickersTradeOnce(config: AppConfig, rows: seq<BacktestRow>, j: nat, k: nat)
    requires config.Valid() && j < |rows| && k < |rows|
    requires TradesAt(config, rows, j) && TradesAt(config, rows, k) && rows[j].ticker == rows[k].ticker
    ensures j == k
  {
    FirstQualifyingRowTrades(config, rows, j);
    FirstQualifyingRowTrades(config, rows, k);
  }

  // ----- Profit ------------------------------------------------------------------------------------------

  /** Payouts of the trades among the first `k` rows. */
  ghost function Payouts(config: AppConfig, rows: seq<BacktestRow>, k: nat): int
    requires config.Valid() && k <= |rows|
  {
    if k == 0 then 0
    else if !TradesAt(config, rows, k - 1) then Payouts(config, rows, k - 1)
    else Payouts(config, rows, k - 1) + Payout(config, rows[k - 1], BalanceAt(config, rows, k - 1))
  }

  ghost function Costs(config: AppConfig, rows: seq<BacktestRow>, k: nat): int
    requires config.Valid() && k <= |rows|
  {
    if k == 0 then 0
    else if !TradesAt(config, rows, k - 1) then Costs(config, rows, k - 1)
    else Costs(config, rows, k - 1) + Cost(config, rows[k - 1], BalanceAt(config, rows, k - 1))
  }

  ghost function TradedRows(config: AppConfig, rows: seq<BacktestRow>, k: nat): set<nat>
    requires config.Valid() && k <= |rows|
  {
    set j: nat | j < k && TradesAt(config, rows, j)
  }

  ghost function WonRows(config: AppConfig, rows: seq<BacktestRow>, k: nat): set<nat>
    requires config.Valid() && k <= |rows|
  {
    set j: nat | j < k && WinsAt(config, rows, j)
  }

  lemma AdvanceBalance(config: AppConfig, s: State, row: BacktestRow)
    requires config.Valid()
    ensures var trades := row.ticker !in s.traded && Qualifies(config, row, s.balance);
      && Advance(config, s, row).balance
         == s.balance + (if trades then Payout(config, row, s.balance) - Cost(config, row, s.balance) else 0)
      && Advance(config, s, row).trades == s.trades + (if trades then 1 else 0)
      && Advance(config, s, row).wins == s.wins + (if trades && Side(config, row) == row.result then 1 else 0)
  {
  }

  /** The final profit is what the trades paid out less what they cost. */
  lemma {:induction false} ProfitIsPayoutsMinusCosts(config: AppConfig, rows: seq<BacktestRow>, k: nat)
    requires config.Valid() && k <= |rows|
    ensures BalanceAt(config, rows, k) - config.paper.startingBalanceCents
         == Payouts(config, rows, k) - Costs(config, rows, k)
  {
    if k > 0 {
      ProfitIsPayoutsMinusCosts(config, rows, k - 1);
      AdvanceBalance(config, Run(config, rows, k - 1), rows[k - 1]);
    }
  }

  // ----- Profit in dollars a contract ----------------------------------------------------------------

  /** What the row asks for the side, with slippage. */
  function AskedPrice(config: AppConfig, row: BacktestRow, side: Outcome): real {
    (if side == Yes then row.yesAsk else row.noAsk) + config.paper.slippageCents as real / 100.0
  }

  /** Contracts of the won rows among the first `k`. */
  ghost function WonContracts(config: AppConfig, rows: seq<BacktestRow>, k: nat): int
    requires config.Valid() && k <= |rows|
  {
    if k == 0 then 0
    else WonContracts(config, rows, k - 1) + if WinsAt(config, rows, k - 1) then Count(config, rows[k - 1], BalanceAt(config, rows, k - 1)) else 0
  }

  /** A traded row takes its price and fee out of the balance, and a won one brings in a dollar a contract; any
      other row leaves the balance. */
  lemma RowMovesBalance(config: AppConfig, rows: seq<BacktestRow>, k: nat, paid: int, fee: int)
    requires config.Valid() && k < |rows|
    requires TradesAt(config, rows, k) ==>
      IsCharged(Count(config, rows[k], BalanceAt(config, rows, k)), AskedPrice(config, rows[k], Side(config, rows[k])),
                config.fees.takerRate, paid, fee)
    ensures var contracts := Count(config, rows[k], BalanceAt(config, rows, k));
      BalanceAt(config, rows, k + 1) - BalanceAt(config, rows, k)
      == if !TradesAt(config, rows, k) then 0
         else (if Side(config, rows[k]) == rows[k].result then 100 * contracts else 0) - paid - fee
  {
    AdvanceBalance(config, Run(config, rows, k), rows[k]);
    if TradesAt(config, rows, k) {
      CostExactly(Count(config, rows[k], BalanceAt(config, rows, k)), AskedPrice(config, rows[k], Side(config, rows[k])),
                  config.fees.takerRate, paid, fee);
    }
  }

  /** The profit is a dollar for every contract of a won row, less what all trades cost. */
  lemma {:induction false} ProfitIsWonDollars(config: AppConfig, rows: seq<BacktestRow>, k: nat)
    requires config.Valid() && k <= |rows|
    ensures BalanceAt(config, rows, k) - config.paper.startingBalanceCents
         == 100 * WonContracts(config, rows, k) - Costs(config, rows, k)
  {
    if k > 0 {
      ProfitIsWonDollars(config, rows, k - 1);
      var row, balance := rows[k - 1], BalanceAt(config, rows, k - 1);
      if TradesAt(config, rows, k - 1) {
        var paid, fee := CostIsCharged(Count(config, row, balance), AskedPrice(config, row, Side(config, row)), config.fees.takerRate);
        CostExactly(Count(config, row, balance), AskedPrice(config, row, Side(config, row)), config.fees.takerRate, paid, fee);
        RowMovesBalance(config, rows, k - 1, paid, fee);
      } else {
        RowMovesBalance(config, rows, k - 1, 0, 0);
      }
    }
  }

  /** `trades` and `wins` count the traded rows and those whose side was the result. */
  lemma {:induction false} CountersCount(config: AppConfig, rows: seq<BacktestRow>, k: nat)
    requires config.Valid() && k <= |rows|
    ensures Run(config, rows, k).trades == |TradedRows(config, rows, k)|
    ensures Run(config, rows, k).wins == |WonRows(config, rows, k)|
  {
    if k > 0 {
      CountersCount(config, rows, k - 1);
      AdvanceBalance(config, Run(config, rows, k - 1), rows[k - 1]);
      TradedRowsGrow(config, rows, k);
      WonRowsGrow(config, rows, k);
    }
  }

  predicate WinsAt(config: AppConfig, rows: seq<BacktestRow>, k: nat)
    requires config.Valid() && k < |rows|
  {
    TradesAt(config, rows, k) && Side(config, rows[k]) == rows[k].result
  }

  lemma TradedRowsGrow(config: AppConfig, rows: seq<BacktestRow>, k: nat)
    requires config.Valid() && 0 < k <= |rows|
    ensures |TradedRows(config, rows, k)| == |TradedRows(config, rows, k - 1)| + if TradesAt(config, rows, k - 1) then 1 else 0
  {
    GrowsBy(TradedRows(config, rows, k - 1), TradedRows(config, rows, k), k - 1, TradesAt(config, rows, k - 1));
  }

  lemma WonRowsGrow(config: AppConfig, rows: seq<BacktestRow>, k: nat)
    requires config.Valid() && 0 < k <= |rows|
    ensures |WonRows(config, rows, k)| == |WonRows(config, rows, k - 1)| + if WinsAt(config, rows, k - 1) then 1 else 0
  {
    GrowsBy(WonRows(config, rows, k - 1), WonRows(config, rows, k), k - 1, WinsAt(config, rows, k - 1));
  }

  lemma GrowsBy(before: set<nat>, after: set<nat>, k: nat, here: bool)
    requires k !in before && forall j :: j in after <==> j in before || (here && j == k)
    ensures |after| == |before| + if here then 1 else 0
  {
    assert after == before + if here then {k} else {};
  }

  // ----- What decides a row ------------------------------------------------------------------------------

  /** The chance the row gives a side. */
  function ChanceOf(row: BacktestRow, side: Outcome): real {
    if side == Yes then row.fairProbability else 1.0 - row.fairProbability
  }

  /** What the side is worth beyond its price and fee. */
  function NetEdge(config: AppConfig, row: BacktestRow, side: Outcome): real {
    ChanceOf(row, side) - CostOf(AskedPrice(config, row, side), config.fees.takerRate)
  }

  lemma EdgeIs(config: AppConfig, row: BacktestRow, side: Outcome)
    ensures Edge(config, row, side) == NetEdge(config, row, side)
    ensures EntryPrice(config, row, side) == AskedPrice(config, row, side)
  {
  }

  /** The side taken is the one worth more, YES on a tie, and the row clears exactly if that is worth the entry
      edge and asked between nothing and a dollar. */
  lemma ClearsExactly(config: AppConfig, row: BacktestRow)
    requires config.Valid()
    ensures var side := Side(config, row);
      && NetEdge(config, row, side) >= NetEdge(config, row, side.Opposite())
      && (side == No ==> NetEdge(config, row, No) > NetEdge(config, row, Yes))
      && (Clears(config, row) <==>
            NetEdge(config, row, side) * 10000.0 >= config.strategy.minEdgeBps as real && 0.0 < AskedPrice(config, row, side) < 1.0)
  {
    EdgeIs(config, row, Yes);
    EdgeIs(config, row, No);
  }

  /** Time from the observation to the market's close. */
  function SecondsLeft(row: BacktestRow): Option<real> {
    if row.closeTime == None then None else Some(row.closeTime.value - row.observedAt)
  }

  /** For every number of contracts: the row buys `n` or more exactly if Kelly, cap and hurdle allow it on the balance,
      the balance pays for them at the price rounded half to even, and the limits hold them. */
  lemma CountExactly(config: AppConfig, row: BacktestRow, balance: int, n: int)
    requires config.Valid() && n >= 1
    ensures var side := Side(config, row);
      var price, chance := AskedPrice(config, row, side), ChanceOf(row, side);
      var cost := CostOf(price, config.fees.takerRate);
      Count(config, row, balance) >= n <==>
        && 0.0 < cost < 1.0 && cost < chance
        && ClearsHurdle(chance, cost, HoldingDays(SecondsLeft(row), config.sizing.defaultDaysToResolution), config.sizing)
        && Staked(n, chance, cost, balance, config.sizing)
        && n * (if HalfEven(price * 100.0) > 1 then HalfEven(price * 100.0) else 1) <= balance
        && RoomFor(n, price, config.risk.maxContractsPerOrder, config.risk.maxOrderNotionalCents, config.risk.maxMarketExposureCents)
  {
    var side := Side(config, row);
    var price := Price(config, row);
    EdgeIs(config, row, side);
    SizeExactly(row.Fair(side), price, config.fees.takerRate, balance, config.sizing, row.SecondsToClose(), n);
    CountIsCapped(config, row, balance, n);
  }

  lemma CountIsCapped(config: AppConfig, row: BacktestRow, balance: int, n: int)
    requires config.Valid() && n >= 1
    ensures Count(config, row, balance) >= n <==>
      && SizedAt(config, row, balance) >= n && n * UnitCents(Price(config, row)) <= balance
      && RoomFor(n, Price(config, row), config.risk.maxContractsPerOrder, config.risk.maxOrderNotionalCents, config.risk.maxMarketExposureCents)
  {
    KellySize.QuotientExactly(n, balance, UnitCents(Price(config, row)));
    CapExactly(Min(SizedAt(config, row, balance), balance / UnitCents(Price(config, row))), Price(config, row),
               config.risk.maxContractsPerOrder, config.risk.maxOrderNotionalCents, config.risk.maxMarketExposureCents, n);
  }

  /** The squared errors of the first `k` rows, traded or not. */
  ghost function SquaredErrors(rows: seq<BacktestRow>, k: nat): real
    requires k <= |rows|
  {
    if k == 0 then 0.0
    else
      var row := rows[k - 1];
      SquaredErrors(rows, k - 1)
      + if row.result == Yes then (1.0 - row.fairProbability) * (1.0 - row.fairProbability) else row.fairProbability * row.fairProbability
  }

  ghost predicate SkippedAt(config: AppConfig, rows: seq<BacktestRow>, k: nat)
    requires config.Valid() && k < |rows|
  {
    && rows[k].ticker !in Run(config, rows, k).traded && Clears(config, rows[k])
    && Count(config, rows[k], BalanceAt(config, rows, k)) == 0
  }

  ghost function SkippedRows(config: AppConfig, rows: seq<BacktestRow>, k: nat): set<nat>
    requires config.Valid() && k <= |rows|
  {
    set j: nat | j < k && SkippedAt(config, rows, j)
  }

  lemma AdvanceScores(config: AppConfig, s: State, row: BacktestRow)
    requires config.Valid()
    ensures Advance(config, s, row).squaredErrors == s.squaredErrors + row.SquaredError()
    ensures Advance(config, s, row).skippedBySizing == s.skippedBySizing
      + if row.ticker !in s.traded && Clears(config, row) && Count(config, row, s.balance) == 0 then 1 else 0
  {
  }

  lemma SquaredErrorIs(row: BacktestRow)
    ensures row.SquaredError() == if row.result == Yes then (1.0 - row.fairProbability) * (1.0 - row.fairProbability)
                                  else row.fairProbability * row.fairProbability
  {
    assert Square(row.fairProbability - 1.0) == (1.0 - row.fairProbability) * (1.0 - row.fairProbability);
  }

  /** The score adds up every row's squared error, and the skip counter counts the untraded rows that cleared the
      edge and sized to nothing. */
  lemma {:induction false} ScoresCount(config: AppConfig, rows: seq<BacktestRow>, k: nat)
    requires config.Valid() && k <= |rows|
    ensures Run(config, rows, k).squaredErrors == SquaredErrors(rows, k)
    ensures Run(config, rows, k).skippedBySizing == |SkippedRows(config, rows, k)|
  {
    if k > 0 {
      ScoresCount(config, rows, k - 1);
      AdvanceScores(config, Run(config, rows, k - 1), rows[k - 1]);
      SquaredErrorIs(rows[k - 1]);
      GrowsBy(SkippedRows(config, rows, k - 1), SkippedRows(config, rows, k), k - 1, SkippedAt(config, rows, k - 1));
    }
  }

  /** The report's three ratios, cleared of their divisions. */
  lemma RatiosOf(config: AppConfig, s: State, evaluated: nat, report: Report)
    requires config.Valid() && report == ReportOf(config, s, evaluated)
    ensures Times(report.roi, config.paper.startingBalanceCents) == (s.balance - config.paper.startingBalanceCents) as real
    ensures s.trades > 0 ==> Times(report.winRate, s.trades) == s.wins as real
    ensures evaluated > 0 ==> Times(report.brierScore, evaluated) == s.squaredErrors
  {
    ShareOf((s.balance - config.paper.startingBalanceCents) as real, config.paper.startingBalanceCents, report.roi);
    if s.trades > 0 {
      ShareOf(s.wins as real, s.trades, report.winRate);
    }
    if evaluated > 0 {
      ShareOf(s.squaredErrors, evaluated, report.brierScore);
    }
  }

  lemma ShareOf(part: real, whole: nat, share: real)
    requires whole > 0 && share == part / whole as real
    ensures Times(share, whole) == part
  {
    Quotient(part, whole as real, share);
    TimesIsProduct(share, whole);
  }

  /** The report's profit is a dollar for every contract won less the costs, and its ratios are those of profit to
      the opening balance, of won to traded rows, and of squared errors to rows. */
  lemma ReportExactly(config: AppConfig, rows: seq<BacktestRow>, report: Report)
    requires config.Valid() && report == ReportOf(config, Run(config, rows, |rows|), |rows|)
    ensures report.startingBalance == config.paper.startingBalanceCents
    ensures report.endingBalance - report.startingBalance == report.pnl
         == 100 * WonContracts(config, rows, |rows|) - Costs(config, rows, |rows|)
    ensures Times(report.roi, report.startingBalance) == report.pnl as real
    ensures report.trades == |TradedRows(config, rows, |rows|)| && report.wins == |WonRows(config, rows, |rows|)|
    ensures report.trades > 0 ==> Times(report.winRate, report.trades) == report.wins as real
    ensures rows != [] ==> Times(report.brierScore, |rows|) == SquaredErrors(rows, |rows|)
    ensures report.skippedBySizing == |SkippedRows(config, rows, |rows|)|
  {
    ProfitIsWonDollars(config, rows, |rows|);
    CountersCount(config, rows, |rows|);
    ScoresCount(config, rows, |rows|);
    RatiosOf(config, Run(config, rows, |rows|), |rows|, report);
  }

  // ----- The balance never goes negative ---------------------------------------------------------------------

  /** With at most half the bankroll at stake a trade costs more than the balance exactly when the balance
      is one cent and there is a fee. */
  lemma TradeOverrunsExactly(config: AppConfig, row: BacktestRow, balance: int)
    requires config.Valid() && config.sizing.maxBankrollFraction <= 0.5
    requires balance >= 0 && Qualifies(config, row, balance)
    ensures Cost(config, row, balance) > balance <==> balance == 1 && config.fees.takerRate > 0.0
  {
    var side, price, rate := Side(config, row), Price(config, row), config.fees.takerRate;
    var count := Count(config, row, balance);
    SizedWithinBankroll(row.Fair(side), price, rate, balance, config.sizing, row.SecondsToClose(), count);
    HalfStake(balance, config.sizing.maxBankrollFraction);
    CostOverrunsExactly(count, price, rate, balance);
  }

  ghost predicate AsksOfACent(rows: seq<BacktestRow>) {
    forall k :: 0 <= k < |rows| ==> rows[k].yesAsk >= CENT && rows[k].noAsk >= CENT
  }

  /** At one cent or more a contract, half of a one-cent balance buys nothing. */
  lemma OneCentBuysNothing(config: AppConfig, row: BacktestRow)
    requires config.Valid() && config.sizing.maxBankrollFraction <= 0.5
    requires row.yesAsk >= CENT && row.noAsk >= CENT
    ensures !Qualifies(config, row, 1)
  {
    if Qualifies(config, row, 1) {
      var side, price, rate := Side(config, row), Price(config, row), config.fees.takerRate;
      var count := Count(config, row, 1);
      SizedWithinBankroll(row.Fair(side), price, rate, 1, config.sizing, row.SecondsToClose(), count);
      HalfStake(1, config.sizing.maxBankrollFraction);
      ContractsCostACent(count, price, rate);
    }
  }

  /** A backtest on asks of a cent or more never runs into debt. */
  lemma {:induction false} BalanceNeverNegative(config: AppConfig, rows: seq<BacktestRow>, k: nat)
    requires config.Valid() && config.sizing.maxBankrollFraction <= 0.5 && AsksOfACent(rows) && k <= |rows|
    ensures BalanceAt(config, rows, k) >= 0
  {
    if k > 0 {
      BalanceNeverNegative(config, rows, k - 1);
      var row, balance := rows[k - 1], BalanceAt(config, rows, k - 1);
      AdvanceBalance(config, Run(config, rows, k - 1), row);
      if Qualifies(config, row, balance) {
        OneCentBuysNothing(config, row);
        TradeOverrunsExactly(config, row, balance);
      }
    }
  }

  /** The exception is real: one cent, a fee and an ask of a tenth of a cent run one cent into debt. */
  lemma SubCentAskOverdraws(config: AppConfig, row: BacktestRow)
    requires config.Valid() && config.sizing == SizingConfig(1.0, 0.5, 0.0, 1.0)
    requires config.paper == PaperConfig(1, 0) && config.strategy.minEdgeBps <= 1000 && config.fees.takerRate == 0.01
    requires row.fairProbability == 0.5 && row.yesAsk == 0.001 && row.noAsk == 0.999 && row.result == No
    ensures config.sizing.maxBankrollFraction <= 0.5
    ensures BalanceAt(config, [row], 1) == -1
  {
    var price, rate := Price(config, row), config.fees.takerRate;
    assert FeePerContract(0.001, 0.01) == 0.00000999;
    assert FeePerContract(0.999, 0.01) == 0.00000999;
    assert Side(config, row) == Yes && price == 0.001;
    assert EffectiveBuyPrice(price, rate) == 0.00100999;
    CentStaked(row.SecondsToClose(), config);
    assert UnitCents(price) == 1 && PerContractCents(price) == 1;
    assert Count(config, row, 1) == 1;
    assert Cost(config, row, 1) == 2;
    assert Run(config, [row], 1) == Advance(config, Start(config), row);
  }

  lemma CentStaked(seconds: Option<real>, config: AppConfig)
    requires config.Valid() && config.sizing == SizingConfig(1.0, 0.5, 0.0, 1.0)
    ensures SizePosition(0.5, 0.001, 0.01, 1, config.sizing, seconds).contracts == 4
  {
    var cost := EffectiveBuyPrice(0.001, 0.01);
    assert cost == 0.00100999;
    var kelly := Kelly(0.5, cost);
    assert 0.49 < kelly < 0.5;
    assert StakeFraction(0.5, cost, config.sizing) == kelly;
  }

  // ----- Drawdown ------------------------------------------------------------------------------------------------

  /** The worst fall from any earlier positive balance: reached by a pair, and above every pair. */
  ghost predicate IsMaxDrawdown(balances: seq<int>, drawdown: real) {
    && (exists i, j :: 0 <= i <= j < |balances| && balances[i] > 0 && drawdown == Fall(balances[i], balances[j]))
    && (forall i, j :: 0 <= i <= j < |balances| && balances[i] > 0 ==> Fall(balances[i], balances[j]) <= drawdown)
  }

  ghost predicate IsPeak(balances: seq<int>, peak: int) {
    peak in balances && forall b :: b in balances ==> b <= peak
  }

  /** A fall to the same non-negative balance is worse from higher up. */
  lemma FallGrowsWithPeak(low: int, high: int, balance: int)
    requires 0 < low <= high && balance >= 0
    ensures Fall(low, balance) <= Fall(high, balance)
  {
    var x, y := balance as real / low as real, balance as real / high as real;
    Quotient(balance as real, low as real, x);
    Quotient(balance as real, high as real, y);
    QuotientMonotone(y, balance as real, high as real, x, balance as real, low as real);
    FallIsShare(low, balance);
    FallIsShare(high, balance);
  }

  lemma FallIsShare(peak: int, balance: int)
    requires peak > 0
    ensures Fall(peak, balance) == 1.0 - balance as real / peak as real
  {
    Quotient(balance as real, peak as real, balance as real / peak as real);
    Quotient((peak - balance) as real, peak as real, Fall(peak, balance));
    CancelFactor(Fall(peak, balance), 1.0 - balance as real / peak as real, peak as real);
  }

  /** One more balance: the running peak and the running maximum stay right. */
  lemma OnePassStep(balances: seq<int>, peak: int, drawdown: real, balance: int)
    requires IsPeak(balances, peak) && peak > 0 && IsMaxDrawdown(balances, drawdown) && balance >= 0
    ensures IsPeak(balances + [balance], Max(peak, balance))
    ensures IsMaxDrawdown(balances + [balance], RealMax(drawdown, Fall(Max(peak, balance), balance)))
  {
    var extended, top := balances + [balance], Max(peak, balance);
    var worst := RealMax(drawdown, Fall(top, balance));
    assert extended[|balances|] == balance;
    forall i, j | 0 <= i <= j < |extended| && extended[i] > 0
      ensures Fall(extended[i], extended[j]) <= worst
    {
      if j == |balances| {
        if i < j {
          assert extended[i] in balances;
        }
        FallGrowsWithPeak(extended[i], top, balance);
      }
    }
    if worst == drawdown {
      var i, j :| 0 <= i <= j < |balances| && balances[i] > 0 && drawdown == Fall(balances[i], balances[j]);
      assert extended[i] == balances[i] && extended[j] == balances[j];
    } else {
      var i := |balances|;
      if balance <= peak {
        i :| 0 <= i < |balances| && balances[i] == peak;
      }
      assert extended[i] == top && worst == Fall(extended[i], extended[|balances|]);
    }
  }

  ghost function Balances(config: AppConfig, rows: seq<BacktestRow>, k: nat): seq<int>
    requires config.Valid() && k <= |rows|
  {
    if k == 0 then [BalanceAt(config, rows, 0)]
    else Balances(config, rows, k - 1) + [BalanceAt(config, rows, k)]
  }

  /** A row that does not trade leaves peak and drawdown as they were, and so would one more step. */
  lemma SameBalanceSameDrawdown(balances: seq<int>, peak: int, drawdown: real)
    requires balances != [] && IsPeak(balances, peak) && peak > 0 && IsMaxDrawdown(balances, drawdown)
    ensures var last := balances[|balances| - 1];
      Max(peak, last) == peak && RealMax(drawdown, Fall(peak, last)) == drawdown
  {
    var i :| 0 <= i < |balances| && balances[i] == peak;
    assert balances[|balances| - 1] in balances;
    assert Fall(balances[i], balances[|balances| - 1]) <= drawdown;
  }

  lemma AdvanceDrawdown(config: AppConfig, s: State, row: BacktestRow)
    requires config.Valid()
    ensures var next := Advance(config, s, row);
      || (next.balance == s.balance && next.peak == s.peak && next.maxDrawdown == s.maxDrawdown)
      || (next.peak == Max(s.peak, next.balance) && next.maxDrawdown == RealMax(s.maxDrawdown, Fall(next.peak, next.balance)))
  {
  }

  /** While the balance stays non-negative the one-pass figure is the true maximum drawdown over all pairs
      of balances, the starting one included. */
  lemma {:induction false} OnePassDrawdown(config: AppConfig, rows: seq<BacktestRow>, k: nat)
    requires config.Valid() && k <= |rows|
    requires forall j :: 0 <= j <= k ==> BalanceAt(config, rows, j) >= 0
    ensures Balances(config, rows, k) != [] && Balances(config, rows, k)[|Balances(config, rows, k)| - 1] == BalanceAt(config, rows, k)
    ensures IsPeak(Balances(config, rows, k), Run(config, rows, k).peak) && Run(config, rows, k).peak > 0
    ensures IsMaxDrawdown(Balances(config, rows, k), Run(config, rows, k).maxDrawdown)
  {
    if k == 0 {
      var start := config.paper.startingBalanceCents;
      assert Balances(config, rows, 0) == [start];
      assert Fall(start, start) == 0.0;
    } else {
      OnePassDrawdown(config, rows, k - 1);
      var before, balance := Run(config, rows, k - 1), BalanceAt(config, rows, k);
      AdvanceDrawdown(config, before, rows[k - 1]);
      OnePassStep(Balances(config, rows, k - 1), before.peak, before.maxDrawdown, balance);
      SameBalanceSameDrawdown(Balances(config, rows, k - 1), before.peak, before.maxDrawdown);
    }
  }

  /** The reported drawdown of a backtest on asks of a cent or more is the true one. */
  lemma ReportedDrawdown(config: AppConfig, rows: seq<BacktestRow>)
    requires config.Valid() && config.sizing.maxBankrollFraction <= 0.5 && AsksOfACent(rows)
    ensures IsMaxDrawdown(Balances(config, rows, |rows|), ReportOf(config, Run(config, rows, |rows|), |rows|).maxDrawdown)
  {
    forall j | 0 <= j <= |rows|
      ensures BalanceAt(config, rows, j) >= 0
    {
      BalanceNeverNegative(config, rows, j);
    }
    OnePassDrawdown(config, rows, |rows|);
  }
}
