/** What every run of the paper machine keeps: the ledger is the replay of the journal, settled rows
    are final, and exposure stays bounded. */
module PaperInvariants {
  import opened Domain
  import opened Config
  import opened Risk
  import opened Ledger
  import opened Broker
  import opened PaperSteps
  import opened Runs
  import opened PaperPaths

  // ----- Sums over the journal ------------------------------------------------------

  lemma {:induction false} SumUpdate(journal: seq<Row>, i: nat, row: Row, column: Row -> int)
    requires i < |journal|
    ensures Sum(journal[i := row], column) == Sum(journal, column) - column(journal[i]) + column(row)
  {
    var n := |journal| - 1;
    if i == n {
      assert journal[i := row][..n] == journal[..n];
    } else {
      assert journal[i := row][..n] == journal[..n][i := row];
      SumUpdate(journal[..n], i, row, column);
    }
  }

  // ----- The ledger is the replay of the journal --------------------------------------

  /** What a row says it moved in cash. */
  function CashColumn(): Row -> int {
    (row: Row) =>
      if row.status != Filled || row.averageFillPrice.None? then 0
      else if row.intent.IsBuy() then -FillCost(row.intent, row.averageFillPrice.value, row.feeCents)
      else SaleProceeds(row.intent, row.averageFillPrice.value, row.feeCents)
  }

  /** What a row says it moved in contracts of one side of one market. */
  function HeldColumn(key: Key): Row -> int {
    (row: Row) =>
      if row.status != Filled || (row.intent.ticker, row.intent.outcome) != key then 0
      else if row.intent.IsBuy() then row.intent.count
      else -row.intent.count
  }

  ghost predicate CashReplays(start: int, b: Books) {
    b.balanceCents == start + Sum(b.journal, CashColumn())
  }

  ghost predicate HoldingsReplay(b: Books) {
    forall key :: LotOf(b.positions, key).count == Sum(b.journal, HeldColumn(key))
  }

  /** Cash plus open cost basis minus realized profit is what the account started with. */
  ghost predicate Conserves(start: int, b: Books) {
    b.balanceCents + TotalExposure(b.positions) - b.realizedCents == start
  }

  ghost predicate Replays(start: int, b: Books) {
    CashReplays(start, b) && HoldingsReplay(b) && Conserves(start, b)
  }

  /** A row change outside the ledger moves neither cash nor contracts. */
  lemma QuietRowChange(start: int, b: Books, i: nat, row: Row)
    requires i < |b.journal| && Replays(start, b)
    requires b.journal[i].status != Filled && row.status != Filled
    ensures Replays(start, b.(journal := b.journal[i := row]))
  {
    SumUpdate(b.journal, i, row, CashColumn());
    forall key ensures Sum(b.journal[i := row], HeldColumn(key)) == Sum(b.journal, HeldColumn(key)) {
      SumUpdate(b.journal, i, row, HeldColumn(key));
    }
  }

  /** One ledger transaction and its journal row move cash and contracts alike. */
  lemma FillReplays(start: int, fees: FeeConfig, b: Books, i: nat, price: real)
    requires i < |b.journal| && Replays(start, b) && b.journal[i].status != Filled
    requires Applied(fees, b, b.journal[i].intent, price).Ok?
    ensures var filled := Applied(fees, b, b.journal[i].intent, price).value;
      Replays(start, filled.(journal := b.journal[i := FilledRow(fees, b.journal[i], price)]))
  {
    var intent := b.journal[i].intent;
    var filled := Applied(fees, b, intent, price).value;
    var row := FilledRow(fees, b.journal[i], price);
    SumUpdate(b.journal, i, row, CashColumn());
    forall key ensures LotOf(filled.positions, key).count == Sum(b.journal[i := row], HeldColumn(key)) {
      SumUpdate(b.journal, i, row, HeldColumn(key));
      assert LotOf(b.positions, key).count == Sum(b.journal, HeldColumn(key));
    }
    AppliedConserves(start, fees, b, intent, price);
  }

  lemma AppliedConserves(start: int, fees: FeeConfig, b: Books, intent: Intent, price: real)
    requires Conserves(start, b) && Applied(fees, b, intent, price).Ok?
    ensures Conserves(start, Applied(fees, b, intent, price).value)
  {
    var key := (intent.ticker, intent.outcome);
    var lot := LotOf(b.positions, key);
    var after := Applied(fees, b, intent, price).value;
    if intent.IsBuy() || lot.count != intent.count {
      ExposureAfterUpdate(b.positions, key, after.positions[key]);
    } else {
      ExposureAfterDelete(b.positions, key);
      WholeLotReleased(lot);
    }
  }

  lemma WholeLotReleased(lot: Lot)
    requires lot.count > 0
    ensures ReleasedCost(lot, lot.count) == lot.costCents
  {
    ExactDivision(lot.costCents, lot.count);
  }

  lemma ExactDivision(x: int, d: int)
    requires d > 0
    ensures x * d / d == x
  {
    var q, r := x * d / d, x * d % d;
    if x > q {
      IntProductMonotone(q + 1, x, d);
    } else if x < q {
      IntProductMonotone(x, q - 1, d);
    }
  }

  lemma JournalingReplays(start: int, b: Books, after: Books, intent: Intent, now: real)
    requires Replays(start, b) && Journals(b, after, intent, now)
    ensures Replays(start, after)
  {
    SumAppend(b.journal, PendingRow(intent, now), CashColumn());
    forall key ensures Sum(after.journal, HeldColumn(key)) == Sum(b.journal, HeldColumn(key)) {
      SumAppend(b.journal, PendingRow(intent, now), HeldColumn(key));
    }
  }

  lemma SettlingReplays(config: AppConfig, start: int, b: Books, after: Books, i: nat, price: real)
    requires WellFormed(b) && Replays(start, b) && Settles(config, b, after, i, price)
    ensures Replays(start, after)
  {
    SettledIs(config.fees, b, i, price);
    if Applied(config.fees, b, b.journal[i].intent, price).Ok? {
      FillReplays(start, config.fees, b, i, price);
    } else {
      QuietRowChange(start, b, i, RefusedRow(b.journal[i]));
    }
  }

  lemma ElementaryReplays(config: AppConfig, start: int, b: Books, after: Books)
    requires WellFormed(b) && Replays(start, b) && Elementary(config, b, after)
    ensures Replays(start, after)
  {
    if intent, now :| Journals(b, after, intent, now) {
      JournalingReplays(start, b, after, intent, now);
    } else if i, price :| Settles(config, b, after, i, price) {
      SettlingReplays(config, start, b, after, i, price);
    } else {
      var i, row :| Moves(config, b, after, i, row);
      QuietRowChange(start, b, i, row);
    }
  }

  /** At the end of every run, cash, every position and the cost basis are what the journal's filled
      rows add up to. */
  lemma LedgerIsReplayOfJournal(config: AppConfig, steps: seq<Step>)
    requires config.Valid() && SaneRun(steps)
    ensures Replays(config.paper.startingBalanceCents, Run(config, steps))
  {
    var start := config.paper.startingBalanceCents;
    var kept := (b: Books) => WellFormed(b) && Replays(start, b);
    forall s, t | kept(s) && Changes(config)(s, t)
      ensures kept(t)
    {
      ElementaryReplays(config, start, s, t);
      ElementaryKeepsWellFormed(config, s, t);
    }
    RunKeeps(config, kept, steps);
  }

  // ----- Settled rows are final ------------------------------------------------------------

  /** Rows keep their place and intent, and a filled, rejected or canceled row never changes again. */
  ghost predicate Preserves(b: Books, after: Books) {
    && |b.journal| <= |after.journal|
    && forall i :: 0 <= i < |b.journal| ==>
        && after.journal[i].intent == b.journal[i].intent
        && (Terminal(b.journal[i].status) ==> after.journal[i] == b.journal[i])
  }

  lemma SettlingPreserves(config: AppConfig, b: Books, after: Books, i: nat, price: real)
    requires WellFormed(b) && Settles(config, b, after, i, price)
    ensures Preserves(b, after)
  {
    var row := SettledJournal(config.fees, b, i, price);
    SettledIs(config.fees, b, i, price);
  }

  lemma ElementaryPreserves(config: AppConfig, b: Books, after: Books)
    requires WellFormed(b) && Elementary(config, b, after)
    ensures Preserves(b, after)
  {
    if i, price :| Settles(config, b, after, i, price) {
      SettlingPreserves(config, b, after, i, price);
    }
  }

  lemma PreservesTransitive(b: Books, mid: Books, after: Books)
    requires Preserves(b, mid) && Preserves(mid, after)
    ensures Preserves(b, after)
  {
  }

  lemma StarPreserves(config: AppConfig, b: Books, after: Books, n: nat)
    requires config.Valid() && WellFormed(b) && Star(Changes(config), b, after, n)
    ensures Preserves(b, after)
  {
    var kept := (v: Books) => WellFormed(v) && Preserves(b, v);
    forall s, t | kept(s) && Changes(config)(s, t)
      ensures kept(t)
    {
      ElementaryPreserves(config, s, t);
      PreservesTransitive(b, s, t);
      ElementaryKeepsWellFormed(config, s, t);
    }
    StarKeeps(Changes(config), kept, b, after, n);
  }

  /** Whatever a run does after its first `from` steps, the rows settled by then stay as they are. */
  lemma SettledRowsAreFinal(config: AppConfig, steps: seq<Step>, from: nat)
    requires config.Valid() && SaneRun(steps) && from <= |steps|
    ensures Preserves(Run(config, steps[..from]), Run(config, steps))
  {
    RunPath(config, steps[..from], 0);
    RunPath(config, steps, from);
    var n: nat :| Star(Changes(config), Run(config, steps[..from]), Run(config, steps), n);
    StarPreserves(config, Run(config, steps[..from]), Run(config, steps), n);
  }

  ghost predicate FillsRow(b: Books, after: Books, i: nat) {
    && i < |b.journal| == |after.journal|
    && b.journal[i].status != Filled
    && after.journal[i].status == Filled
    && after.journal == b.journal[i := after.journal[i]]
  }

  ghost predicate SameLedger(b: Books, after: Books) {
    after.balanceCents == b.balanceCents && after.positions == b.positions && after.realizedCents == b.realizedCents
  }

  lemma SettlingFillsOneRow(config: AppConfig, b: Books, after: Books, i: nat, price: real)
    requires WellFormed(b) && Settles(config, b, after, i, price) && !SameLedger(b, after)
    ensures FillsRow(b, after, i)
  {
    var row := b.journal[i];
    SettledIs(config.fees, b, i, price);
    AppliedJournal(config.fees, b, row.intent, price);
    assert Applied(config.fees, b, row.intent, price).Ok?;
    assert after.journal == b.journal[i := FilledRow(config.fees, row, price)];
  }

  /** The ledger only ever moves while one row turns from unfilled to filled, and a filled row is
      final: no order fills twice. */
  lemma LedgerMovesOncePerOrder(config: AppConfig, b: Books, after: Books)
    requires WellFormed(b) && Elementary(config, b, after) && !SameLedger(b, after)
    ensures exists i :: FillsRow(b, after, i)
  {
    var i, price :| Settles(config, b, after, i, price);
    SettlingFillsOneRow(config, b, after, i, price);
  }
}
