/** Every step of the paper machine is a chain of elementary changes. */
module PaperPaths {
  import opened Wrappers
  import opened Domain
  import opened Config
  import opened Strategy
  import opened Risk
  import opened Ledger
  import opened Broker
  import opened Engine
  import opened PaperSteps
  import opened Runs

  ghost predicate SaneStep(step: Step) {
    match step
    case Process(input) => SaneQuote(input.quote)
    case DieReconciling(quote, _) => SaneQuote(quote)
    case DieBeforePlacing(input) => SaneQuote(input.quote)
    case Shutdown(_) => true
  }

  ghost predicate SaneRun(steps: seq<Step>) {
    forall i :: 0 <= i < |steps| ==> SaneStep(steps[i])
  }

  // ----- Resting orders ---------------------------------------------------------------

  ghost predicate Rests(journal: seq<Row>, intent: Intent) {
    exists i :: 0 <= i < |journal| && journal[i].intent == intent && journal[i].status == Resting
  }

  ghost predicate DistinctIds(intents: seq<Intent>) {
    forall i, j :: 0 <= i < j < |intents| ==> intents[i].clientOrderId != intents[j].clientOrderId
  }

  lemma RestsExtends(journal: seq<Row>, row: Row, intent: Intent)
    requires Rests(journal, intent)
    ensures Rests(journal + [row], intent)
  {
    var i :| 0 <= i < |journal| && journal[i].intent == intent && journal[i].status == Resting;
    assert (journal + [row])[i] == journal[i];
  }

  lemma {:induction false} RestingIntentsRest(journal: seq<Row>, ticker: string)
    requires UniqueIds(journal)
    ensures forall k :: 0 <= k < |RestingIntents(journal, ticker)| ==> Rests(journal, RestingIntents(journal, ticker)[k])
    ensures DistinctIds(RestingIntents(journal, ticker))
  {
    if journal != [] {
      var n := |journal| - 1;
      var front := RestingIntents(journal[..n], ticker);
      RestingIntentsRest(journal[..n], ticker);
      assert journal == journal[..n] + [journal[n]];
      forall k | 0 <= k < |front|
        ensures Rests(journal, front[k]) && front[k].clientOrderId != journal[n].intent.clientOrderId
      {
        RestsExtends(journal[..n], journal[n], front[k]);
      }
    }
  }

  /** Changing one row leaves every other order resting. */
  lemma OthersStillRest(journal: seq<Row>, i: nat, row: Row, intent: Intent)
    requires i < |journal| && Rests(journal, intent) && journal[i].intent.clientOrderId != intent.clientOrderId
    ensures Rests(journal[i := row], intent)
  {
    var k :| 0 <= k < |journal| && journal[k].intent == intent && journal[k].status == Resting;
    assert journal[i := row][k] == journal[k];
  }

  // ----- Reconciliation ------------------------------------------------------------------

  lemma SettledJournal(fees: FeeConfig, b: Books, i: nat, price: real) returns (row: Row)
    requires UniqueIds(b.journal) && i < |b.journal|
    ensures Settled(fees, b, b.journal[i].intent, price).journal == b.journal[i := row]
  {
    SettledIs(fees, b, i, price);
    AppliedJournal(fees, b, b.journal[i].intent, price);
    row := if Applied(fees, b, b.journal[i].intent, price).Ok? then FilledRow(fees, b.journal[i], price) else RefusedRow(b.journal[i]);
  }

  lemma AppliedJournal(fees: FeeConfig, b: Books, intent: Intent, price: real)
    ensures Applied(fees, b, intent, price).Ok? ==> Applied(fees, b, intent, price).value.journal == b.journal
  {
  }

  lemma ReconcileOnePath(config: AppConfig, b: Books, intent: Intent, quote: Quote)
    requires config.Valid() && WellFormed(b) && Rests(b.journal, intent)
    ensures Reaches(config, b, ReconcileOne(config, b, intent, quote))
    ensures WellFormed(ReconcileOne(config, b, intent, quote))
    ensures forall other :: Rests(b.journal, other) && other.clientOrderId != intent.clientOrderId
                            ==> Rests(ReconcileOne(config, b, intent, quote).journal, other)
  {
    ReachesSelf(config, b);
    if Touched(intent, quote) {
      var i :| 0 <= i < |b.journal| && b.journal[i].intent == intent && b.journal[i].status == Resting;
      var after := ReconcileOne(config, b, intent, quote);
      assert RowOk(b.journal[i]);
      assert Settles(config, b, after, i, intent.limitPrice);
      OneChange(config, b, after);
      ElementaryKeepsWellFormed(config, b, after);
      var row := SettledJournal(config.fees, b, i, intent.limitPrice);
      forall other | Rests(b.journal, other) && other.clientOrderId != intent.clientOrderId
        ensures Rests(after.journal, other)
      {
        OthersStillRest(b.journal, i, row, other);
      }
    }
  }

  lemma {:induction false} ReconcilePath(config: AppConfig, b: Books, intents: seq<Intent>, quote: Quote)
    requires config.Valid() && WellFormed(b) && DistinctIds(intents)
    requires forall k :: 0 <= k < |intents| ==> Rests(b.journal, intents[k])
    ensures Reaches(config, b, Reconcile(config, b, intents, quote))
    ensures WellFormed(Reconcile(config, b, intents, quote))
    ensures forall other :: Rests(b.journal, other) && (forall k :: 0 <= k < |intents| ==> intents[k].clientOrderId != other.clientOrderId)
                            ==> Rests(Reconcile(config, b, intents, quote).journal, other)
  {
    if intents == [] {
      ReachesSelf(config, b);
    } else {
      var n := |intents| - 1;
      var mid := Reconcile(config, b, intents[..n], quote);
      ReconcilePath(config, b, intents[..n], quote);
      assert Rests(mid.journal, intents[n]);
      ReconcileOnePath(config, mid, intents[n], quote);
      ReachesThen(config, b, mid, Reconcile(config, b, intents, quote));
    }
  }

  lemma ReconcilingPath(config: AppConfig, b: Books, quote: Quote, handled: nat)
    requires config.Valid() && WellFormed(b)
    ensures var after := Reconcile(config, b, Take(RestingIntents(b.journal, quote.ticker), handled), quote);
      Reaches(config, b, after) && WellFormed(after)
  {
    RestingIntentsRest(b.journal, quote.ticker);
    ReconcilePath(config, b, Take(RestingIntents(b.journal, quote.ticker), handled), quote);
  }

  lemma ReconciledPath(config: AppConfig, b: Books, quote: Quote)
    requires config.Valid() && WellFormed(b)
    ensures Reaches(config, b, Reconciled(config, b, quote)) && WellFormed(Reconciled(config, b, quote))
  {
    var intents := RestingIntents(b.journal, quote.ticker);
    ReconcilingPath(config, b, quote, |intents|);
  }

  // ----- Submission -------------------------------------------------------------------------

  lemma SumAppend(journal: seq<Row>, row: Row, column: Row -> int)
    ensures Sum(journal + [row], column) == Sum(journal, column) + column(row)
  {
    assert (journal + [row])[..|journal|] == journal;
  }

  lemma JournalingPath(config: AppConfig, b: Books, intent: Intent, now: real)
    requires config.Valid() && WellFormed(b) && intent.count > 0 && !Has(b.journal, intent.clientOrderId)
    ensures var after := RecordIntent(b, intent, now).value;
      Reaches(config, b, after) && WellFormed(after) && Journals(b, after, intent, now)
  {
    var after := RecordIntent(b, intent, now).value;
    assert Journals(b, after, intent, now);
    OneChange(config, b, after);
    ElementaryKeepsWellFormed(config, b, after);
  }

  /** What strategy and risk have established about an intent by the time it is placed. */
  lemma ApprovedIsCleared(config: AppConfig, b: Books, input: Input, intent: Intent)
    requires config.Valid() && !Has(b.journal, intent.clientOrderId)
    requires Proposal(config, b, input) == Trade(intent)
    requires Verdict(config, b, intent, input) == Approved
    ensures Cleared(config, RecordIntent(b, intent, input.now).value, intent)
  {
    var ticker := input.quote.ticker;
    IntentAnatomy(config, input.signal, input.quote, Snapshot(b, ticker), PaperPosition(b.positions, ticker),
                  input.clientOrderId, input.now, intent);
    SumAppend(b.journal, PendingRow(intent, input.now), OpenFlag());
    if intent.IsBuy() {
      BuyVerdict(config, Snapshot(b, ticker), intent, input.quote, LastOrderAt(b.journal, ticker), input.killSwitch, input.now);
    }
  }

  lemma BuyVerdict(config: AppConfig, portfolio: Portfolio, intent: Intent, quote: Quote, lastOrderAt: Option<real>,
                   killSwitch: bool, now: real)
    requires intent.IsBuy() && Judge(intent, quote, portfolio, config, lastOrderAt, killSwitch, now) == Approved
    ensures 0 < intent.count <= config.risk.maxContractsPerOrder
    ensures 0 < intent.MaxLossCents() <= config.risk.maxOrderNotionalCents
    ensures portfolio.marketExposureCents + intent.MaxLossCents() <= config.risk.maxMarketExposureCents
    ensures portfolio.totalExposureCents + intent.MaxLossCents() <= config.risk.maxTotalExposureCents
    ensures portfolio.openOrders < config.risk.maxOpenOrders
    ensures portfolio.balanceCents >= config.risk.minBalanceCents
  {
  }

  /** A taker price no worse than the limit lies in [0, 1] and on the right side of the limit. */
  lemma TakerPriceBounds(config: AppConfig, intent: Intent, quote: Quote)
    requires config.Valid() && SaneQuote(quote)
    ensures 0.0 <= TakerPrice(config.paper, intent, quote) <= 1.0
  {
    assert 0.0 <= quote.Bid(intent.outcome) <= 1.0 && 0.0 <= quote.Ask(intent.outcome) <= 1.0;
  }

  /** A taker limit at least as generous as the slippage is never worse than the fill price. */
  lemma GenerousLimitFills(config: AppConfig, intent: Intent, quote: Quote)
    requires config.Valid() && config.strategy.orderStyle.Taker? && !CanRest(config) && SaneQuote(quote)
    requires if intent.IsBuy() then BuyPrice(config.strategy, quote, intent.outcome) == Some(intent.limitPrice)
             else SellPrice(config.strategy, quote, intent.outcome) == Some(intent.limitPrice)
    ensures !WorseThanLimit(intent, TakerPrice(config.paper, intent, quote))
  {
    assert 0.0 <= quote.Bid(intent.outcome) <= 1.0 && 0.0 <= quote.Ask(intent.outcome) <= 1.0;
  }

  lemma PlacingPath(config: AppConfig, b: Books, i: nat, intent: Intent, quote: Quote)
    requires config.Valid() && WellFormed(b) && SaneQuote(quote)
    requires i < |b.journal| && b.journal[i].intent == intent && b.journal[i].status == Pending
    requires Cleared(config, b, intent)
    requires if intent.IsBuy() then BuyPrice(config.strategy, quote, intent.outcome) == Some(intent.limitPrice)
             else SellPrice(config.strategy, quote, intent.outcome) == Some(intent.limitPrice)
    ensures var (placed, result) := Place(config, b, intent, quote);
      Elementary(config, b, Recorded(placed, result))
  {
    var (placed, result) := Place(config, b, intent, quote);
    var after := Recorded(placed, result);
    FindIs(b.journal, i);
    TakerPriceBounds(config, intent, quote);
    var price := TakerPrice(config.paper, intent, quote);
    if intent.style.Maker? || WorseThanLimit(intent, price) {
      if !CanRest(config) {
        GenerousLimitFills(config, intent, quote);
      }
      var row := WithResult(b.journal[i], result);
      assert Moves(config, b, after, i, row);
    } else {
      assert Settles(config, b, after, i, price);
    }
  }

  lemma SubmitPath(config: AppConfig, b: Books, input: Input, intent: Intent)
    requires config.Valid() && WellFormed(b) && SaneQuote(input.quote)
    requires Proposal(config, b, input) == Trade(intent) && !Has(b.journal, intent.clientOrderId)
    ensures Reaches(config, b, Submit(config, b, intent, input))
  {
    var ticker := input.quote.ticker;
    IntentAnatomy(config, input.signal, input.quote, Snapshot(b, ticker), PaperPosition(b.positions, ticker),
                  input.clientOrderId, input.now, intent);
    var journaled := RecordIntent(b, intent, input.now).value;
    JournalingPath(config, b, intent, input.now);
    var i := |b.journal|;
    var after := Submit(config, b, intent, input);
    if Verdict(config, b, intent, input) == Approved {
      ApprovedIsCleared(config, b, input, intent);
      PlacingPath(config, journaled, i, intent, input.quote);
    } else {
      FindIs(journaled.journal, i);
      assert Moves(config, journaled, after, i, journaled.journal[i].(status := Rejected));
    }
    OneChange(config, journaled, after);
    ReachesThen(config, b, journaled, after);
  }

  lemma PlaceKeepsJournal(config: AppConfig, b: Books, intent: Intent, quote: Quote)
    ensures Place(config, b, intent, quote).0.journal == b.journal
    ensures Place(config, b, intent, quote).1.clientOrderId == intent.clientOrderId
  {
    AppliedJournal(config.fees, b, intent, TakerPrice(config.paper, intent, quote));
  }

  /** Submission appends one row, that of the intent, and touches no other. */
  lemma SubmitRows(config: AppConfig, b: Books, intent: Intent, input: Input)
    requires !Has(b.journal, intent.clientOrderId)
    ensures var journal := Submit(config, b, intent, input).journal;
      && |journal| == |b.journal| + 1
      && (forall i :: 0 <= i < |b.journal| ==> journal[i] == b.journal[i])
      && journal[|b.journal|].intent == intent
  {
    var journaled := RecordIntent(b, intent, input.now).value;
    assert journaled.journal[|b.journal|].intent.clientOrderId == intent.clientOrderId;
    assert Find(journaled.journal, intent.clientOrderId) == |b.journal|;
    PlaceKeepsJournal(config, journaled, intent, input.quote);
  }

  // ----- Shutdown ------------------------------------------------------------------------------

  ghost predicate RestsAs(journal: seq<Row>, orderId: string) {
    exists i :: 0 <= i < |journal| && journal[i].orderId == Some(orderId) && journal[i].status == Resting
  }

  ghost predicate Distinct(ids: seq<string>) {
    forall i, j :: 0 <= i < j < |ids| ==> ids[i] != ids[j]
  }

  lemma PaperIdInjective(a: string, b: string)
    requires PaperId(a) == PaperId(b)
    ensures a == b
  {
    assert a == PaperId(a)[6..] && b == PaperId(b)[6..];
  }

  /** Order IDs identify rows because client order IDs do. */
  lemma OrderIdsUnique(b: Books, i: nat, j: nat)
    requires WellFormed(b) && i < |b.journal| && j < |b.journal|
    requires b.journal[i].orderId.Some? && b.journal[i].orderId == b.journal[j].orderId
    ensures i == j
  {
    assert RowOk(b.journal[i]) && RowOk(b.journal[j]);
    PaperIdInjective(b.journal[i].intent.clientOrderId, b.journal[j].intent.clientOrderId);
  }

  lemma {:induction false} RestingOrderIdsRest(b: Books, n: nat)
    requires WellFormed(b) && n <= |b.journal|
    ensures forall k :: 0 <= k < |RestingOrderIds(b.journal[..n])| ==>
      RestsAs(b.journal[..n], RestingOrderIds(b.journal[..n])[k])
    ensures Distinct(RestingOrderIds(b.journal[..n]))
  {
    if n > 0 {
      RestingOrderIdsRest(b, n - 1);
      assert b.journal[..n][..n - 1] == b.journal[..n - 1];
      var front := RestingOrderIds(b.journal[..n - 1]);
      forall k | 0 <= k < |front|
        ensures RestsAs(b.journal[..n], front[k])
        ensures b.journal[n - 1].orderId != Some(front[k])
      {
        assert RestsAs(b.journal[..n - 1], front[k]);
        var i :| 0 <= i < n - 1 && b.journal[..n - 1][i].orderId == Some(front[k]) && b.journal[..n - 1][i].status == Resting;
        assert b.journal[..n][i] == b.journal[i];
        if b.journal[n - 1].orderId == Some(front[k]) {
          OrderIdsUnique(b, i, n - 1);
        }
      }
      assert b.journal[..n][n - 1] == b.journal[n - 1];
    }
  }

  /** UPDATE ... WHERE order_id = ? changes exactly one row. */
  lemma MarkCanceledIs(b: Books, i: nat)
    requires WellFormed(b) && i < |b.journal| && b.journal[i].orderId.Some?
    ensures MarkCanceled(b, b.journal[i].orderId.value).journal == b.journal[i := b.journal[i].(status := Canceled)]
  {
    forall j | 0 <= j < |b.journal| && j != i
      ensures b.journal[j].orderId != b.journal[i].orderId
    {
      if b.journal[j].orderId == b.journal[i].orderId {
        OrderIdsUnique(b, i, j);
      }
    }
  }

  lemma CancelOnePath(config: AppConfig, b: Books, orderId: string)
    requires config.Valid() && WellFormed(b) && RestsAs(b.journal, orderId)
    ensures Reaches(config, b, MarkCanceled(b, orderId)) && WellFormed(MarkCanceled(b, orderId))
    ensures forall other :: RestsAs(b.journal, other) && other != orderId ==> RestsAs(MarkCanceled(b, orderId).journal, other)
  {
    var i :| 0 <= i < |b.journal| && b.journal[i].orderId == Some(orderId) && b.journal[i].status == Resting;
    var after := MarkCanceled(b, orderId);
    MarkCanceledIs(b, i);
    assert RowOk(b.journal[i]);
    assert Moves(config, b, after, i, b.journal[i].(status := Canceled));
    OneChange(config, b, after);
    ElementaryKeepsWellFormed(config, b, after);
    forall other | RestsAs(b.journal, other) && other != orderId
      ensures RestsAs(after.journal, other)
    {
      var k :| 0 <= k < |b.journal| && b.journal[k].orderId == Some(other) && b.journal[k].status == Resting;
      assert after.journal[k] == b.journal[k];
    }
  }

  lemma {:induction false} CancelPath(config: AppConfig, b: Books, orderIds: seq<string>)
    requires config.Valid() && WellFormed(b) && Distinct(orderIds)
    requires forall k :: 0 <= k < |orderIds| ==> RestsAs(b.journal, orderIds[k])
    ensures Reaches(config, b, CancelAll(b, orderIds)) && WellFormed(CancelAll(b, orderIds))
    ensures forall other :: RestsAs(b.journal, other) && other !in orderIds ==> RestsAs(CancelAll(b, orderIds).journal, other)
  {
    if orderIds == [] {
      ReachesSelf(config, b);
    } else {
      var n := |orderIds| - 1;
      var mid := CancelAll(b, orderIds[..n]);
      CancelPath(config, b, orderIds[..n]);
      assert RestsAs(mid.journal, orderIds[n]);
      CancelOnePath(config, mid, orderIds[n]);
      ReachesThen(config, b, mid, CancelAll(b, orderIds));
    }
  }

  // ----- Steps and runs ---------------------------------------------------------------------------

  lemma StepPath(config: AppConfig, b: Books, step: Step)
    requires config.Valid() && WellFormed(b) && SaneStep(step)
    ensures Reaches(config, b, Apply(config, b, step))
  {
    match step
    case Process(input) => CyclePath(config, b, input);
    case DieReconciling(quote, handled) => ReconcilingPath(config, b, quote, handled);
    case DieBeforePlacing(input) => HalfCyclePath(config, b, input);
    case Shutdown(handled) =>
      assert b.journal[..|b.journal|] == b.journal;
      RestingOrderIdsRest(b, |b.journal|);
      CancelPath(config, b, Take(RestingOrderIds(b.journal), handled));
  }

  lemma CyclePath(config: AppConfig, b: Books, input: Input)
    requires config.Valid() && WellFormed(b) && SaneQuote(input.quote)
    ensures Reaches(config, b, Cycle(config, b, input))
  {
    var current := Reconciled(config, b, input.quote);
    ReconciledPath(config, b, input.quote);
    var proposal := Proposal(config, current, input);
    if proposal.Trade? && !Has(current.journal, proposal.intent.clientOrderId) {
      SubmitPath(config, current, input, proposal.intent);
      ReachesThen(config, b, current, Cycle(config, b, input));
    }
  }

  lemma HalfCyclePath(config: AppConfig, b: Books, input: Input)
    requires config.Valid() && WellFormed(b) && SaneQuote(input.quote)
    ensures Reaches(config, b, Apply(config, b, DieBeforePlacing(input)))
  {
    var current := Reconciled(config, b, input.quote);
    ReconciledPath(config, b, input.quote);
    var proposal := Proposal(config, current, input);
    if proposal.Trade? && !Has(current.journal, proposal.intent.clientOrderId) {
      var ticker := input.quote.ticker;
      IntentAnatomy(config, input.signal, input.quote, Snapshot(current, ticker), PaperPosition(current.positions, ticker),
                    input.clientOrderId, input.now, proposal.intent);
      JournalingPath(config, current, proposal.intent, input.now);
      ReachesThen(config, b, current, Apply(config, b, DieBeforePlacing(input)));
    }
  }

  lemma ReachesKeepsWellFormed(config: AppConfig, b: Books, after: Books)
    requires config.Valid() && WellFormed(b) && Reaches(config, b, after)
    ensures WellFormed(after)
  {
    var n: nat :| Star(Changes(config), b, after, n);
    StarKeepsWellFormed(config, b, after, n);
  }

  /** What a run has done so far reaches whatever it does next. */
  lemma RunPath(config: AppConfig, steps: seq<Step>, from: nat)
    requires config.Valid() && SaneRun(steps) && from <= |steps|
    ensures WellFormed(Run(config, steps))
    ensures Reaches(config, Run(config, steps[..from]), Run(config, steps))
  {
    forall b, step | WellFormed(b) && SaneStep(step)
      ensures WellFormed(Stepper(config)(b, step)) && Reach(Changes(config), b, Stepper(config)(b, step))
    {
      StepPath(config, b, step);
      ReachesKeepsWellFormed(config, b, Apply(config, b, step));
    }
    DriveReaches(Stepper(config), Changes(config), WellFormed, SaneStep, Opening(config), steps, from);
  }

  /** What holds at the start and survives every change holds after every run. */
  lemma RunKeeps(config: AppConfig, kept: Books -> bool, steps: seq<Step>)
    requires config.Valid() && SaneRun(steps) && kept(Opening(config))
    requires forall s, t :: kept(s) && Changes(config)(s, t) ==> kept(t)
    ensures kept(Run(config, steps))
  {
    RunPath(config, steps, 0);
    assert steps[..0] == [];
    var n: nat :| Star(Changes(config), Opening(config), Run(config, steps), n);
    StarKeeps(Changes(config), kept, Opening(config), Run(config, steps), n);
  }
}
