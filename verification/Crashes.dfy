/** A crash between the ledger transaction of a fill and the journal update that follows it. */
module Crashes {
  import opened Wrappers
  import opened Domain
  import opened Config
  import opened Ledger
  import opened Broker
  import opened Engine
  import opened PaperSteps
  import opened PaperPaths
  import opened PaperInvariants
  import opened BothSides

  // ----- When a cycle fills a row -------------------------------------------------------------

  /** The ledger can take the fill: cash for a buy, contracts for a sale. */
  predicate Covered(fees: FeeConfig, b: Books, intent: Intent) {
    if intent.IsBuy() then b.balanceCents >= FillCost(intent, intent.limitPrice, FillFee(fees, intent, intent.limitPrice))
    else LotOf(b.positions, (intent.ticker, intent.outcome)).count >= intent.count
  }

  /** The books when reconciliation comes to row `i`: the earlier resting rows have had their turn. */
  function AtTurn(config: AppConfig, b: Books, i: nat, quote: Quote): Books
    requires i < |b.journal|
  {
    Reconcile(config, b, RestingIntents(b.journal[..i], quote.ticker), quote)
  }

  lemma {:induction false} RestingConcat(s: seq<Row>, t: seq<Row>, ticker: string)
    ensures RestingIntents(s + t, ticker) == RestingIntents(s, ticker) + RestingIntents(t, ticker)
  {
    if t == [] {
      assert s + t == s;
    } else {
      var n := |t| - 1;
      assert (s + t)[..|s| + n] == s + t[..n];
      RestingConcat(s, t[..n], ticker);
    }
  }

  lemma {:induction false} ReconcileConcat(config: AppConfig, b: Books, xs: seq<Intent>, ys: seq<Intent>, quote: Quote)
    ensures Reconcile(config, b, xs + ys, quote) == Reconcile(config, Reconcile(config, b, xs, quote), ys, quote)
  {
    if ys == [] {
      assert xs + ys == xs;
    } else {
      var n := |ys| - 1;
      assert (xs + ys)[..|xs| + n] == xs + ys[..n];
      ReconcileConcat(config, b, xs, ys[..n], quote);
    }
  }

  ghost predicate Mentions(intents: seq<Intent>, id: string) {
    exists k :: 0 <= k < |intents| && intents[k].clientOrderId == id
  }

  /** `after` has the rows of `b`, with row `i` untouched. */
  ghost predicate LeavesRow(b: Books, after: Books, i: nat) {
    i < |b.journal| == |after.journal| && UniqueIds(after.journal) && after.journal[i] == b.journal[i]
  }

  lemma ReconcileOneLeavesRow(config: AppConfig, b: Books, intent: Intent, quote: Quote, i: nat)
    requires UniqueIds(b.journal) && i < |b.journal| && intent.clientOrderId != b.journal[i].intent.clientOrderId
    ensures LeavesRow(b, ReconcileOne(config, b, intent, quote), i)
  {
    AppliedJournal(config.fees, b, intent, intent.limitPrice);
  }

  lemma {:induction false} ReconcileLeavesRow(config: AppConfig, b: Books, intents: seq<Intent>, quote: Quote, i: nat)
    requires UniqueIds(b.journal) && i < |b.journal| && !Mentions(intents, b.journal[i].intent.clientOrderId)
    ensures LeavesRow(b, Reconcile(config, b, intents, quote), i)
  {
    if intents != [] {
      var n := |intents| - 1;
      assert forall k :: 0 <= k < n ==> intents[..n][k] == intents[k];
      ReconcileLeavesRow(config, b, intents[..n], quote, i);
      ReconcileOneLeavesRow(config, Reconcile(config, b, intents[..n], quote), intents[n], quote, i);
    }
  }

  lemma {:induction false} MentionedIsListed(journal: seq<Row>, ticker: string, id: string)
    requires Mentions(RestingIntents(journal, ticker), id)
    ensures exists k :: 0 <= k < |journal| && journal[k].intent.clientOrderId == id && journal[k].status == Status.Resting
  {
    var n := |journal| - 1;
    var front := RestingIntents(journal[..n], ticker);
    var k :| 0 <= k < |RestingIntents(journal, ticker)| && RestingIntents(journal, ticker)[k].clientOrderId == id;
    if k < |front| {
      assert front[k].clientOrderId == id;
      MentionedIsListed(journal[..n], ticker, id);
    }
  }

  /** Neither the resting rows before a row nor those after it carry its ID. */
  lemma OthersDoNotMention(journal: seq<Row>, ticker: string, i: nat)
    requires UniqueIds(journal) && i < |journal|
    ensures !Mentions(RestingIntents(journal[..i], ticker), journal[i].intent.clientOrderId)
    ensures !Mentions(RestingIntents(journal[i + 1..], ticker), journal[i].intent.clientOrderId)
  {
    var id := journal[i].intent.clientOrderId;
    if Mentions(RestingIntents(journal[..i], ticker), id) {
      MentionedIsListed(journal[..i], ticker, id);
    }
    if Mentions(RestingIntents(journal[i + 1..], ticker), id) {
      MentionedIsListed(journal[i + 1..], ticker, id);
    }
  }

  predicate HasTurn(row: Row, quote: Quote) {
    row.status == Status.Resting && row.intent.ticker == quote.ticker
  }

  /** Reconciliation is: everything before row `i`, its own turn if it has one, everything after. */
  lemma ReconciledInTurns(config: AppConfig, b: Books, i: nat, quote: Quote) returns (rest: seq<Intent>)
    requires UniqueIds(b.journal) && i < |b.journal|
    ensures !Mentions(rest, b.journal[i].intent.clientOrderId)
    ensures var turn := AtTurn(config, b, i, quote);
      && LeavesRow(b, turn, i)
      && Reconciled(config, b, quote)
         == Reconcile(config, if HasTurn(b.journal[i], quote) then ReconcileOne(config, turn, b.journal[i].intent, quote) else turn, rest, quote)
  {
    var ticker, row := quote.ticker, b.journal[i];
    var before, tail := b.journal[..i], b.journal[i + 1..];
    rest := RestingIntents(tail, ticker);
    OthersDoNotMention(b.journal, ticker, i);
    ReconcileLeavesRow(config, b, RestingIntents(before, ticker), quote, i);
    assert b.journal == before + [row] + tail;
    RestingConcat(before + [row], tail, ticker);
    RestingConcat(before, [row], ticker);
    OwnTurn(config, AtTurn(config, b, i, quote), row, quote);
    ReconcileConcat(config, b, RestingIntents(before, ticker) + RestingIntents([row], ticker), rest, quote);
    ReconcileConcat(config, b, RestingIntents(before, ticker), RestingIntents([row], ticker), quote);
  }

  lemma OwnTurn(config: AppConfig, b: Books, row: Row, quote: Quote)
    ensures Reconcile(config, b, RestingIntents([row], quote.ticker), quote)
         == if HasTurn(row, quote) then ReconcileOne(config, b, row.intent, quote) else b
  {
    assert [row][..0] == [];
    if HasTurn(row, quote) {
      ReconcileAlone(config, b, row.intent, quote);
    }
  }

  /** At its turn a row fills exactly if the book has reached its limit and the ledger covers it. */
  lemma TurnFillsExactly(config: AppConfig, b: Books, i: nat, quote: Quote)
    requires UniqueIds(b.journal) && i < |b.journal| && b.journal[i].status == Status.Resting && b.journal[i].intent.count > 0
    ensures var after := ReconcileOne(config, b, b.journal[i].intent, quote);
      && |after.journal| == |b.journal| && UniqueIds(after.journal)
      && after.journal[i].intent == b.journal[i].intent
      && (after.journal[i].status == Filled <==> Touched(b.journal[i].intent, quote) && Covered(config.fees, b, b.journal[i].intent))
  {
    SettledIs(config.fees, b, i, b.journal[i].intent.limitPrice);
    AppliedJournal(config.fees, b, b.journal[i].intent, b.journal[i].intent.limitPrice);
  }

  lemma ReconciledFillsExactly(config: AppConfig, b: Books, i: nat, quote: Quote)
    requires UniqueIds(b.journal) && i < |b.journal| && b.journal[i].intent.count > 0
    ensures i < |Reconciled(config, b, quote).journal|
    ensures HasTurn(b.journal[i], quote) ==>
      (Reconciled(config, b, quote).journal[i].status == Filled <==>
         Touched(b.journal[i].intent, quote) && Covered(config.fees, AtTurn(config, b, i, quote), b.journal[i].intent))
    ensures !HasTurn(b.journal[i], quote) ==> Reconciled(config, b, quote).journal[i] == b.journal[i]
  {
    var rest := ReconciledInTurns(config, b, i, quote);
    var turn := AtTurn(config, b, i, quote);
    if HasTurn(b.journal[i], quote) {
      TurnFillsExactly(config, turn, i, quote);
      ReconcileLeavesRow(config, ReconcileOne(config, turn, b.journal[i].intent, quote), rest, quote, i);
    } else {
      ReconcileLeavesRow(config, turn, rest, quote, i);
    }
  }

  /** A cycle fills a row that is not yet filled exactly if the row rests in that market, the book has
      reached its limit, and the ledger covers it when its turn comes. */
  lemma CycleFillsExactly(config: AppConfig, b: Books, i: nat, input: Input)
    requires config.Valid() && UniqueIds(b.journal) && i < |b.journal| && b.journal[i].intent.count > 0
    requires b.journal[i].status != Filled
    ensures i < |Cycle(config, b, input).journal|
    ensures Cycle(config, b, input).journal[i].status == Filled <==>
      && HasTurn(b.journal[i], input.quote)
      && Touched(b.journal[i].intent, input.quote)
      && Covered(config.fees, AtTurn(config, b, i, input.quote), b.journal[i].intent)
  {
    ReconciledFillsExactly(config, b, i, input.quote);
    var current := Reconciled(config, b, input.quote);
    var proposal := Proposal(config, current, input);
    if proposal.Trade? && !Has(current.journal, proposal.intent.clientOrderId) {
      SubmitRows(config, current, proposal.intent, input);
    }
  }

  // ----- The crash -------------------------------------------------------------------------------------

  /** The ledger transaction of row `i` has committed and its journal update has not: the row is still
      pending, after a fill at placement, or still resting, after a fill by reconciliation. */
  ghost predicate DiedBetweenTransactions(config: AppConfig, b: Books, after: Books, i: nat, price: real) {
    && i < |b.journal|
    && (b.journal[i].status == Pending || (b.journal[i].status == Status.Resting && price == b.journal[i].intent.limitPrice))
    && Applied(config.fees, b, b.journal[i].intent, price) == Ok(after)
  }

  /** Such a crash breaks the replay: contracts have moved for a row that is not filled. */
  lemma CrashBreaksReplay(config: AppConfig, start: int, b: Books, after: Books, i: nat, price: real)
    requires WellFormed(b) && Replays(start, b) && DiedBetweenTransactions(config, b, after, i, price)
    ensures !HoldingsReplay(after)
  {
    var intent := b.journal[i].intent;
    var key := (intent.ticker, intent.outcome);
    assert RowOk(b.journal[i]);
    AppliedJournal(config.fees, b, intent, price);
    assert LotOf(b.positions, key).count == Sum(b.journal, HeldColumn(key));
    assert LotOf(after.positions, key).count != LotOf(b.positions, key).count;
  }

  /** How many contracts of its own side an order has moved, from `b` to `after`. */
  function Moved(b: Books, after: Books, intent: Intent): int {
    var key := (intent.ticker, intent.outcome);
    LotOf(after.positions, key).count - LotOf(b.positions, key).count
  }

  function Signed(intent: Intent): int {
    if intent.IsBuy() then intent.count else -intent.count
  }

  /** After the crash the same order goes to the ledger a second time, at its own turn in the next
      reconciliation, if and only if it rests, the book has reached its limit, and cash (for a buy) or the
      remaining contracts (for a sale) cover it once more. */
  lemma CrashFillsTwiceExactly(config: AppConfig, b: Books, after: Books, i: nat, price: real, input: Input)
    requires config.Valid() && WellFormed(b) && DiedBetweenTransactions(config, b, after, i, price)
    ensures Moved(b, after, b.journal[i].intent) == Signed(b.journal[i].intent)
    ensures i < |Cycle(config, after, input).journal|
    ensures Cycle(config, after, input).journal[i].status == Filled <==>
      && HasTurn(b.journal[i], input.quote)
      && Touched(b.journal[i].intent, input.quote)
      && Covered(config.fees, AtTurn(config, after, i, input.quote), b.journal[i].intent)
  {
    assert RowOk(b.journal[i]);
    AppliedJournal(config.fees, b, b.journal[i].intent, price);
    CycleFillsExactly(config, after, i, input);
  }

  /** The second fill moves the ledger by the whole order again, and its absence leaves the ledger as it is. */
  lemma SecondFillMovesLedger(config: AppConfig, turn: Books, i: nat, quote: Quote)
    requires UniqueIds(turn.journal) && i < |turn.journal| && turn.journal[i].intent.count > 0
    ensures var intent := turn.journal[i].intent;
      var next := ReconcileOne(config, turn, intent, quote);
      && (Touched(intent, quote) && Covered(config.fees, turn, intent) ==> Moved(turn, next, intent) == Signed(intent))
      && (!(Touched(intent, quote) && Covered(config.fees, turn, intent)) ==> SameLedger(turn, next))
  {
    SettledIs(config.fees, turn, i, turn.journal[i].intent.limitPrice);
  }

  /** An order that died at placement is never filled by a later cycle: its row stays pending, and its
      contracts stay unexplained. */
  lemma CrashAtPlacementStays(config: AppConfig, b: Books, after: Books, i: nat, price: real, input: Input)
    requires config.Valid() && WellFormed(b) && DiedBetweenTransactions(config, b, after, i, price)
    requires b.journal[i].status == Pending
    ensures i < |Cycle(config, after, input).journal| && Cycle(config, after, input).journal[i] == b.journal[i]
  {
    assert RowOk(b.journal[i]);
    AppliedJournal(config.fees, b, b.journal[i].intent, price);
    ReconciledFillsExactly(config, after, i, input.quote);
    var current := Reconciled(config, after, input.quote);
    var proposal := Proposal(config, current, input);
    if proposal.Trade? && !Has(current.journal, proposal.intent.clientOrderId) {
      SubmitRows(config, current, proposal.intent, input);
    }
  }

  // ----- A run that gets there ------------------------------------------------------------------------

  /** An order for one contract rests after one cycle of a desk; the process dies in the middle of its fill,
      and the next cycle leaves two contracts for it. */
  lemma DeskFillsTwice() returns (steps: seq<Step>, after: Books)
    ensures Desk().Valid() && SaneRun(steps)
    ensures DiedBetweenTransactions(Desk(), Run(Desk(), steps), after, 0, 0.41)
    ensures Run(Desk(), steps).journal == [RestingRow(BidFor(Yes), 0.0)] && BidFor(Yes).count == 1
    ensures LotOf(Cycle(Desk(), after, Watches(BidFor(Yes))).positions, ("m", Yes)).count == 2
  {
    var row, bid := RestingRow(BidFor(Yes), 0.0), BidFor(Yes);
    steps := DeskRestsOne();
    var b := Run(Desk(), steps);
    after := DeskDies(b);
    SecondFill(after, row);
  }

  lemma DeskRestsOne() returns (steps: seq<Step>)
    ensures Desk().Valid() && SaneRun(steps)
    ensures Run(Desk(), steps) == Books([RestingRow(BidFor(Yes), 0.0)], 10000, 0, map[])
  {
    DeskBids(Yes);
    var none: seq<Step> := [];
    RunSnoc(Desk(), none, Favours(Yes));
    FirstBid(Desk(), Favours(Yes), BidFor(Yes));
    steps := none + [Process(Favours(Yes))];
  }

  lemma DeskBuys(b: Books)
    requires b.balanceCents == 10000 && b.positions == map[]
    ensures Applied(Desk().fees, b, BidFor(Yes), 0.41)
         == Ok(b.(balanceCents := 9959, positions := map[("m", Yes) := Lot(1, 41)]))
  {
    BidCosts41(Yes);
  }

  lemma DeskDies(b: Books) returns (after: Books)
    requires b == Books([RestingRow(BidFor(Yes), 0.0)], 10000, 0, map[])
    ensures DiedBetweenTransactions(Desk(), b, after, 0, 0.41)
    ensures after == b.(balanceCents := 9959, positions := map[("m", Yes) := Lot(1, 41)])
  {
    DeskBuys(b);
    after := b.(balanceCents := 9959, positions := map[("m", Yes) := Lot(1, 41)]);
    assert b.journal[0].intent == BidFor(Yes);
  }

  lemma SecondFill(b: Books, row: Row)
    requires row == RestingRow(BidFor(Yes), 0.0)
    requires b.journal == [row] && b.balanceCents == 9959 && b.positions == map[("m", Yes) := Lot(1, 41)]
    ensures Desk().Valid()
    ensures LotOf(Cycle(Desk(), b, Watches(BidFor(Yes))).positions, ("m", Yes)).count == 2
  {
    DeskBids(Yes);
    var quote := OfferedAtLimit(BidFor(Yes));
    WatchingReconciles(Desk(), b, BidFor(Yes));
    RestingAlone(row, "m");
    ReconcileAlone(Desk(), b, BidFor(Yes), quote);
    SecondFillMovesLedger(Desk(), b, 0, quote);
  }
}
