/** When a market can be held on both sides: only with orders that rest, and room for two of them. */
module PaperSides {
  import opened Domain
  import opened Config
  import opened Ledger
  import opened Broker
  import opened PaperSteps
  import opened PaperPaths
  import opened PaperInvariants
  import opened PaperLimits

  // ----- One open order at a time --------------------------------------------------------

  predicate RestingBuy(row: Row) {
    row.status == Resting && row.intent.IsBuy()
  }

  /** At most one buy rests, the other side of its market is not held, and no market is held on both sides. */
  ghost predicate OneBuyAtATime(b: Books) {
    && NeverBoth(b)
    && (forall i :: 0 <= i < |b.journal| && RestingBuy(b.journal[i]) ==>
          (b.journal[i].intent.ticker, b.journal[i].intent.outcome.Opposite()) !in b.positions)
    && (forall i, j :: 0 <= i < |b.journal| && 0 <= j < |b.journal| && RestingBuy(b.journal[i]) && RestingBuy(b.journal[j]) ==> i == j)
  }

  lemma {:induction false} OpenRowsCount(journal: seq<Row>, i: nat)
    requires i < |journal| && journal[i].status in {Pending, Resting}
    ensures OpenOrderCount(journal) >= 1
  {
    var n := |journal| - 1;
    OpenCountNonNegative(journal[..n]);
    if i < n {
      OpenRowsCount(journal[..n], i);
    }
  }

  lemma {:induction false} OpenCountNonNegative(journal: seq<Row>)
    ensures OpenOrderCount(journal) >= 0
  {
    if journal != [] {
      OpenCountNonNegative(journal[..|journal| - 1]);
    }
  }

  /** Where one order may be open, an open order is the only one. */
  lemma NoOtherOpen(journal: seq<Row>, i: nat, j: nat)
    requires OpenOrderCount(journal) <= 1 && i < |journal| && j < |journal| && i != j
    requires journal[i].status in {Pending, Resting}
    ensures journal[j].status !in {Pending, Resting}
  {
    if journal[j].status in {Pending, Resting} {
      var closed := journal[i].(status := Rejected);
      SumUpdate(journal, i, closed, OpenFlag());
      OpenRowsCount(journal[i := closed], j);
    }
  }

  lemma NothingElseRests(config: AppConfig, b: Books, i: nat)
    requires config.risk.maxOpenOrders == 1 && i < |b.journal| && b.journal[i].status == Pending
    requires Cleared(config, b, b.journal[i].intent) && b.journal[i].intent.IsBuy()
    ensures forall j :: 0 <= j < |b.journal| ==> !RestingBuy(b.journal[j])
  {
    forall j | 0 <= j < |b.journal|
      ensures !RestingBuy(b.journal[j])
    {
      if j != i {
        NoOtherOpen(b.journal, i, j);
      }
    }
  }

  lemma SettlingKeepsOneBuy(config: AppConfig, b: Books, after: Books, i: nat, price: real)
    requires WellFormed(b) && OneBuyAtATime(b) && config.risk.maxOpenOrders == 1 && Settles(config, b, after, i, price)
    ensures OneBuyAtATime(after)
  {
    var row := b.journal[i];
    var result := SettledRow(config, b, after, i, price);
    if Applied(config.fees, b, row.intent, price).Ok? {
      if row.intent.IsBuy() && row.status == Pending {
        NothingElseRests(config, b, i);
        OppositeIsFlat(b, row.intent.ticker, row.intent.outcome);
      }
      AppliedKeepsOneSide(config.fees, b, row.intent, price);
      AppliedKeys(config, b, i, price);
      assert NeverBoth(after) by {
        assert forall ticker :: OneSided(Applied(config.fees, b, row.intent, price).value, ticker) <==> OneSided(after, ticker);
      }
    } else {
      assert forall ticker :: OneSided(b, ticker) <==> OneSided(after, ticker);
    }
  }

  /** A fill adds at most its own key. */
  lemma AppliedKeys(config: AppConfig, b: Books, i: nat, price: real)
    requires i < |b.journal| && Applied(config.fees, b, b.journal[i].intent, price).Ok?
    ensures var intent, after := b.journal[i].intent, Applied(config.fees, b, b.journal[i].intent, price).value;
      after.positions.Keys <= b.positions.Keys + if intent.IsBuy() then {(intent.ticker, intent.outcome)} else {}
  {
  }

  lemma MovingKeepsOneBuy(config: AppConfig, b: Books, after: Books, i: nat, row: Row)
    requires WellFormed(b) && OneBuyAtATime(b) && config.risk.maxOpenOrders == 1 && Moves(config, b, after, i, row)
    ensures OneBuyAtATime(after)
  {
    assert forall ticker :: OneSided(b, ticker) <==> OneSided(after, ticker);
    if RestingBuy(row) {
      NothingElseRests(config, b, i);
      OppositeIsFlat(b, row.intent.ticker, row.intent.outcome);
    }
  }

  lemma ElementaryKeepsOneBuy(config: AppConfig, b: Books, after: Books)
    requires WellFormed(b) && OneBuyAtATime(b) && config.risk.maxOpenOrders == 1 && Elementary(config, b, after)
    ensures OneBuyAtATime(after)
  {
    if intent, now :| Journals(b, after, intent, now) {
      assert forall ticker :: OneSided(b, ticker) <==> OneSided(after, ticker);
    } else if i, price :| Settles(config, b, after, i, price) {
      SettlingKeepsOneBuy(config, b, after, i, price);
    } else {
      var i, row :| Moves(config, b, after, i, row);
      MovingKeepsOneBuy(config, b, after, i, row);
    }
  }

  lemma RunKeepsOneBuy(config: AppConfig, steps: seq<Step>)
    requires config.Valid() && SaneRun(steps) && config.risk.maxOpenOrders == 1
    ensures OneBuyAtATime(Run(config, steps))
  {
    var kept := (b: Books) => WellFormed(b) && OneBuyAtATime(b);
    forall s, t | kept(s) && Changes(config)(s, t)
      ensures kept(t)
    {
      ElementaryKeepsOneBuy(config, s, t);
      ElementaryKeepsWellFormed(config, s, t);
    }
    RunKeeps(config, kept, steps);
  }

  /** At most one order can be on its way at any time. */
  predicate OneOrderAtATime(config: AppConfig) {
    !CanRest(config) || config.risk.maxOpenOrders == 1
  }

  /** Where no order rests or only one may be open, no run holds both sides of a market. */
  lemma NeverHoldsBoth(config: AppConfig, steps: seq<Step>)
    requires config.Valid() && SaneRun(steps) && OneOrderAtATime(config)
    ensures NeverBoth(Run(config, steps))
  {
    if CanRest(config) {
      RunKeepsOneBuy(config, steps);
    } else {
      TakersFillAtOnce(config, steps);
    }
  }
}
