/** What an orderly shutdown leaves of the journal. */
module Shutdown {
  import opened Wrappers
  import opened Domain
  import opened Config
  import opened Ledger
  import opened Engine
  import opened PaperSteps
  import opened PaperPaths

  ghost predicate Listed(row: Row, orderIds: seq<string>) {
    row.orderId.Some? && row.orderId.value in orderIds
  }

  function WhenCanceled(row: Row, canceled: bool): Row {
    if canceled then row.(status := Canceled) else row
  }

  /** The updates one after the other cancel the rows whose order ID is listed, whatever their status. */
  lemma {:induction false} CancelAllMarks(b: Books, orderIds: seq<string>)
    ensures var after := CancelAll(b, orderIds);
      && after == b.(journal := after.journal) && |after.journal| == |b.journal|
      && forall i :: 0 <= i < |b.journal| ==>
           after.journal[i] == WhenCanceled(b.journal[i], Listed(b.journal[i], orderIds))
  {
    if orderIds != [] {
      var n := |orderIds| - 1;
      CancelAllMarks(b, orderIds[..n]);
      assert orderIds == orderIds[..n] + [orderIds[n]];
    }
  }

  lemma {:induction false} RestingRowIsListed(journal: seq<Row>, i: nat)
    requires i < |journal| && journal[i].status == Resting && journal[i].orderId.Some?
    ensures Listed(journal[i], RestingOrderIds(journal))
  {
    var n := |journal| - 1;
    if i < n {
      assert journal[..n][i] == journal[i];
      RestingRowIsListed(journal[..n], i);
    }
  }

  lemma {:induction false} ListedIsResting(journal: seq<Row>, orderId: string) returns (i: nat)
    requires orderId in RestingOrderIds(journal)
    ensures i < |journal| && journal[i].orderId == Some(orderId) && journal[i].status == Resting
  {
    var n := |journal| - 1;
    if orderId in RestingOrderIds(journal[..n]) {
      i := ListedIsResting(journal[..n], orderId);
    } else {
      i := n;
    }
  }

  /** Canceling every listed order leaves no row at rest, turns each row that rested into a canceled one, and
      changes no other row and nothing else in the tables. */
  lemma ShutdownCancelsExactlyTheResting(b: Books)
    requires WellFormed(b)
    ensures var after := CancelAll(b, RestingOrderIds(b.journal));
      && after == b.(journal := after.journal) && |after.journal| == |b.journal|
      && forall i :: 0 <= i < |b.journal| ==>
           && after.journal[i].status != Resting
           && after.journal[i] == if b.journal[i].status == Resting then b.journal[i].(status := Canceled) else b.journal[i]
  {
    var orderIds := RestingOrderIds(b.journal);
    CancelAllMarks(b, orderIds);
    forall i | 0 <= i < |b.journal|
      ensures Listed(b.journal[i], orderIds) <==> b.journal[i].status == Resting
    {
      assert RowOk(b.journal[i]);
      if b.journal[i].status == Resting {
        RestingRowIsListed(b.journal, i);
      } else if Listed(b.journal[i], orderIds) {
        var k := ListedIsResting(b.journal, b.journal[i].orderId.value);
        OrderIdsUnique(b, i, k);
      }
    }
  }

  lemma RunSnoc(config: AppConfig, steps: seq<Step>, step: Step)
    requires config.Valid()
    ensures Run(config, steps + [step]) == Apply(config, Run(config, steps), step)
  {
    assert (steps + [step])[..|steps|] == steps;
  }

  lemma WholeShutdown(config: AppConfig, b: Books, handled: nat)
    requires config.Valid() && handled >= |RestingOrderIds(b.journal)|
    ensures Apply(config, b, Shutdown(handled)) == CancelAll(b, RestingOrderIds(b.journal))
  {
  }

  /** So an orderly shutdown at the end of any run leaves no order at rest, if it comes to the end of the list. */
  lemma ShutdownLeavesNothingResting(config: AppConfig, steps: seq<Step>, handled: nat)
    requires config.Valid() && SaneRun(steps) && handled >= |RestingOrderIds(Run(config, steps).journal)|
    ensures var journal := Run(config, steps + [Shutdown(handled)]).journal;
      forall i :: 0 <= i < |journal| ==> journal[i].status != Resting
  {
    RunPath(config, steps, |steps|);
    RunSnoc(config, steps, Shutdown(handled));
    WholeShutdown(config, Run(config, steps), handled);
    ShutdownCancelsExactlyTheResting(Run(config, steps));
  }
}
