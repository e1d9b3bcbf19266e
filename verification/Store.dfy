/** The state store: each method is one transaction of `Ledger` on the stored tables. */
module Store {
  import opened Wrappers
  import opened Domain
  import Ledger

  class StateStore {
    var journal: seq<Ledger.Row>
    var balanceCents: int
    var realizedCents: int
    var positions: map<Ledger.Key, Ledger.Lot>

    ghost function Contents(): Ledger.Books
      reads this
    {
      Ledger.Books(journal, balanceCents, realizedCents, positions)
    }

    /** An empty database after initialize_paper. */
    constructor (startingBalanceCents: int)
      ensures Contents() == Ledger.Books([], startingBalanceCents, 0, map[])
    {
      journal, balanceCents, realizedCents, positions := [], startingBalanceCents, 0, map[];
    }

    method RecordIntent(intent: Intent, now: real) returns (ok: bool)
      modifies this
      ensures ok <==> Ledger.RecordIntent(old(Contents()), intent, now).Ok?
      ensures Contents() == if ok then Ledger.RecordIntent(old(Contents()), intent, now).value else old(Contents())
    {
      ok := !Ledger.Has(journal, intent.clientOrderId);
      if ok {
        journal := journal + [Ledger.PendingRow(intent, now)];
      }
    }

    method RecordResult(result: OrderResult) returns (ok: bool)
      modifies this`journal
      ensures ok <==> Ledger.RecordResult(old(Contents()), result).Ok?
      ensures Contents() == if ok then Ledger.RecordResult(old(Contents()), result).value else old(Contents())
    {
      ok := Ledger.Has(journal, result.clientOrderId);
      if ok {
        var i := Ledger.Find(journal, result.clientOrderId);
        journal := journal[i := Ledger.WithResult(journal[i], result)];
      }
    }

    method RejectIntent(clientOrderId: string) returns (ok: bool)
      modifies this`journal
      ensures ok <==> Ledger.RejectIntent(old(Contents()), clientOrderId).Ok?
      ensures Contents() == if ok then Ledger.RejectIntent(old(Contents()), clientOrderId).value else old(Contents())
    {
      ok := Ledger.Has(journal, clientOrderId);
      if ok {
        var i := Ledger.Find(journal, clientOrderId);
        journal := journal[i := journal[i].(status := Rejected)];
      }
    }

    method MarkCanceled(orderId: string)
      modifies this`journal
      ensures Contents() == Ledger.MarkCanceled(old(Contents()), orderId)
    {
      var rows := journal;
      journal := seq(|rows|, i requires 0 <= i < |rows| =>
        if rows[i].orderId == Some(orderId) then rows[i].(status := Canceled) else rows[i]);
    }

    method ApplyPaperFill(intent: Intent, fillPrice: real, feeCents: int) returns (ok: bool)
      modifies this`balanceCents, this`positions
      ensures ok <==> Ledger.ApplyPaperFill(old(Contents()), intent, fillPrice, feeCents).Ok?
      ensures Contents() == if ok then Ledger.ApplyPaperFill(old(Contents()), intent, fillPrice, feeCents).value else old(Contents())
    {
      var cost := Ledger.FillCost(intent, fillPrice, feeCents);
      ok := balanceCents >= cost;
      if ok {
        balanceCents := balanceCents - cost;
        var key := (intent.ticker, intent.outcome);
        var lot := Ledger.LotOf(positions, key);
        positions := positions[key := Ledger.Lot(lot.count + intent.count, lot.costCents + cost)];
      }
    }

    method ApplyPaperSell(intent: Intent, fillPrice: real, feeCents: int) returns (ok: bool)
      modifies this`balanceCents, this`realizedCents, this`positions
      ensures ok <==> Ledger.ApplyPaperSell(old(Contents()), intent, fillPrice, feeCents).Ok?
      ensures Contents() == if ok then Ledger.ApplyPaperSell(old(Contents()), intent, fillPrice, feeCents).value else old(Contents())
    {
      var proceeds := Ledger.SaleProceeds(intent, fillPrice, feeCents);
      var key := (intent.ticker, intent.outcome);
      var lot := Ledger.LotOf(positions, key);
      ok := lot.count >= intent.count && lot.count > 0;
      if ok {
        var released := Ledger.ReleasedCost(lot, intent.count);
        var remaining := lot.count - intent.count;
        if remaining == 0 {
          positions := positions - {key};
        } else {
          positions := positions[key := Ledger.Lot(remaining, lot.costCents - released)];
        }
        balanceCents := balanceCents + proceeds;
        realizedCents := realizedCents + (proceeds - released);
      }
    }

    /** SELECT SUM(cost_cents) over all positions. */
    method PaperExposure() returns (total: int)
      ensures total == Ledger.TotalExposure(positions)
    {
      total := 0;
      var pending := positions;
      while pending != map[]
        invariant total + Ledger.TotalExposure(pending) == Ledger.TotalExposure(positions)
        decreases pending
      {
        var key :| key in pending;
        Ledger.ExposureWithout(pending, key);
        total := total + pending[key].costCents;
        pending := pending - {key};
      }
    }
  }
}
