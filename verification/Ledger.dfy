/** The durable order journal and the paper ledger, as values: what each transaction makes of them. */
module Ledger {
  import opened Wrappers
  import opened Rounding
  import opened Domain

  /** One row of the orders table; rows stay in insertion order. */
  datatype Row = Row(
    intent: Intent,
    orderId: Option<string>,
    status: Status,
    filledCount: int,
    averageFillPrice: Option<real>,
    feeCents: int,
    createdAt: real)

  datatype Lot = Lot(count: int, costCents: int)

  type Key = (string, Outcome)

  datatype Books = Books(
    journal: seq<Row>,
    balanceCents: int,
    realizedCents: int,
    positions: map<Key, Lot>)

  datatype StateError = DuplicateOrder | UnknownOrder | InsufficientCash | PositionTooSmall

  // ----- The journal ------------------------------------------------------------

  predicate Has(journal: seq<Row>, clientOrderId: string) {
    exists i :: 0 <= i < |journal| && journal[i].intent.clientOrderId == clientOrderId
  }

  function Find(journal: seq<Row>, clientOrderId: string): (i: nat)
    requires Has(journal, clientOrderId)
    ensures i < |journal| && journal[i].intent.clientOrderId == clientOrderId
  {
    var n := |journal| - 1;
    if journal[n].intent.clientOrderId == clientOrderId then n else Find(journal[..n], clientOrderId)
  }

  function PendingRow(intent: Intent, now: real): Row {
    Row(intent, None, Pending, 0, None, 0, now)
  }

  function WithResult(row: Row, result: OrderResult): Row {
    row.(orderId := Some(result.orderId), status := result.status, filledCount := result.filledCount,
         averageFillPrice := result.averageFillPrice, feeCents := result.feeCents)
  }

  function RecordIntent(b: Books, intent: Intent, now: real): Result<Books, StateError> {
    if Has(b.journal, intent.clientOrderId) then Err(DuplicateOrder)
    else Ok(b.(journal := b.journal + [PendingRow(intent, now)]))
  }

  function RecordResult(b: Books, result: OrderResult): Result<Books, StateError> {
    if !Has(b.journal, result.clientOrderId) then Err(UnknownOrder)
    else
      var i := Find(b.journal, result.clientOrderId);
      Ok(b.(journal := b.journal[i := WithResult(b.journal[i], result)]))
  }

  function RejectIntent(b: Books, clientOrderId: string): Result<Books, StateError> {
    if !Has(b.journal, clientOrderId) then Err(UnknownOrder)
    else
      var i := Find(b.journal, clientOrderId);
      Ok(b.(journal := b.journal[i := b.journal[i].(status := Rejected)]))
  }

  /** UPDATE ... WHERE order_id = ?: every row that carries the order ID. */
  function MarkCanceled(b: Books, orderId: string): Books {
    b.(journal := seq(|b.journal|, i requires 0 <= i < |b.journal| =>
      if b.journal[i].orderId == Some(orderId) then b.journal[i].(status := Canceled) else b.journal[i]))
  }

  function RestingIntents(journal: seq<Row>, ticker: string): seq<Intent> {
    if journal == [] then []
    else
      var n := |journal| - 1;
      RestingIntents(journal[..n], ticker)
      + if journal[n].status == Resting && journal[n].intent.ticker == ticker then [journal[n].intent] else []
  }

  function RestingOrderIds(journal: seq<Row>): seq<string> {
    if journal == [] then []
    else
      var n := |journal| - 1;
      RestingOrderIds(journal[..n])
      + if journal[n].status == Resting && journal[n].orderId.Some? then [journal[n].orderId.value] else []
  }

  /** When the latest order that was neither rejected nor canceled was created. */
  function LastOrderAt(journal: seq<Row>, ticker: string): Option<real> {
    if journal == [] then None
    else
      var n := |journal| - 1;
      var earlier := LastOrderAt(journal[..n], ticker);
      if journal[n].intent.ticker != ticker || journal[n].status in {Rejected, Canceled} then earlier
      else if earlier.Some? && earlier.value > journal[n].createdAt then earlier
      else Some(journal[n].createdAt)
  }

  /** The sum of a column over the rows of the journal. */
  function Sum(journal: seq<Row>, column: Row -> int): int {
    if journal == [] then 0 else Sum(journal[..|journal| - 1], column) + column(journal[|journal| - 1])
  }

  function OpenFlag(): Row -> int {
    (row: Row) => if row.status in {Pending, Resting} then 1 else 0
  }

  function OpenOrderCount(journal: seq<Row>): int {
    Sum(journal, OpenFlag())
  }

  // ----- The paper ledger -----------------------------------------------------------

  function FillCost(intent: Intent, fillPrice: real, feeCents: int): int {
    CentsUp(fillPrice * intent.count as real) + feeCents
  }

  function SaleProceeds(intent: Intent, fillPrice: real, feeCents: int): int {
    Floor(fillPrice * intent.count as real * 100.0) - feeCents
  }

  function LotOf(positions: map<Key, Lot>, key: Key): Lot {
    if key in positions then positions[key] else Lot(0, 0)
  }

  function ApplyPaperFill(b: Books, intent: Intent, fillPrice: real, feeCents: int): Result<Books, StateError> {
    var cost := FillCost(intent, fillPrice, feeCents);
    var key := (intent.ticker, intent.outcome);
    var lot := LotOf(b.positions, key);
    if b.balanceCents < cost then Err(InsufficientCash)
    else Ok(b.(balanceCents := b.balanceCents - cost,
               positions := b.positions[key := Lot(lot.count + intent.count, lot.costCents + cost)]))
  }

  /** Python's `cost_cents * count // held`: the cost basis that a slice of a lot releases. */
  function ReleasedCost(lot: Lot, count: int): int
    requires lot.count > 0
  {
    lot.costCents * count / lot.count
  }

  /** Closes part of a position and realizes its profit or loss. A held count of zero is an error for
      every count the strategy produces. */
  function ApplyPaperSell(b: Books, intent: Intent, fillPrice: real, feeCents: int): Result<Books, StateError> {
    var proceeds := SaleProceeds(intent, fillPrice, feeCents);
    var key := (intent.ticker, intent.outcome);
    var lot := LotOf(b.positions, key);
    if lot.count < intent.count || lot.count <= 0 then Err(PositionTooSmall)
    else
      var released := ReleasedCost(lot, intent.count);
      Ok(b.(balanceCents := b.balanceCents + proceeds,
            realizedCents := b.realizedCents + (proceeds - released),
            positions :=
              if lot.count == intent.count then b.positions - {key}
              else b.positions[key := Lot(lot.count - intent.count, lot.costCents - released)]))
  }

  /** The larger of the two sides held, as the ledger reports it. */
  function PaperPosition(positions: map<Key, Lot>, ticker: string): Position {
    var yes, no := LotOf(positions, (ticker, Yes)), LotOf(positions, (ticker, No));
    if yes.count <= 0 && no.count <= 0 then Flat(ticker)
    else if yes.count > no.count then Position(ticker, Some(Yes), yes.count, yes.costCents)
    else Position(ticker, Some(No), no.count, no.costCents)
  }

  function MarketExposure(positions: map<Key, Lot>, ticker: string): int {
    LotOf(positions, (ticker, Yes)).costCents + LotOf(positions, (ticker, No)).costCents
  }

  ghost function TotalExposure(positions: map<Key, Lot>): int {
    if positions == map[] then 0
    else
      var key :| key in positions;
      positions[key].costCents + TotalExposure(positions - {key})
  }

  /** The total does not depend on the order in which the lots are added up. */
  lemma {:induction false} ExposureWithout(positions: map<Key, Lot>, key: Key)
    requires key in positions
    ensures TotalExposure(positions) == positions[key].costCents + TotalExposure(positions - {key})
    decreases positions
  {
    var first :| first in positions && TotalExposure(positions) == positions[first].costCents + TotalExposure(positions - {first});
    if first != key {
      ExposureWithout(positions - {first}, key);
      ExposureWithout(positions - {key}, first);
      assert positions - {first} - {key} == positions - {key} - {first};
    }
  }

  lemma ExposureAfterUpdate(positions: map<Key, Lot>, key: Key, lot: Lot)
    ensures TotalExposure(positions[key := lot])
         == TotalExposure(positions) - LotOf(positions, key).costCents + lot.costCents
  {
    ExposureWithout(positions[key := lot], key);
    assert positions[key := lot] - {key} == positions - {key};
    if key in positions {
      ExposureWithout(positions, key);
    } else {
      assert positions - {key} == positions;
    }
  }

  lemma ExposureAfterDelete(positions: map<Key, Lot>, key: Key)
    ensures TotalExposure(positions - {key}) == TotalExposure(positions) - LotOf(positions, key).costCents
  {
    if key in positions {
      ExposureWithout(positions, key);
    } else {
      assert positions - {key} == positions;
    }
  }
}
