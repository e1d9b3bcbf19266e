/** Closing a paper position in slices. */
module Slices {
  import opened Wrappers
  import opened Domain
  import opened Ledger
  import opened PaperInvariants

  datatype Sale = Sale(intent: Intent, fillPrice: real, feeCents: int)

  function SellEach(b: Books, sales: seq<Sale>): Result<Books, StateError>
    decreases |sales|
  {
    if sales == [] then Ok(b)
    else
      match ApplyPaperSell(b, sales[0].intent, sales[0].fillPrice, sales[0].feeCents)
      case Err(e) => Err(e)
      case Ok(after) => SellEach(after, sales[1..])
  }

  function Contracts(sales: seq<Sale>): int {
    if sales == [] then 0 else sales[0].intent.count + Contracts(sales[1..])
  }

  function Proceeds(sales: seq<Sale>): int {
    if sales == [] then 0
    else SaleProceeds(sales[0].intent, sales[0].fillPrice, sales[0].feeCents) + Proceeds(sales[1..])
  }

  ghost predicate SalesOf(sales: seq<Sale>, key: Key) {
    forall i :: 0 <= i < |sales| ==>
      sales[i].intent.count > 0 && (sales[i].intent.ticker, sales[i].intent.outcome) == key
  }

  lemma {:induction false} ContractsPositive(sales: seq<Sale>, key: Key)
    requires SalesOf(sales, key)
    ensures Contracts(sales) >= 0
    ensures sales != [] ==> Contracts(sales) > 0
  {
    if sales != [] {
      ContractsPositive(sales[1..], key);
    }
  }

  /** However a position is sliced, closing it releases exactly its cost: the realized profit of the
      slices is their proceeds minus the whole cost basis, and no rounding is left behind. */
  lemma {:induction false} SlicesReleaseWholeCost(b: Books, sales: seq<Sale>, key: Key)
    requires SalesOf(sales, key) && key in b.positions && b.positions[key].count > 0
    requires Contracts(sales) == b.positions[key].count
    ensures SellEach(b, sales).Ok?
    ensures var after := SellEach(b, sales).value;
      && after.positions == b.positions - {key}
      && after.balanceCents == b.balanceCents + Proceeds(sales)
      && after.realizedCents == b.realizedCents + Proceeds(sales) - b.positions[key].costCents
    decreases |sales|
  {
    var lot, sale := b.positions[key], sales[0];
    ContractsPositive(sales[1..], key);
    var next := ApplyPaperSell(b, sale.intent, sale.fillPrice, sale.feeCents).value;
    if sale.intent.count == lot.count {
      assert sales[1..] == [];
      WholeLotReleased(lot);
    } else {
      SlicesReleaseWholeCost(next, sales[1..], key);
      assert next.positions - {key} == b.positions - {key};
    }
  }

  /** What is left of a lot never gets cheaper per contract: (cost - released) / (held - sold) >= cost / held,
      with the divisions cleared. */
  lemma RemainingAverageNeverFalls(lot: Lot, count: int)
    requires 0 < count < lot.count
    ensures (lot.costCents - ReleasedCost(lot, count)) * lot.count >= lot.costCents * (lot.count - count)
  {
    var exact, released := lot.costCents * count, ReleasedCost(lot, count);
    FloorTimes(exact, lot.count, released);
    Expand(lot.costCents, released, lot.count, count);
  }

  lemma FloorTimes(x: int, d: int, q: int)
    requires d > 0 && q == x / d
    ensures q * d <= x
  {
  }

  lemma Expand(cost: int, released: int, held: int, sold: int)
    ensures (cost - released) * held == cost * held - released * held
    ensures cost * (held - sold) == cost * held - cost * sold
  {
  }
}
