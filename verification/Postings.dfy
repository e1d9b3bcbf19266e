/** What one fill posts to the paper ledger, to the cent. */
module Postings {
  import opened Wrappers
  import opened Rounding
  import opened Domain
  import opened Config
  import opened Ledger
  import opened Broker
  import opened PaperInvariants

  function RateOf(fees: FeeConfig, intent: Intent): real {
    if intent.style == Maker then fees.makerRate else fees.takerRate
  }

  /** The fee in cents before rounding. */
  function ExactFee(fees: FeeConfig, intent: Intent, price: real): real {
    var rate := RateOf(fees, intent);
    if rate > 0.0 then rate * (price * (1.0 - price)) * intent.count as real * 100.0 else 0.0
  }

  lemma FeeIsRoundedUp(fees: FeeConfig, intent: Intent, price: real)
    requires intent.count > 0
    ensures IsRoundedUp(FillFee(fees, intent, price), ExactFee(fees, intent, price))
  {
  }

  /** A buy takes the price and the fee out of cash, each rounded up to a cent, and adds contracts and the same
      cents to the lot of its market and side; it is refused exactly without that cash. */
  lemma BuyPosts(fees: FeeConfig, b: Books, intent: Intent, price: real, paid: int, fee: int)
    requires intent.action == Buy && intent.count > 0
    requires IsRoundedUp(paid, price * intent.count as real * 100.0) && IsRoundedUp(fee, ExactFee(fees, intent, price))
    ensures Applied(fees, b, intent, price).Ok? <==> b.balanceCents >= paid + fee
    ensures Applied(fees, b, intent, price).Ok? ==>
      var after, key := Applied(fees, b, intent, price).value, (intent.ticker, intent.outcome);
      && after.balanceCents == b.balanceCents - paid - fee
      && after.realizedCents == b.realizedCents
      && after.journal == b.journal
      && after.positions.Keys == b.positions.Keys + {key}
      && (forall other :: other in b.positions && other != key ==> after.positions[other] == b.positions[other])
      && after.positions[key] == Lot(LotOf(b.positions, key).count + intent.count, LotOf(b.positions, key).costCents + paid + fee)
  {
    CostIs(fees, intent, price, paid, fee);
  }

  lemma CostIs(fees: FeeConfig, intent: Intent, price: real, paid: int, fee: int)
    requires intent.count > 0
    requires IsRoundedUp(paid, price * intent.count as real * 100.0) && IsRoundedUp(fee, ExactFee(fees, intent, price))
    ensures FillCost(intent, price, FillFee(fees, intent, price)) == paid + fee
  {
    FeeIsRoundedUp(fees, intent, price);
    CeilingExactly(ExactFee(fees, intent, price), fee);
    CeilingExactly(ExactFee(fees, intent, price), FillFee(fees, intent, price));
    CeilingExactly(price * intent.count as real * 100.0, paid);
  }

  /** The share of the cost that leaves with part of a lot, rounded down. */
  predicate IsReleased(released: int, lot: Lot, count: int) {
    released * lot.count <= lot.costCents * count < released * lot.count + lot.count
  }

  lemma ReleasedExactly(lot: Lot, count: int, released: int)
    requires lot.count > 0
    ensures IsReleased(released, lot, count) <==> released == ReleasedCost(lot, count)
  {
    QuotientExactly(lot.costCents * count, lot.count, released);
  }

  lemma QuotientExactly(x: int, d: int, q: int)
    requires d > 0
    ensures q * d <= x < q * d + d <==> q == x / d
  {
    var p := x / d;
    assert x == p * d + x % d;
    if p < q {
      assert (p + 1) * d <= q * d;
    } else if q < p {
      assert (q + 1) * d <= p * d;
    }
  }

  /** A sale brings the price in, rounded down, less the fee rounded up; it takes the contracts and their share of
      the cost out of the lot, and books the difference as realized; it is refused exactly without the contracts. */
  lemma SalePosts(fees: FeeConfig, b: Books, intent: Intent, price: real, value: int, fee: int, released: int)
    requires intent.action == Sell && intent.count > 0
    requires IsRoundedDown(value, price * intent.count as real * 100.0) && IsRoundedUp(fee, ExactFee(fees, intent, price))
    requires LotOf(b.positions, (intent.ticker, intent.outcome)).count > 0 ==>
      IsReleased(released, LotOf(b.positions, (intent.ticker, intent.outcome)), intent.count)
    ensures Applied(fees, b, intent, price).Ok? <==> LotOf(b.positions, (intent.ticker, intent.outcome)).count >= intent.count
    ensures Applied(fees, b, intent, price).Ok? ==>
      var after, key := Applied(fees, b, intent, price).value, (intent.ticker, intent.outcome);
      var lot := LotOf(b.positions, key);
      && after.balanceCents == b.balanceCents + value - fee
      && after.realizedCents == b.realizedCents + value - fee - released
      && after.journal == b.journal
      && after.positions == if lot.count == intent.count then b.positions - {key}
                            else b.positions[key := Lot(lot.count - intent.count, lot.costCents - released)]
  {
    ProceedsAre(fees, intent, price, value, fee);
    var lot := LotOf(b.positions, (intent.ticker, intent.outcome));
    if lot.count > 0 {
      ReleasedExactly(lot, intent.count, released);
    }
    SaleIs(b, intent, price, FillFee(fees, intent, price));
  }

  lemma ProceedsAre(fees: FeeConfig, intent: Intent, price: real, value: int, fee: int)
    requires intent.count > 0
    requires IsRoundedDown(value, price * intent.count as real * 100.0) && IsRoundedUp(fee, ExactFee(fees, intent, price))
    ensures SaleProceeds(intent, price, FillFee(fees, intent, price)) == value - fee
  {
    FeeIsRoundedUp(fees, intent, price);
    CeilingExactly(ExactFee(fees, intent, price), fee);
    CeilingExactly(ExactFee(fees, intent, price), FillFee(fees, intent, price));
    FloorExactly(price * intent.count as real * 100.0, value);
  }

  lemma SaleIs(b: Books, intent: Intent, price: real, fee: int)
    requires intent.count > 0
    ensures var key := (intent.ticker, intent.outcome);
      var lot, sold, brought := LotOf(b.positions, key), ApplyPaperSell(b, intent, price, fee), SaleProceeds(intent, price, fee);
      && (sold.Ok? <==> lot.count >= intent.count)
      && (sold.Ok? ==>
            && sold.value.balanceCents == b.balanceCents + brought
            && sold.value.realizedCents == b.realizedCents + brought - ReleasedCost(lot, intent.count)
            && sold.value.journal == b.journal
            && sold.value.positions == if lot.count == intent.count then b.positions - {key}
                                       else b.positions[key := Lot(lot.count - intent.count, lot.costCents - ReleasedCost(lot, intent.count))])
  {
  }

  /** The position an account reports is a side it holds, and the larger one if it holds both; on equal counts it
      is NO. It is flat exactly without contracts on either side. */
  lemma PositionExactly(positions: map<Key, Lot>, ticker: string)
    ensures var reported := PaperPosition(positions, ticker);
      var yes, no := LotOf(positions, (ticker, Yes)), LotOf(positions, (ticker, No));
      && reported.ticker == ticker
      && (reported.outcome == None <==> yes.count <= 0 && no.count <= 0)
      && (reported.outcome == Some(Yes) <==> yes.count > 0 && yes.count > no.count)
      && (reported.outcome == Some(Yes) ==> reported.count == yes.count && reported.costCents == yes.costCents)
      && (reported.outcome == Some(No) ==> no.count > 0 && reported.count == no.count && reported.costCents == no.costCents)
      && (reported.outcome == None ==> reported.count == 0 && reported.costCents == 0)
  {
  }

  /** A resting order that the book has reached fills at its own limit, and its row says so. */
  lemma ReconciledAtLimit(config: AppConfig, b: Books, i: nat, quote: Quote)
    requires i < |b.journal| && Has(b.journal, b.journal[i].intent.clientOrderId) && Find(b.journal, b.journal[i].intent.clientOrderId) == i
    requires Applied(config.fees, b, b.journal[i].intent, b.journal[i].intent.limitPrice).Ok? && Touched(b.journal[i].intent, quote)
    ensures var intent, after := b.journal[i].intent, ReconcileOne(config, b, b.journal[i].intent, quote);
      && SameLedger(Applied(config.fees, b, intent, intent.limitPrice).value, after)
      && |after.journal| == |b.journal|
      && (forall j :: 0 <= j < |b.journal| && j != i ==> after.journal[j] == b.journal[j])
      && after.journal[i].status == Filled && after.journal[i].filledCount == intent.count
      && after.journal[i].averageFillPrice == Some(intent.limitPrice)
      && IsRoundedUp(after.journal[i].feeCents, if intent.count > 0 then ExactFee(config.fees, intent, intent.limitPrice) else 0.0)
  {
    if b.journal[i].intent.count > 0 {
      FeeIsRoundedUp(config.fees, b.journal[i].intent, b.journal[i].intent.limitPrice);
    }
  }
}
