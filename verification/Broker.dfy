/** The paper broker: takers fill at the touch plus slippage, other orders rest until traded through. */
module Broker {
  import opened Wrappers
  import opened Domain
  import opened Config
  import opened Fees
  import opened Strategy
  import opened Ledger
  import Store

  function PaperId(clientOrderId: string): string {
    "paper-" + clientOrderId
  }

  function Executed(intent: Intent, fillPrice: real, feeCents: int): OrderResult {
    OrderResult(PaperId(intent.clientOrderId), intent.clientOrderId, Filled, intent.count, Some(fillPrice), feeCents)
  }

  function Unexecuted(intent: Intent, status: Status): OrderResult {
    OrderResult(PaperId(intent.clientOrderId), intent.clientOrderId, status, 0, None, 0)
  }

  function FillFee(fees: FeeConfig, intent: Intent, fillPrice: real): int {
    OrderFeeCents(intent.count, fillPrice, fees.RateFor(intent.style))
  }

  /** The ledger transaction of a fill. */
  function Applied(fees: FeeConfig, b: Books, intent: Intent, fillPrice: real): Result<Books, StateError> {
    var fee := FillFee(fees, intent, fillPrice);
    if intent.IsBuy() then ApplyPaperFill(b, intent, fillPrice, fee) else ApplyPaperSell(b, intent, fillPrice, fee)
  }

  /** `_fill`: the ledger transaction, or a rejection when the ledger refuses it. */
  function Fill(fees: FeeConfig, b: Books, intent: Intent, fillPrice: real): (Books, OrderResult) {
    match Applied(fees, b, intent, fillPrice)
    case Ok(filled) => (filled, Executed(intent, fillPrice, FillFee(fees, intent, fillPrice)))
    case Err(_) => (b, Unexecuted(intent, Rejected))
  }

  function Slip(paper: PaperConfig): real {
    CENT * paper.slippageCents as real
  }

  /** The far side of the book has reached the limit. */
  predicate Touched(intent: Intent, quote: Quote) {
    if intent.IsBuy() then quote.Ask(intent.outcome) <= intent.limitPrice
    else quote.Bid(intent.outcome) >= intent.limitPrice
  }

  function TakerPrice(paper: PaperConfig, intent: Intent, quote: Quote): real {
    if intent.IsBuy() then Lower(MAX_PRICE, quote.Ask(intent.outcome) + Slip(paper))
    else Higher(CENT, quote.Bid(intent.outcome) - Slip(paper))
  }

  predicate WorseThanLimit(intent: Intent, price: real) {
    if intent.IsBuy() then intent.limitPrice < price else intent.limitPrice > price
  }

  function Place(config: AppConfig, b: Books, intent: Intent, quote: Quote): (Books, OrderResult) {
    if intent.style.Maker? then
      (b, Unexecuted(intent, if Touched(intent, quote) then Rejected else Resting))
    else
      var price := TakerPrice(config.paper, intent, quote);
      if WorseThanLimit(intent, price) then (b, Unexecuted(intent, Resting))
      else Fill(config.fees, b, intent, price)
  }

  /** The journal after `record_result`; the row exists whenever the broker records one. */
  function Recorded(b: Books, result: OrderResult): Books {
    match RecordResult(b, result)
    case Ok(recorded) => recorded
    case Err(_) => b
  }

  function ReconcileOne(config: AppConfig, b: Books, intent: Intent, quote: Quote): Books {
    if !Touched(intent, quote) then b
    else
      var (filled, result) := Fill(config.fees, b, intent, intent.limitPrice);
      Recorded(filled, result)
  }

  function Reconcile(config: AppConfig, b: Books, intents: seq<Intent>, quote: Quote): Books {
    if intents == [] then b
    else
      var n := |intents| - 1;
      ReconcileOne(config, Reconcile(config, b, intents[..n], quote), intents[n], quote)
  }

  /** What reconciliation reports: for each touched intent in turn, its fill or refusal on the books as the
      earlier ones left them. */
  function ReconcileResults(config: AppConfig, b: Books, intents: seq<Intent>, quote: Quote): seq<OrderResult> {
    if intents == [] then []
    else
      var n := |intents| - 1;
      var mid := Reconcile(config, b, intents[..n], quote);
      ReconcileResults(config, b, intents[..n], quote)
      + if Touched(intents[n], quote) then [Fill(config.fees, mid, intents[n], intents[n].limitPrice).1] else []
  }

  ghost function Snapshot(b: Books, ticker: string): Portfolio {
    Portfolio(b.balanceCents, TotalExposure(b.positions), MarketExposure(b.positions, ticker),
              OpenOrderCount(b.journal), b.realizedCents)
  }

  class PaperBroker {
    const state: Store.StateStore
    const config: AppConfig

    constructor (state: Store.StateStore, config: AppConfig)
      ensures this.state == state && this.config == config
    {
      this.state, this.config := state, config;
    }

    method TakeSnapshot(ticker: string) returns (portfolio: Portfolio)
      ensures portfolio == Snapshot(state.Contents(), ticker)
    {
      var exposure := state.PaperExposure();
      portfolio := Portfolio(state.balanceCents, exposure, MarketExposure(state.positions, ticker),
                             OpenOrderCount(state.journal), state.realizedCents);
    }

    method FillOrder(intent: Intent, fillPrice: real) returns (result: OrderResult)
      modifies state
      ensures (state.Contents(), result) == Fill(config.fees, old(state.Contents()), intent, fillPrice)
    {
      var fee := FillFee(config.fees, intent, fillPrice);
      var ok;
      if intent.IsBuy() {
        ok := state.ApplyPaperFill(intent, fillPrice, fee);
      } else {
        ok := state.ApplyPaperSell(intent, fillPrice, fee);
      }
      result := if ok then Executed(intent, fillPrice, fee) else Unexecuted(intent, Rejected);
    }

    method PlaceOrder(intent: Intent, quote: Quote) returns (result: OrderResult)
      modifies state
      ensures (state.Contents(), result) == Place(config, old(state.Contents()), intent, quote)
    {
      if intent.style.Maker? {
        result := Unexecuted(intent, if Touched(intent, quote) then Rejected else Resting);
      } else {
        var price := TakerPrice(config.paper, intent, quote);
        if WorseThanLimit(intent, price) {
          result := Unexecuted(intent, Resting);
        } else {
          result := FillOrder(intent, price);
        }
      }
    }

    /** Fills the market's resting orders that have since been traded through, oldest first. */
    method ReconcileOrders(ticker: string, quote: Quote) returns (results: seq<OrderResult>)
      modifies state
      ensures state.Contents()
           == Reconcile(config, old(state.Contents()), RestingIntents(old(state.journal), ticker), quote)
      ensures results == ReconcileResults(config, old(state.Contents()), RestingIntents(old(state.journal), ticker), quote)
    {
      var intents := RestingIntents(state.journal, ticker);
      results := [];
      for i := 0 to |intents|
        invariant state.Contents() == Reconcile(config, old(state.Contents()), intents[..i], quote)
        invariant results == ReconcileResults(config, old(state.Contents()), intents[..i], quote)
      {
        assert intents[..i + 1][..i] == intents[..i];
        if Touched(intents[i], quote) {
          var result := FillOrder(intents[i], intents[i].limitPrice);
          var _ := state.RecordResult(result);
          results := results + [result];
        }
      }
      assert intents[..|intents|] == intents;
    }
  }
}
