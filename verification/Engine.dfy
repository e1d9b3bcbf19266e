/** The trading engine over the paper broker: one cycle of a market, and shutdown cancellation. */
module Engine {
  import opened Domain
  import opened Config
  import opened Strategy
  import opened Risk
  import opened Ledger
  import opened Broker
  import Store

  /** What the outside world supplies to one cycle: the signal file, the book, a fresh UUID, the clock
      and the kill switch. */
  datatype Input = Input(signal: Signal, quote: Quote, clientOrderId: string, now: real, killSwitch: bool)

  ghost function Reconciled(config: AppConfig, b: Books, quote: Quote): Books {
    Reconcile(config, b, RestingIntents(b.journal, quote.ticker), quote)
  }

  ghost function Proposal(config: AppConfig, b: Books, input: Input): Decision
    requires config.Valid()
  {
    var ticker := input.quote.ticker;
    Decide(config, input.signal, input.quote, Snapshot(b, ticker), PaperPosition(b.positions, ticker),
           input.clientOrderId, input.now)
  }

  ghost function Verdict(config: AppConfig, b: Books, intent: Intent, input: Input): Code {
    Judge(intent, input.quote, Snapshot(b, input.quote.ticker), config, LastOrderAt(b.journal, input.quote.ticker),
          input.killSwitch, input.now)
  }

  ghost function Declined(b: Books, clientOrderId: string): Books {
    match RejectIntent(b, clientOrderId)
    case Ok(declined) => declined
    case Err(_) => b
  }

  /** Journal first, then risk, then the broker, then the result. */
  ghost function Submit(config: AppConfig, b: Books, intent: Intent, input: Input): Books
    requires !Has(b.journal, intent.clientOrderId)
  {
    var journaled := RecordIntent(b, intent, input.now).value;
    if Verdict(config, b, intent, input) != Approved then Declined(journaled, intent.clientOrderId)
    else
      var (placed, result) := Place(config, journaled, intent, input.quote);
      Recorded(placed, result)
  }

  /** One cycle of one market. A client order ID that is already journaled raises before anything is sent. */
  ghost function Cycle(config: AppConfig, b: Books, input: Input): Books
    requires config.Valid()
  {
    var current := Reconciled(config, b, input.quote);
    match Proposal(config, current, input)
    case NoTrade(_) => current
    case Trade(intent) =>
      if Has(current.journal, intent.clientOrderId) then current else Submit(config, current, intent, input)
  }

  ghost function CancelAll(b: Books, orderIds: seq<string>): Books {
    if orderIds == [] then b
    else MarkCanceled(CancelAll(b, orderIds[..|orderIds| - 1]), orderIds[|orderIds| - 1])
  }

  class TradingEngine {
    const config: AppConfig
    const broker: PaperBroker
    const state: Store.StateStore

    ghost predicate Valid() {
      config.Valid() && broker.state == state && broker.config == config
    }

    constructor (config: AppConfig, broker: PaperBroker, state: Store.StateStore)
      requires config.Valid() && broker.state == state && broker.config == config
      ensures Valid() && this.state == state && this.config == config
    {
      this.config, this.broker, this.state := config, broker, state;
    }

    method ProcessTicker(input: Input)
      requires Valid()
      modifies state
      ensures state.Contents() == Cycle(config, old(state.Contents()), input)
    {
      var ticker := input.quote.ticker;
      var _ := broker.ReconcileOrders(ticker, input.quote);
      var position := PaperPosition(state.positions, ticker);
      var portfolio := broker.TakeSnapshot(ticker);
      var decision := Decide(config, input.signal, input.quote, portfolio, position, input.clientOrderId, input.now);
      if decision.Trade? {
        SubmitIntent(decision.intent, portfolio, input);
      }
    }

    method SubmitIntent(intent: Intent, portfolio: Portfolio, input: Input)
      requires Valid() && portfolio == Snapshot(state.Contents(), input.quote.ticker)
      modifies state
      ensures state.Contents() ==
        if Has(old(state.journal), intent.clientOrderId) then old(state.Contents())
        else Submit(config, old(state.Contents()), intent, input)
    {
      var lastOrderAt := LastOrderAt(state.journal, input.quote.ticker);
      var journaled := state.RecordIntent(intent, input.now);
      if journaled {
        var verdict := Judge(intent, input.quote, portfolio, config, lastOrderAt, input.killSwitch, input.now);
        if verdict != Approved {
          var _ := state.RejectIntent(intent.clientOrderId);
        } else {
          var result := broker.PlaceOrder(intent, input.quote);
          var _ := state.RecordResult(result);
        }
      }
    }

    method CancelManagedOrders()
      requires Valid()
      modifies state
      ensures state.Contents() == CancelAll(old(state.Contents()), RestingOrderIds(old(state.journal)))
    {
      var orderIds := RestingOrderIds(state.journal);
      for i := 0 to |orderIds|
        invariant state.Contents() == CancelAll(old(state.Contents()), orderIds[..i])
      {
        assert orderIds[..i + 1][..i] == orderIds[..i];
        state.MarkCanceled(orderIds[i]);
      }
      assert orderIds[..|orderIds|] == orderIds;
    }
  }
}
