/** Values that pass between strategy, risk, broker and journal. Prices are exact dollars, money is whole cents. */
module Domain {
  import opened Wrappers
  import opened Rounding

  const CENT := 0.01

  datatype Outcome = Yes | No {
    function Opposite(): Outcome {
      if Yes? then No else Yes
    }
  }

  datatype Action = Buy | Sell

  datatype Style = Taker | Maker

  datatype Status = Pending | Resting | Filled | Canceled | Rejected | Unknown

  function CentsUp(dollars: real): int {
    Ceiling(dollars * 100.0)
  }

  datatype Signal = Signal(ticker: string, fairProbability: real, generatedAt: real, modelVersion: string)

  /** What is held in a market: at most one side, and what it cost. */
  datatype Position = Position(ticker: string, outcome: Option<Outcome>, count: int, costCents: int) {
    predicate IsFlat() {
      outcome.None? || count <= 0
    }

    function Held(side: Outcome): (n: int)
      ensures n >= 0
    {
      if outcome == Some(side) && count > 0 then count else 0
    }
  }

  function Flat(ticker: string): Position {
    Position(ticker, None, 0, 0)
  }

  datatype Quote = Quote(
    ticker: string,
    yesBid: real, yesAsk: real, noBid: real, noAsk: real,
    yesAskSize: real, noAskSize: real,
    observedAt: real,
    status: string,
    closeTime: Option<real>)
  {
    predicate IsOpen() {
      status in {"open", "active"}
    }

    function Ask(side: Outcome): real {
      if side.Yes? then yesAsk else noAsk
    }

    function Bid(side: Outcome): real {
      if side.Yes? then yesBid else noBid
    }

    function AskSize(side: Outcome): real {
      if side.Yes? then yesAskSize else noAskSize
    }

    function SpreadCents(side: Outcome): int {
      CentsUp(Ask(side) - Bid(side))
    }

    function SecondsToClose(now: real): Option<real> {
      if closeTime.None? then None else Some(closeTime.value - now)
    }

    ghost predicate Uncrossed() {
      yesBid <= yesAsk && noBid <= noAsk
    }
  }

  /** Prices the exchange can quote. */
  ghost predicate SaneQuote(quote: Quote) {
    forall side :: 0.0 <= quote.Bid(side) <= 1.0 && 0.0 <= quote.Ask(side) <= 1.0
  }

  datatype Intent = Intent(
    clientOrderId: string,
    ticker: string,
    outcome: Outcome,
    count: int,
    limitPrice: real,
    fairProbability: real,
    action: Action,
    style: Style)
  {
    predicate IsBuy() {
      action.Buy?
    }

    /** Worst-case cash at risk; a sell risks nothing new. */
    function MaxLossCents(): int {
      if IsBuy() then CentsUp(limitPrice * count as real) else 0
    }

    function OutcomeProbability(): real {
      if outcome.Yes? then fairProbability else 1.0 - fairProbability
    }

    /** Gross edge before fees, in basis points truncated towards zero. */
    function EdgeBps(): int {
      if IsBuy() then Truncate((OutcomeProbability() - limitPrice) * 10000.0)
      else Truncate((limitPrice - OutcomeProbability()) * 10000.0)
    }
  }

  datatype OrderResult = OrderResult(
    orderId: string,
    clientOrderId: string,
    status: Status,
    filledCount: int,
    averageFillPrice: Option<real>,
    feeCents: int)

  datatype Portfolio = Portfolio(
    balanceCents: int,
    totalExposureCents: int,
    marketExposureCents: int,
    openOrders: int,
    dailyPnlCents: int)
}
