/** Top of book from two bid ladders: an ask is what the best opposite bid leaves of a dollar. */
module Quotes {
  import opened Wrappers
  import opened Domain

  datatype Level = Level(price: real, size: real)

  datatype OrderBook = OrderBook(yesBids: seq<Level>, noBids: seq<Level>) {
    predicate TwoSided() {
      yesBids != [] && noBids != []
    }

    function Bids(side: Outcome): seq<Level> {
      if side.Yes? then yesBids else noBids
    }
  }

  /** The highest bid; the earliest one among equals. */
  function Best(levels: seq<Level>): (best: Level)
    requires levels != []
    ensures best in levels && forall level :: level in levels ==> level.price <= best.price
  {
    var n := |levels| - 1;
    if n == 0 then levels[0]
    else
      assert levels == levels[..n] + [levels[n]];
      var front := Best(levels[..n]);
      if levels[n].price > front.price then levels[n] else front
  }

  function QuoteFromBook(ticker: string, book: OrderBook, status: string, closeTime: Option<real>, now: real): Option<Quote> {
    if !book.TwoSided() then None
    else
      var yes, no := Best(book.yesBids), Best(book.noBids);
      Some(Quote(ticker, yes.price, 1.0 - no.price, no.price, 1.0 - yes.price, no.size, yes.size, now, status, closeTime))
  }

  /** Some order book shows this quote. */
  ghost predicate Quotable(quote: Quote) {
    exists book: OrderBook :: QuoteFromBook(quote.ticker, book, quote.status, quote.closeTime, quote.observedAt) == Some(quote)
  }

  /** Any quote whose asks are the complements of the opposite bids is one. */
  lemma MirroredIsQuotable(quote: Quote)
    requires quote.yesAsk == 1.0 - quote.noBid && quote.noAsk == 1.0 - quote.yesBid
    ensures Quotable(quote)
  {
    var book := OrderBook([Level(quote.yesBid, quote.noAskSize)], [Level(quote.noBid, quote.yesAskSize)]);
    assert QuoteFromBook(quote.ticker, book, quote.status, quote.closeTime, quote.observedAt) == Some(quote);
  }

  /** Prices in [0, 1] make a sane quote. */
  lemma QuoteIsSane(ticker: string, book: OrderBook, status: string, closeTime: Option<real>, now: real)
    requires book.TwoSided()
    requires forall level :: level in book.yesBids || level in book.noBids ==> 0.0 <= level.price <= 1.0
    ensures SaneQuote(QuoteFromBook(ticker, book, status, closeTime, now).value)
  {
    var yes, no := Best(book.yesBids), Best(book.noBids);
    assert 0.0 <= yes.price <= 1.0 && 0.0 <= no.price <= 1.0;
  }

  /** Every opposite bid can be taken at the complement of its price, and the quoted ask is the cheapest
      way to do so, for the size that waits there. */
  lemma AskIsCheapest(ticker: string, book: OrderBook, status: string, closeTime: Option<real>, now: real, side: Outcome)
    requires book.TwoSided()
    ensures var quote := QuoteFromBook(ticker, book, status, closeTime, now).value;
      && (forall level :: level in book.Bids(side.Opposite()) ==> quote.Ask(side) <= 1.0 - level.price)
      && (exists level :: level in book.Bids(side.Opposite()) && quote.Ask(side) == 1.0 - level.price && quote.AskSize(side) == level.size)
  {
    var best := Best(book.Bids(side.Opposite()));
    assert best in book.Bids(side.Opposite());
  }

  /** Both sides of the market have one spread: what a full set costs at the asks beyond its dollar. */
  lemma OneSpread(ticker: string, book: OrderBook, status: string, closeTime: Option<real>, now: real, side: Outcome)
    requires book.TwoSided()
    ensures var quote := QuoteFromBook(ticker, book, status, closeTime, now).value;
      && quote.SpreadCents(side) == CentsUp(quote.Ask(Yes) + quote.Ask(No) - 1.0)
      && quote.SpreadCents(side) == quote.SpreadCents(side.Opposite())
  {
    var quote := QuoteFromBook(ticker, book, status, closeTime, now).value;
    assert quote.Ask(Yes) - quote.Bid(Yes) == quote.Ask(Yes) + quote.Ask(No) - 1.0;
    assert quote.Ask(No) - quote.Bid(No) == quote.Ask(Yes) + quote.Ask(No) - 1.0;
  }

  /** The quote is uncrossed exactly when no two bids of opposite sides together exceed a dollar. */
  lemma UncrossedExactly(ticker: string, book: OrderBook, status: string, closeTime: Option<real>, now: real)
    requires book.TwoSided()
    ensures QuoteFromBook(ticker, book, status, closeTime, now).value.Uncrossed() <==>
      forall x, y :: x in book.yesBids && y in book.noBids ==> x.price + y.price <= 1.0
  {
    var yes, no := Best(book.yesBids), Best(book.noBids);
    assert yes in book.yesBids && no in book.noBids;
  }
}
