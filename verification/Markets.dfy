/** The structural model's promises, market by market, in terms of what the contexts say. */
module Markets {
  import opened Structural

  /** A quoted market that pays above a strike other than zero. */
  predicate IsAbove(c: MarketContext) {
    c.quote.Some? && c.strikeType in {"greater", "greater_or_equal"} && c.floorStrike.Some? && c.floorStrike.value != 0.0
  }

  /** A quoted market that pays below a cap other than zero. */
  predicate IsBelow(c: MarketContext) {
    c.quote.Some? && c.strikeType in {"less", "less_or_equal"} && c.capStrike.Some? && c.capStrike.value != 0.0
  }

  predicate IsExclusive(c: MarketContext) {
    c.quote.Some? && c.mutuallyExclusive
  }

  /** The contexts of one event that satisfy `p`. */
  ghost function Where(contexts: seq<MarketContext>, event: string, p: MarketContext -> bool): set<nat> {
    set k: nat | k < |contexts| && contexts[k].event == event && p(contexts[k])
  }

  /** Twice the mid: bid plus ask. */
  function BidPlusAsk(c: MarketContext): real
    requires c.quote.Some?
  {
    c.quote.value.yesBid + c.quote.value.yesAsk
  }

  /** Bid plus ask, over the exclusive markets of one event. */
  ghost function EventTotal(contexts: seq<MarketContext>, event: string): real {
    if contexts == [] then 0.0
    else
      var c := contexts[|contexts| - 1];
      EventTotal(contexts[..|contexts| - 1], event) + if c.event == event && IsExclusive(c) then BidPlusAsk(c) else 0.0
  }

  /** The context's event has a fitted ladder that the context is on. */
  ghost predicate OnFittedLadder(contexts: seq<MarketContext>, k: nat, minGroupSize: int)
    requires k < |contexts|
  {
    var c := contexts[k];
    || (IsAbove(c) && |Where(contexts, c.event, IsAbove)| >= minGroupSize)
    || (IsBelow(c) && |Where(contexts, c.event, IsBelow)| >= minGroupSize)
  }

  ghost predicate InSharedEvent(contexts: seq<MarketContext>, k: nat, minGroupSize: int)
    requires k < |contexts|
  {
    var c := contexts[k];
    IsExclusive(c) && |Where(contexts, c.event, IsExclusive)| >= minGroupSize && EventTotal(contexts, c.event) > 0.0
  }

  /** Above a higher strike is never likelier than above a lower one, and below a lower cap never likelier
      than below a higher one. */
  ghost predicate NoArbitrage(out: map<string, real>, contexts: seq<MarketContext>, minGroupSize: int) {
    forall i, j | 0 <= i < |contexts| && 0 <= j < |contexts| && contexts[i].event == contexts[j].event
        && OnFittedLadder(contexts, i, minGroupSize) && OnFittedLadder(contexts, j, minGroupSize) ::
        && contexts[i].ticker in out && contexts[j].ticker in out
        && (IsAbove(contexts[i]) && IsAbove(contexts[j]) && contexts[i].floorStrike.value < contexts[j].floorStrike.value ==>
              out[contexts[i].ticker] >= out[contexts[j].ticker])
        && (IsBelow(contexts[i]) && IsBelow(contexts[j]) && contexts[i].capStrike.value < contexts[j].capStrike.value ==>
              out[contexts[i].ticker] <= out[contexts[j].ticker])
  }

  /** The share of its event's total, held between half a percent and 99.5 percent. */
  predicate IsHeldShare(p: real, part: real, total: real) {
    && 0.005 <= p <= 0.995
    && (p < 0.995 ==> part <= p * total)
    && (p > 0.005 ==> part >= p * total)
  }

  /** An exclusive market on no fitted ladder gets its share. */
  ghost predicate GivesShares(out: map<string, real>, contexts: seq<MarketContext>, minGroupSize: int) {
    forall k :: 0 <= k < |contexts| && InSharedEvent(contexts, k, minGroupSize) && !OnFittedLadder(contexts, k, minGroupSize) ==>
      contexts[k].ticker in out
      && IsHeldShare(out[contexts[k].ticker], BidPlusAsk(contexts[k]), EventTotal(contexts, contexts[k].event))
  }

  /** Every prediction is of a market that a ladder or an event constrains. */
  ghost predicate PredictsOnlyConstrained(out: map<string, real>, contexts: seq<MarketContext>, minGroupSize: int) {
    forall t :: t in out ==>
      exists k :: 0 <= k < |contexts| && contexts[k].ticker == t
        && (OnFittedLadder(contexts, k, minGroupSize) || InSharedEvent(contexts, k, minGroupSize))
  }
}
