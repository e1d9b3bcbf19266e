/** Structural models: strike ladders fitted to be monotone, exclusive events normalized to one. */
module Structural {
  import opened Wrappers
  import opened Isotonic
  import RealArithmetic
  import Text

  const PROB_FLOOR := 0.005
  const PROB_CEIL := 1.0 - PROB_FLOOR

  function Clamp(p: real): (q: real)
    ensures PROB_FLOOR <= q <= PROB_CEIL
    ensures PROB_FLOOR <= p <= PROB_CEIL ==> q == p
  {
    var raised := if p < PROB_FLOOR then PROB_FLOOR else p;
    if PROB_CEIL < raised then PROB_CEIL else raised
  }

  lemma ClampMonotone(p: real, q: real)
    requires p >= q
    ensures Clamp(p) >= Clamp(q)
  {
  }

  datatype TopOfBook = TopOfBook(yesBid: real, yesAsk: real)

  datatype MarketContext = MarketContext(
    ticker: string,
    event: string,
    quote: Option<TopOfBook>,
    strikeType: string,
    floorStrike: Option<real>,
    capStrike: Option<real>,
    mutuallyExclusive: bool)
  {
    function Mid(): Option<real> {
      if quote.None? then None else Some((quote.value.yesBid + quote.value.yesAsk) / 2.0)
    }
  }

  // ----- Ladders --------------------------------------------------------------

  datatype Side = Greater | Less

  /** One strike of a ladder; tuples sort by strike, then ticker, then mid. */
  datatype Rung = Rung(strike: real, ticker: string, mid: real)

  /** A missing strike and a strike of exactly zero are both falsy, so neither joins a ladder. */
  predicate Present(strike: Option<real>) {
    strike.Some? && strike.value != 0.0
  }

  function RungOf(c: MarketContext, side: Side): Option<Rung> {
    if c.Mid().None? then None
    else if side.Greater? && c.strikeType in {"greater", "greater_or_equal"} && Present(c.floorStrike) then
      Some(Rung(c.floorStrike.value, c.ticker, c.Mid().value))
    else if side.Less? && c.strikeType in {"less", "less_or_equal"} && Present(c.capStrike) then
      Some(Rung(c.capStrike.value, c.ticker, c.Mid().value))
    else None
  }

  /** The rungs of one event and side, in the order of the contexts. */
  ghost function LadderOf(contexts: seq<MarketContext>, side: Side, event: string): seq<Rung> {
    if contexts == [] then []
    else
      var c := contexts[|contexts| - 1];
      var front := LadderOf(contexts[..|contexts| - 1], side, event);
      if c.event == event && RungOf(c, side).Some? then front + [RungOf(c, side).value] else front
  }

  predicate AtMost(a: Rung, b: Rung) {
    || a.strike < b.strike
    || (a.strike == b.strike && (Text.Less(a.ticker, b.ticker) || (a.ticker == b.ticker && a.mid <= b.mid)))
  }

  lemma AtMostTransitive(a: Rung, b: Rung, c: Rung)
    requires AtMost(a, b) && AtMost(b, c)
    ensures AtMost(a, c)
  {
    if Text.Less(a.ticker, b.ticker) && Text.Less(b.ticker, c.ticker) {
      Text.Transitive(a.ticker, b.ticker, c.ticker);
    }
  }

  lemma AtMostTotal(a: Rung, b: Rung)
    ensures AtMost(a, b) || AtMost(b, a)
  {
    Text.Trichotomy(a.ticker, b.ticker);
  }

  /** Greater ladders sort ascending, less ladders descending: fair value never rises along either. */
  predicate Before(a: Rung, b: Rung, side: Side) {
    if side.Greater? then AtMost(a, b) else AtMost(b, a)
  }

  ghost predicate Ordered(ladder: seq<Rung>, side: Side) {
    forall i, j :: 0 <= i < j < |ladder| ==> Before(ladder[i], ladder[j], side)
  }

  ghost predicate DistinctTickers(ladder: seq<Rung>) {
    forall i, j :: 0 <= i < j < |ladder| ==> ladder[i].ticker != ladder[j].ticker
  }

  ghost predicate Lists(ladder: seq<Rung>, ticker: string) {
    exists i :: 0 <= i < |ladder| && ladder[i].ticker == ticker
  }

  function Insert(r: Rung, ladder: seq<Rung>, side: Side): (out: seq<Rung>)
    ensures multiset(out) == multiset(ladder) + multiset{r}
    ensures |out| == |ladder| + 1
  {
    if ladder == [] then [r]
    else if Before(r, ladder[0], side) then [r] + ladder
    else
      assert ladder == [ladder[0]] + ladder[1..];
      [ladder[0]] + Insert(r, ladder[1..], side)
  }

  lemma ConsIsOrdered(r: Rung, ladder: seq<Rung>, side: Side)
    requires Ordered(ladder, side) && forall x :: x in ladder ==> Before(r, x, side)
    ensures Ordered([r] + ladder, side)
  {
  }

  lemma BeforeAll(r: Rung, ladder: seq<Rung>, side: Side)
    requires Ordered(ladder, side) && ladder != [] && Before(r, ladder[0], side)
    ensures forall x :: x in ladder ==> Before(r, x, side)
  {
    forall j | 0 < j < |ladder|
      ensures Before(r, ladder[j], side)
    {
      BeforeTransitive(r, ladder[0], ladder[j], side);
    }
  }

  lemma {:induction false} InsertIsOrdered(r: Rung, ladder: seq<Rung>, side: Side)
    requires Ordered(ladder, side)
    ensures Ordered(Insert(r, ladder, side), side)
  {
    if ladder != [] {
      if Before(r, ladder[0], side) {
        BeforeAll(r, ladder, side);
        ConsIsOrdered(r, ladder, side);
      } else {
        AtMostTotal(r, ladder[0]);
        InsertIsOrdered(r, ladder[1..], side);
        forall x | x in Insert(r, ladder[1..], side)
          ensures Before(ladder[0], x, side)
        {
          assert x in multiset(ladder[1..]) + multiset{r};
        }
        ConsIsOrdered(ladder[0], Insert(r, ladder[1..], side), side);
      }
    }
  }

  lemma BeforeTransitive(a: Rung, b: Rung, c: Rung, side: Side)
    requires Before(a, b, side) && Before(b, c, side)
    ensures Before(a, c, side)
  {
    if side.Greater? {
      AtMostTransitive(a, b, c);
    } else {
      AtMostTransitive(c, b, a);
    }
  }

  /** `list.sort`, ascending or reversed. */
  function Sorted(ladder: seq<Rung>, side: Side): (out: seq<Rung>)
    ensures multiset(out) == multiset(ladder)
    ensures |out| == |ladder|
  {
    if ladder == [] then []
    else
      assert ladder == ladder[..|ladder| - 1] + [ladder[|ladder| - 1]];
      Insert(ladder[|ladder| - 1], Sorted(ladder[..|ladder| - 1], side), side)
  }

  lemma {:induction false} SortedIsOrdered(ladder: seq<Rung>, side: Side)
    ensures Ordered(Sorted(ladder, side), side)
  {
    if ladder != [] {
      SortedIsOrdered(ladder[..|ladder| - 1], side);
      InsertIsOrdered(ladder[|ladder| - 1], Sorted(ladder[..|ladder| - 1], side), side);
    }
  }

  lemma {:induction false} SortKeepsTickersDistinct(ladder: seq<Rung>, side: Side)
    requires DistinctTickers(ladder)
    ensures DistinctTickers(Sorted(ladder, side))
  {
    if ladder != [] {
      var front, r := ladder[..|ladder| - 1], ladder[|ladder| - 1];
      SortKeepsTickersDistinct(front, side);
      forall x | x in Sorted(front, side)
        ensures x.ticker != r.ticker
      {
        assert x in multiset(front);
      }
      InsertKeepsTickersDistinct(r, Sorted(front, side), side);
    }
  }

  lemma {:induction false} InsertKeepsTickersDistinct(r: Rung, ladder: seq<Rung>, side: Side)
    requires DistinctTickers(ladder) && forall x :: x in ladder ==> x.ticker != r.ticker
    ensures DistinctTickers(Insert(r, ladder, side))
  {
    if ladder != [] && !Before(r, ladder[0], side) {
      InsertKeepsTickersDistinct(r, ladder[1..], side);
      forall x | x in Insert(r, ladder[1..], side)
        ensures x.ticker != ladder[0].ticker
      {
        assert x in multiset(ladder[1..]) + multiset{r};
      }
    }
  }

  function Mids(ladder: seq<Rung>): (mids: seq<real>)
    ensures |mids| == |ladder|
  {
    seq(|ladder|, i requires 0 <= i < |ladder| => ladder[i].mid)
  }

  ghost predicate FitOn(out: map<string, real>, ladder: seq<Rung>, fit: seq<real>) {
    && |fit| == |ladder|
    && IsUniqueLeastSquaresFit(Mids(ladder), fit)
    && forall i :: 0 <= i < |ladder| ==> ladder[i].ticker in out && out[ladder[i].ticker] == Clamp(fit[i])
  }

  /** The predictions on this ladder are the clamped least-squares monotone fit of its mids. */
  ghost predicate FittedOn(out: map<string, real>, ladder: seq<Rung>) {
    exists fit :: FitOn(out, ladder, fit)
  }

  ghost predicate SameAt(before: map<string, real>, after: map<string, real>, ticker: string) {
    (ticker in after <==> ticker in before) && (ticker in after ==> after[ticker] == before[ticker])
  }

  /** Fits one sorted ladder and writes its predictions. */
  method FitLadder(before: map<string, real>, ladder: seq<Rung>) returns (out: map<string, real>)
    ensures DistinctTickers(ladder) ==> FittedOn(out, ladder)
    ensures forall t :: !Lists(ladder, t) ==> SameAt(before, out, t)
  {
    var fitted, _ := IsotonicDecreasing(Mids(ladder));
    out := before;
    for k := 0 to |ladder|
      invariant DistinctTickers(ladder) ==>
        forall i :: 0 <= i < k ==> ladder[i].ticker in out && out[ladder[i].ticker] == Clamp(fitted[i])
      invariant forall t :: !Lists(ladder, t) ==> SameAt(before, out, t)
    {
      assert Lists(ladder, ladder[k].ticker);
      out := out[ladder[k].ticker := Clamp(fitted[k])];
    }
    assert DistinctTickers(ladder) ==> FitOn(out, ladder, fitted);
  }

  type Groups = map<string, seq<Rung>>

  /** The dictionary groups the contexts' rungs of one side by event. */
  ghost predicate GroupsOf(groups: Groups, contexts: seq<MarketContext>, side: Side) {
    && (forall e :: e in groups ==> groups[e] == LadderOf(contexts, side, e))
    && (forall e :: LadderOf(contexts, side, e) != [] ==> e in groups)
  }

  function Append(groups: Groups, event: string, r: Rung): Groups {
    groups[event := (if event in groups then groups[event] else []) + [r]]
  }

  lemma GroupsExtend(groups: Groups, contexts: seq<MarketContext>, k: nat, side: Side)
    requires k < |contexts| && GroupsOf(groups, contexts[..k], side)
    ensures RungOf(contexts[k], side).Some? ==>
      GroupsOf(Append(groups, contexts[k].event, RungOf(contexts[k], side).value), contexts[..k + 1], side)
    ensures RungOf(contexts[k], side).None? ==> GroupsOf(groups, contexts[..k + 1], side)
  {
    assert contexts[..k + 1][..k] == contexts[..k];
  }

  /** No two contexts describe the same market. */
  ghost predicate DistinctMarkets(contexts: seq<MarketContext>) {
    forall i, j :: 0 <= i < j < |contexts| ==> contexts[i].ticker != contexts[j].ticker
  }

  /** Every rung of a ladder comes from a context of that event and side. */
  lemma {:induction false} RungHasContext(contexts: seq<MarketContext>, side: Side, event: string, k: nat) returns (i: nat)
    requires k < |LadderOf(contexts, side, event)|
    ensures i < |contexts| && contexts[i].event == event
    ensures RungOf(contexts[i], side) == Some(LadderOf(contexts, side, event)[k])
    ensures contexts[i].ticker == LadderOf(contexts, side, event)[k].ticker
  {
    var n := |contexts| - 1;
    if k < |LadderOf(contexts[..n], side, event)| {
      i := RungHasContext(contexts[..n], side, event, k);
    } else {
      i := n;
    }
  }

  /** ... and every such context has its rung in the ladder. */
  lemma {:induction false} ContextHasRung(contexts: seq<MarketContext>, side: Side, i: nat)
    requires i < |contexts| && RungOf(contexts[i], side).Some?
    ensures RungOf(contexts[i], side).value in LadderOf(contexts, side, contexts[i].event)
  {
    var n := |contexts| - 1;
    if i < n {
      ContextHasRung(contexts[..n], side, i);
    }
  }

  /** With distinct markets a ticker sits on one ladder only. */
  lemma TickerOnOneLadder(contexts: seq<MarketContext>, s: Side, e: string, t: Side, f: string, ticker: string)
    requires DistinctMarkets(contexts)
    requires Lists(LadderOf(contexts, s, e), ticker) && Lists(LadderOf(contexts, t, f), ticker)
    ensures s == t && e == f
  {
    var a :| 0 <= a < |LadderOf(contexts, s, e)| && LadderOf(contexts, s, e)[a].ticker == ticker;
    var b :| 0 <= b < |LadderOf(contexts, t, f)| && LadderOf(contexts, t, f)[b].ticker == ticker;
    var i := RungHasContext(contexts, s, e, a);
    var j := RungHasContext(contexts, t, f, b);
    assert i == j;
  }

  lemma {:induction false} LadderTickersDistinct(contexts: seq<MarketContext>, side: Side, event: string)
    requires DistinctMarkets(contexts)
    ensures DistinctTickers(LadderOf(contexts, side, event))
  {
    if contexts != [] {
      var n := |contexts| - 1;
      LadderTickersDistinct(contexts[..n], side, event);
      var front := LadderOf(contexts[..n], side, event);
      forall k | 0 <= k < |front|
        ensures front[k].ticker != contexts[n].ticker
      {
        var i := RungHasContext(contexts[..n], side, event, k);
      }
    }
  }

  lemma SortedListsSame(ladder: seq<Rung>, side: Side, ticker: string)
    ensures Lists(Sorted(ladder, side), ticker) <==> Lists(ladder, ticker)
  {
    var out := Sorted(ladder, side);
    if Lists(out, ticker) {
      var i :| 0 <= i < |out| && out[i].ticker == ticker;
      assert out[i] in multiset(ladder);
    }
    if Lists(ladder, ticker) {
      var i :| 0 <= i < |ladder| && ladder[i].ticker == ticker;
      assert ladder[i] in multiset(out);
    }
  }

  lemma FittedOnOnlyReadsItsTickers(before: map<string, real>, after: map<string, real>, ladder: seq<Rung>)
    requires FittedOn(before, ladder)
    requires forall i :: 0 <= i < |ladder| ==> SameAt(before, after, ladder[i].ticker)
    ensures FittedOn(after, ladder)
  {
    var fit :| FitOn(before, ladder, fit);
    forall i | 0 <= i < |ladder|
      ensures ladder[i].ticker in after && after[ladder[i].ticker] == Clamp(fit[i])
    {
      assert SameAt(before, after, ladder[i].ticker);
    }
    assert FitOn(after, ladder, fit);
  }

  /** The event's ladder, if long enough, is fitted in strike order. */
  ghost predicate EventFitted(out: map<string, real>, contexts: seq<MarketContext>, side: Side, event: string, minGroupSize: int) {
    var ladder := LadderOf(contexts, side, event);
    |ladder| >= minGroupSize && ladder != [] ==> FittedOn(out, Sorted(ladder, side))
  }

  /** The ticker is a rung of a ladder long enough to be fitted. */
  ghost predicate OnLongLadder(contexts: seq<MarketContext>, side: Side, ticker: string, minGroupSize: int) {
    exists e :: |LadderOf(contexts, side, e)| >= minGroupSize && Lists(LadderOf(contexts, side, e), ticker)
  }

  /** Fits every ladder of one side that has at least `minGroupSize` rungs. The ladders of distinct
      markets share no ticker, so the iteration order of the dictionary does not matter. */
  method FitLadders(before: map<string, real>, groups: Groups, ghost contexts: seq<MarketContext>, side: Side,
                    minGroupSize: int)
    returns (out: map<string, real>)
    requires GroupsOf(groups, contexts, side)
    ensures DistinctMarkets(contexts) ==> forall e :: EventFitted(out, contexts, side, e, minGroupSize)
    ensures forall t :: !OnLongLadder(contexts, side, t, minGroupSize) ==> SameAt(before, out, t)
  {
    out := before;
    var pending := groups.Keys;
    while pending != {}
      invariant pending <= groups.Keys
      invariant DistinctMarkets(contexts) ==>
        forall e :: e !in pending ==> EventFitted(out, contexts, side, e, minGroupSize)
      invariant forall t :: !OnLongLadder(contexts, side, t, minGroupSize) ==> SameAt(before, out, t)
      decreases pending
    {
      var event :| event in pending;
      pending := pending - {event};
      if |groups[event]| >= minGroupSize {
        ghost var previous := out;
        out := FitLadder(out, Sorted(groups[event], side));
        FitOneMore(previous, out, contexts, side, event, minGroupSize);
      }
    }
  }

  /** Fitting one event's ladder leaves every other event's predictions alone. */
  lemma FitOneMore(before: map<string, real>, after: map<string, real>, contexts: seq<MarketContext>, side: Side,
                   event: string, minGroupSize: int)
    requires |LadderOf(contexts, side, event)| >= minGroupSize
    requires DistinctTickers(Sorted(LadderOf(contexts, side, event), side)) ==>
      FittedOn(after, Sorted(LadderOf(contexts, side, event), side))
    requires forall t :: !Lists(Sorted(LadderOf(contexts, side, event), side), t) ==> SameAt(before, after, t)
    ensures forall t :: !OnLongLadder(contexts, side, t, minGroupSize) ==> SameAt(before, after, t)
    ensures DistinctMarkets(contexts) ==> EventFitted(after, contexts, side, event, minGroupSize)
    ensures DistinctMarkets(contexts) ==>
      forall e :: e != event && EventFitted(before, contexts, side, e, minGroupSize)
                  ==> EventFitted(after, contexts, side, e, minGroupSize)
  {
    var ladder := LadderOf(contexts, side, event);
    forall t ensures Lists(Sorted(ladder, side), t) <==> Lists(ladder, t) {
      SortedListsSame(ladder, side, t);
    }
    if DistinctMarkets(contexts) {
      LadderTickersDistinct(contexts, side, event);
      SortKeepsTickersDistinct(ladder, side);
      forall e | e != event && EventFitted(before, contexts, side, e, minGroupSize)
        ensures EventFitted(after, contexts, side, e, minGroupSize)
      {
        var other := LadderOf(contexts, side, e);
        if |other| >= minGroupSize && other != [] {
          OtherLadderUntouched(before, after, contexts, side, event, e);
        }
      }
    }
  }

  lemma OtherLadderUntouched(before: map<string, real>, after: map<string, real>, contexts: seq<MarketContext>,
                             side: Side, event: string, other: string)
    requires DistinctMarkets(contexts) && event != other
    requires FittedOn(before, Sorted(LadderOf(contexts, side, other), side))
    requires forall t :: !Lists(LadderOf(contexts, side, event), t) ==> SameAt(before, after, t)
    ensures FittedOn(after, Sorted(LadderOf(contexts, side, other), side))
  {
    var ladder := Sorted(LadderOf(contexts, side, other), side);
    forall i | 0 <= i < |ladder|
      ensures SameAt(before, after, ladder[i].ticker)
    {
      assert Lists(ladder, ladder[i].ticker);
      SortedListsSame(LadderOf(contexts, side, other), side, ladder[i].ticker);
      if Lists(LadderOf(contexts, side, event), ladder[i].ticker) {
        TickerOnOneLadder(contexts, side, event, side, other, ladder[i].ticker);
      }
    }
    FittedOnOnlyReadsItsTickers(before, after, ladder);
  }

  /** Groups the contexts' rungs by event, one dictionary a side. */
  method GroupRungs(contexts: seq<MarketContext>) returns (greater: Groups, less: Groups)
    ensures GroupsOf(greater, contexts, Greater) && GroupsOf(less, contexts, Less)
  {
    greater, less := map[], map[];
    for k := 0 to |contexts|
      invariant GroupsOf(greater, contexts[..k], Greater) && GroupsOf(less, contexts[..k], Less)
    {
      GroupsExtend(greater, contexts, k, Greater);
      GroupsExtend(less, contexts, k, Less);
      var c := contexts[k];
      if RungOf(c, Greater).Some? {
        greater := Append(greater, c.event, RungOf(c, Greater).value);
      } else if RungOf(c, Less).Some? {
        less := Append(less, c.event, RungOf(c, Less).value);
      }
    }
    assert contexts[..|contexts|] == contexts;
  }

  /** StructuralModel._ladders, updating the predictions already made. */
  method Ladders(before: map<string, real>, contexts: seq<MarketContext>, minGroupSize: int)
    returns (out: map<string, real>)
    ensures DistinctMarkets(contexts) ==> forall s, e :: EventFitted(out, contexts, s, e, minGroupSize)
    ensures forall t :: !OnLongLadder(contexts, Greater, t, minGroupSize) && !OnLongLadder(contexts, Less, t, minGroupSize) ==> SameAt(before, out, t)
  {
    var greater, less := GroupRungs(contexts);
    var fitted := FitLadders(before, greater, contexts, Greater, minGroupSize);
    out := FitLadders(fitted, less, contexts, Less, minGroupSize);
    BothSidesFitted(fitted, out, contexts, minGroupSize);
  }

  lemma GreaterStaysFitted(before: map<string, real>, after: map<string, real>, contexts: seq<MarketContext>, minGroupSize: int)
    requires DistinctMarkets(contexts) && forall e :: EventFitted(before, contexts, Greater, e, minGroupSize)
    requires forall t :: !OnLongLadder(contexts, Less, t, minGroupSize) ==> SameAt(before, after, t)
    ensures forall e :: EventFitted(after, contexts, Greater, e, minGroupSize)
  {
    forall e: string
      ensures EventFitted(after, contexts, Greater, e, minGroupSize)
    {
      GreaterSurvivesLess(before, after, contexts, e, minGroupSize);
    }
  }

  lemma BothSidesFitted(before: map<string, real>, after: map<string, real>, contexts: seq<MarketContext>, minGroupSize: int)
    requires DistinctMarkets(contexts) ==> forall e :: EventFitted(before, contexts, Greater, e, minGroupSize)
    requires DistinctMarkets(contexts) ==> forall e :: EventFitted(after, contexts, Less, e, minGroupSize)
    requires forall t :: !OnLongLadder(contexts, Less, t, minGroupSize) ==> SameAt(before, after, t)
    ensures DistinctMarkets(contexts) ==> forall s, e :: EventFitted(after, contexts, s, e, minGroupSize)
  {
    if DistinctMarkets(contexts) {
      GreaterStaysFitted(before, after, contexts, minGroupSize);
      forall s: Side, e: string
        ensures EventFitted(after, contexts, s, e, minGroupSize)
      {
        match s
        case Greater => assert EventFitted(after, contexts, Greater, e, minGroupSize);
        case Less => assert EventFitted(after, contexts, Less, e, minGroupSize);
      }
    }
  }

  lemma GreaterSurvivesLess(before: map<string, real>, after: map<string, real>, contexts: seq<MarketContext>,
                            event: string, minGroupSize: int)
    requires DistinctMarkets(contexts) && EventFitted(before, contexts, Greater, event, minGroupSize)
    requires forall t :: !OnLongLadder(contexts, Less, t, minGroupSize) ==> SameAt(before, after, t)
    ensures EventFitted(after, contexts, Greater, event, minGroupSize)
  {
    var ladder := LadderOf(contexts, Greater, event);
    if |ladder| >= minGroupSize && ladder != [] {
      var sorted := Sorted(ladder, Greater);
      forall i | 0 <= i < |sorted|
        ensures SameAt(before, after, sorted[i].ticker)
      {
        assert Lists(sorted, sorted[i].ticker);
        SortedListsSame(ladder, Greater, sorted[i].ticker);
        if OnLongLadder(contexts, Less, sorted[i].ticker, minGroupSize) {
          var f :| Lists(LadderOf(contexts, Less, f), sorted[i].ticker);
          TickerOnOneLadder(contexts, Greater, event, Less, f, sorted[i].ticker);
        }
      }
      FittedOnOnlyReadsItsTickers(before, after, sorted);
    }
  }

  // ----- Ladders are monotone in strike -------------------------------------------

  lemma FittedIsMonotone(out: map<string, real>, ladder: seq<Rung>, i: nat, j: nat)
    requires FittedOn(out, ladder) && i <= j < |ladder|
    ensures ladder[i].ticker in out && ladder[j].ticker in out
    ensures out[ladder[i].ticker] >= out[ladder[j].ticker]
  {
    var fit :| FitOn(out, ladder, fit);
    ClampMonotone(fit[i], fit[j]);
  }

  lemma SortedHolds(ladder: seq<Rung>, side: Side, r: Rung) returns (i: nat)
    requires r in ladder
    ensures i < |Sorted(ladder, side)| && Sorted(ladder, side)[i] == r
  {
    assert r in multiset(ladder);
    i :| 0 <= i < |Sorted(ladder, side)| && Sorted(ladder, side)[i] == r;
  }

  /** Along a fitted ladder, in its own order, fair value never rises. */
  lemma LadderIsMonotone(out: map<string, real>, ladder: seq<Rung>, side: Side, a: Rung, b: Rung)
    requires a in ladder && b in ladder && FittedOn(out, Sorted(ladder, side)) && !Before(b, a, side)
    ensures a.ticker in out && b.ticker in out && out[a.ticker] >= out[b.ticker]
  {
    var x := SortedHolds(ladder, side, a);
    var y := SortedHolds(ladder, side, b);
    SortedIsOrdered(ladder, side);
    FittedIsMonotone(out, Sorted(ladder, side), x, y);
  }

  /** Two strikes of one fitted ladder never quote an arbitrage: P(above the higher strike) is at most
      P(above the lower one), and P(below the lower cap) is at most P(below the higher one). */
  lemma PredictionsAreMonotone(out: map<string, real>, contexts: seq<MarketContext>, side: Side, minGroupSize: int,
                               i: nat, j: nat)
    requires i < |contexts| && j < |contexts| && contexts[i].event == contexts[j].event
    requires RungOf(contexts[i], side).Some? && RungOf(contexts[j], side).Some?
    requires |LadderOf(contexts, side, contexts[i].event)| >= minGroupSize
    requires EventFitted(out, contexts, side, contexts[i].event, minGroupSize)
    requires RungOf(contexts[i], side).value.strike < RungOf(contexts[j], side).value.strike
    ensures contexts[i].ticker in out && contexts[j].ticker in out
    ensures side.Greater? ==> out[contexts[i].ticker] >= out[contexts[j].ticker]
    ensures side.Less? ==> out[contexts[i].ticker] <= out[contexts[j].ticker]
  {
    var ladder := LadderOf(contexts, side, contexts[i].event);
    ContextHasRung(contexts, side, i);
    ContextHasRung(contexts, side, j);
    var a, b := RungOf(contexts[i], side).value, RungOf(contexts[j], side).value;
    if side.Greater? {
      LadderIsMonotone(out, ladder, side, a, b);
    } else {
      LadderIsMonotone(out, ladder, side, b, a);
    }
  }

  // ----- Exclusive events -------------------------------------------------------

  /** The market mids of one event, in dictionary order. */
  type Members = seq<(string, real)>

  function Total(members: Members): real {
    if members == [] then 0.0 else Total(members[..|members| - 1]) + members[|members| - 1].1
  }

  /** A member's mid as a share of the event's total. */
  function Share(mid: real, total: real): (share: real)
    requires total > 0.0
    ensures share * total == mid
  {
    RealArithmetic.Quotient(mid, total, mid / total);
    mid / total
  }

  function ClampedShares(members: Members, total: real): (out: Members)
    requires total > 0.0
    ensures |out| == |members|
    ensures forall i :: 0 <= i < |members| ==> out[i] == (members[i].0, Clamp(Share(members[i].1, total)))
  {
    seq(|members|, i requires 0 <= i < |members| => (members[i].0, Clamp(Share(members[i].1, total))))
  }

  function NormalizeExclusive(members: Members): Members {
    if Total(members) <= 0.0 then [] else ClampedShares(members, Total(members))
  }

  lemma {:induction false} SharesTotal(members: Members, shares: Members, total: real)
    requires total > 0.0 && |shares| == |members|
    requires forall i :: 0 <= i < |members| ==> shares[i].1 == Share(members[i].1, total)
    ensures Total(shares) * total == Total(members)
  {
    if members != [] {
      var n := |members| - 1;
      SharesTotal(members[..n], shares[..n], total);
      RealArithmetic.Distribute(Total(shares[..n]), shares[n].1, total);
    }
  }

  lemma UnitTotal(sum: real, total: real, product: real)
    requires total > 0.0 && sum * total == product && product == total
    ensures sum == 1.0
  {
    RealArithmetic.CancelFactor(sum, 1.0, total);
  }

  lemma SharesSumToOne(members: Members, shares: Members, total: real)
    requires total > 0.0 && total == Total(members) && |shares| == |members|
    requires forall i :: 0 <= i < |members| ==> shares[i].1 == Share(members[i].1, total)
    ensures Total(shares) == 1.0
  {
    SharesTotal(members, shares, total);
    UnitTotal(Total(shares), total, Total(members));
  }

  ghost predicate InRange(shares: Members) {
    forall i :: 0 <= i < |shares| ==> PROB_FLOOR <= shares[i].1 <= PROB_CEIL
  }

  ghost predicate ClampOf(shares: Members, clamped: Members) {
    |clamped| == |shares| && forall i :: 0 <= i < |shares| ==> clamped[i].1 == Clamp(shares[i].1)
  }

  /** Without a share above the ceiling clamping only raises, and raises the total if any share is below the floor. */
  lemma {:induction false} ClampingRaises(shares: Members, clamped: Members)
    requires ClampOf(shares, clamped) && forall i :: 0 <= i < |shares| ==> shares[i].1 <= PROB_CEIL
    ensures Total(clamped) >= Total(shares)
    ensures InRange(shares) <==> Total(clamped) == Total(shares)
  {
    if shares != [] {
      var n := |shares| - 1;
      ClampingRaises(shares[..n], clamped[..n]);
      assert InRange(shares) <==> InRange(shares[..n]) && PROB_FLOOR <= shares[n].1 by {
        assert forall i :: 0 <= i < n ==> shares[..n][i] == shares[i];
      }
    }
  }

  lemma {:induction false} FloorsAddUp(clamped: Members)
    requires forall i :: 0 <= i < |clamped| ==> clamped[i].1 >= PROB_FLOOR
    ensures Total(clamped) >= PROB_FLOOR * |clamped| as real
    ensures forall k :: 0 <= k < |clamped| ==> Total(clamped) >= PROB_FLOOR * (|clamped| - 1) as real + clamped[k].1
  {
    if clamped != [] {
      FloorsAddUp(clamped[..|clamped| - 1]);
    }
  }

  lemma TotalOfTwo(members: Members)
    requires |members| == 2
    ensures Total(members) == members[0].1 + members[1].1
  {
    var first := members[..1];
    assert first[..0] == [];
    assert Total(first) == first[0].1;
  }

  /** Two shares of one clamp to two shares of one: what one gains the other loses. */
  lemma PairStaysAtOne(shares: Members, clamped: Members)
    requires ClampOf(shares, clamped) && |shares| == 2 && Total(shares) == 1.0
    ensures Total(clamped) == 1.0
  {
    TotalOfTwo(shares);
    TotalOfTwo(clamped);
  }

  lemma LoneShareIsCut(shares: Members, clamped: Members)
    requires ClampOf(shares, clamped) && |shares| == 1 && Total(shares) == 1.0
    ensures Total(clamped) == PROB_CEIL && !InRange(shares)
  {
    assert shares[..0] == [] && clamped[..0] == [];
  }

  /** Three or more shares keep their total of one exactly if none of them is clamped. */
  lemma ManyStayAtOneExactly(shares: Members, clamped: Members)
    requires ClampOf(shares, clamped) && |shares| >= 3 && Total(shares) == 1.0
    ensures Total(clamped) == 1.0 <==> InRange(shares)
  {
    if k :| 0 <= k < |shares| && shares[k].1 > PROB_CEIL {
      FloorsAddUp(clamped);
      assert clamped[k].1 == PROB_CEIL;
    } else {
      ClampingRaises(shares, clamped);
    }
  }

  lemma ClampedTotalExactly(shares: Members, clamped: Members)
    requires ClampOf(shares, clamped) && Total(shares) == 1.0
    ensures Total(clamped) == 1.0 <==> InRange(shares) || |shares| == 2
  {
    if |shares| == 1 {
      LoneShareIsCut(shares, clamped);
    } else if |shares| == 2 {
      PairStaysAtOne(shares, clamped);
    } else if |shares| >= 3 {
      ManyStayAtOneExactly(shares, clamped);
    }
  }

  /** Every member's share of the event's total, before clamping. */
  ghost function SharesOf(members: Members): (shares: Members)
    requires Total(members) > 0.0
    ensures |shares| == |members|
    ensures forall i :: 0 <= i < |members| ==> shares[i] == (members[i].0, Share(members[i].1, Total(members)))
  {
    seq(|members|, i requires 0 <= i < |members| => (members[i].0, Share(members[i].1, Total(members))))
  }

  /** The normalized vector sums to exactly one if and only if no share is clamped or the event has exactly
      two markets. */
  lemma NormalizedSumsToOneExactly(members: Members)
    requires Total(members) > 0.0
    ensures Total(NormalizeExclusive(members)) == 1.0 <==> InRange(SharesOf(members)) || |members| == 2
  {
    var shares := SharesOf(members);
    SharesSumToOne(members, shares, Total(members));
    ClampedTotalExactly(shares, NormalizeExclusive(members));
  }

  /** When no market hits the probability floor or ceiling, fair values sum to exactly one. */
  lemma NormalizedSumsToOne(members: Members)
    requires Total(members) > 0.0
    requires forall i :: 0 <= i < |members| ==> PROB_FLOOR <= Share(members[i].1, Total(members)) <= PROB_CEIL
    ensures Total(NormalizeExclusive(members)) == 1.0
  {
    NormalizedSumsToOneExactly(members);
  }
}
