/** StructuralModel.predict: exclusive events first, ladders over them, and what that means market by market. */
module Prediction {
  import opened Wrappers
  import opened Structural
  import opened Exclusive
  import opened Markets
  import opened Isotonic
  import RealArithmetic
  import Text

  // ----- Both together -------------------------------------------------------------------------------

  ghost predicate OnAnyLadder(contexts: seq<MarketContext>, ticker: string, minGroupSize: int) {
    OnLongLadder(contexts, Greater, ticker, minGroupSize) || OnLongLadder(contexts, Less, ticker, minGroupSize)
  }

  /** Of the event's members, those on no fitted ladder have the clamped shares of their mids. */
  ghost predicate KeepsShares(out: map<string, real>, contexts: seq<MarketContext>, event: string, minGroupSize: int) {
    Normalizes(contexts, event, minGroupSize) ==>
      var members := MembersOf(contexts, event);
      forall i :: 0 <= i < |members| && !OnAnyLadder(contexts, members[i].0, minGroupSize) ==>
        members[i].0 in out && out[members[i].0] == Clamp(Share(members[i].1, Total(members)))
  }

  /** The ticker is on a fitted ladder or in a normalized event. */
  ghost predicate Constrained(contexts: seq<MarketContext>, ticker: string, minGroupSize: int) {
    OnAnyLadder(contexts, ticker, minGroupSize) || InLargeEvent(contexts, ticker, minGroupSize)
  }

  /** Fitted ladders win; every other member of an exclusive event keeps its share; and a ticker that
      neither constrains gets no prediction. */
  method Predict(contexts: seq<MarketContext>, minGroupSize: int) returns (out: map<string, real>)
    ensures DistinctMarkets(contexts) ==> forall s, e :: EventFitted(out, contexts, s, e, minGroupSize)
    ensures DistinctMarkets(contexts) ==> forall e :: KeepsShares(out, contexts, e, minGroupSize)
    ensures forall t :: t in out ==> Constrained(contexts, t, minGroupSize)
    ensures DistinctMarkets(contexts) ==> forall t :: Constrained(contexts, t, minGroupSize) ==> t in out
    ensures DistinctMarkets(contexts) ==> NoArbitrage(out, contexts, minGroupSize)
    ensures DistinctMarkets(contexts) ==> GivesShares(out, contexts, minGroupSize)
    ensures DistinctMarkets(contexts) ==> PredictsOnlyConstrained(out, contexts, minGroupSize)
  {
    var exclusive := ExclusiveEvents(contexts, minGroupSize);
    out := Ladders(exclusive, contexts, minGroupSize);
    if DistinctMarkets(contexts) {
      forall e
        ensures KeepsShares(out, contexts, e, minGroupSize)
      {
        LaddersLeaveShares(exclusive, out, contexts, e, minGroupSize);
      }
      forall t | Constrained(contexts, t, minGroupSize)
        ensures t in out
      {
        ConstrainedIsPredicted(out, contexts, t, minGroupSize);
      }
    }
    NothingElsePredicted(exclusive, out, contexts, minGroupSize);
    if DistinctMarkets(contexts) {
      FittedMeansNoArbitrage(out, contexts, minGroupSize);
      SharesAreGiven(out, contexts, minGroupSize);
      OnlyConstrainedMarkets(out, contexts, minGroupSize);
    }
  }

  lemma LaddersLeaveShares(before: map<string, real>, after: map<string, real>, contexts: seq<MarketContext>, event: string,
                           minGroupSize: int)
    requires ExclusiveFitted(before, contexts, event, minGroupSize)
    requires forall t :: !OnLongLadder(contexts, Greater, t, minGroupSize) && !OnLongLadder(contexts, Less, t, minGroupSize)
                         ==> SameAt(before, after, t)
    ensures KeepsShares(after, contexts, event, minGroupSize)
  {
    if Normalizes(contexts, event, minGroupSize) {
      var members := MembersOf(contexts, event);
      forall i | 0 <= i < |members| && !OnAnyLadder(contexts, members[i].0, minGroupSize)
        ensures members[i].0 in after && after[members[i].0] == Clamp(Share(members[i].1, Total(members)))
      {
        assert SameAt(before, after, members[i].0);
      }
    }
  }

  lemma NothingElsePredicted(before: map<string, real>, after: map<string, real>, contexts: seq<MarketContext>, minGroupSize: int)
    requires forall t :: t in before ==> InLargeEvent(contexts, t, minGroupSize)
    requires forall t :: !OnLongLadder(contexts, Greater, t, minGroupSize) && !OnLongLadder(contexts, Less, t, minGroupSize)
                         ==> SameAt(before, after, t)
    ensures forall t :: t in after ==> Constrained(contexts, t, minGroupSize)
  {
    forall t | t in after
      ensures Constrained(contexts, t, minGroupSize)
    {
      if !OnAnyLadder(contexts, t, minGroupSize) {
        assert SameAt(before, after, t);
      }
    }
  }

  lemma ConstrainedIsPredicted(out: map<string, real>, contexts: seq<MarketContext>, ticker: string, minGroupSize: int)
    requires Constrained(contexts, ticker, minGroupSize)
    requires forall s, e :: EventFitted(out, contexts, s, e, minGroupSize)
    requires forall e :: KeepsShares(out, contexts, e, minGroupSize)
    ensures ticker in out
  {
    if OnLongLadder(contexts, Greater, ticker, minGroupSize) {
      RungIsPredicted(out, contexts, Greater, ticker, minGroupSize);
    } else if OnLongLadder(contexts, Less, ticker, minGroupSize) {
      RungIsPredicted(out, contexts, Less, ticker, minGroupSize);
    } else {
      var e :| Normalizes(contexts, e, minGroupSize) && HasMember(MembersOf(contexts, e), ticker);
      assert KeepsShares(out, contexts, e, minGroupSize);
    }
  }

  lemma RungIsPredicted(out: map<string, real>, contexts: seq<MarketContext>, side: Side, ticker: string, minGroupSize: int)
    requires OnLongLadder(contexts, side, ticker, minGroupSize)
    requires forall e :: EventFitted(out, contexts, side, e, minGroupSize)
    ensures ticker in out
  {
    var e :| |LadderOf(contexts, side, e)| >= minGroupSize && Lists(LadderOf(contexts, side, e), ticker);
    assert EventFitted(out, contexts, side, e, minGroupSize);
    var ladder := Sorted(LadderOf(contexts, side, e), side);
    SortedListsSame(LadderOf(contexts, side, e), side, ticker);
    var fit :| FitOn(out, ladder, fit);
  }

  // ----- Which market is on which ladder -----------------------------------------------------------------

  function OfSide(side: Side): MarketContext -> bool {
    if side.Greater? then IsAbove else IsBelow
  }

  function StrikeOn(c: MarketContext, side: Side): real
    requires OfSide(side)(c)
  {
    if side.Greater? then c.floorStrike.value else c.capStrike.value
  }

  /** A context has a rung on a side exactly if it pays on that side, at its own strike and mid. */
  lemma RungExactly(c: MarketContext, side: Side)
    ensures RungOf(c, side).Some? <==> OfSide(side)(c)
    ensures RungOf(c, side).Some? ==>
      && RungOf(c, side).value.strike == StrikeOn(c, side)
      && RungOf(c, side).value.ticker == c.ticker
      && 2.0 * RungOf(c, side).value.mid == BidPlusAsk(c)
  {
  }

  lemma {:induction false} LadderCounts(contexts: seq<MarketContext>, side: Side, event: string)
    ensures |LadderOf(contexts, side, event)| == |Where(contexts, event, OfSide(side))|
  {
    if contexts == [] {
      assert Where(contexts, event, OfSide(side)) == {};
    } else {
      var n := |contexts| - 1;
      LadderCounts(contexts[..n], side, event);
      RungExactly(contexts[n], side);
      WhereSnoc(contexts, event, OfSide(side));
    }
  }

  lemma WhereSnoc(contexts: seq<MarketContext>, event: string, p: MarketContext -> bool)
    requires contexts != []
    ensures var n := |contexts| - 1;
      |Where(contexts, event, p)|
      == |Where(contexts[..n], event, p)| + if contexts[n].event == event && p(contexts[n]) then 1 else 0
  {
    var n := |contexts| - 1;
    assert Where(contexts, event, p)
        == Where(contexts[..n], event, p) + if contexts[n].event == event && p(contexts[n]) then {n} else {};
  }

  lemma OnLongLadderExactly(contexts: seq<MarketContext>, side: Side, k: nat, minGroupSize: int)
    requires DistinctMarkets(contexts) && k < |contexts|
    ensures OnLongLadder(contexts, side, contexts[k].ticker, minGroupSize)
       <==> OfSide(side)(contexts[k]) && |Where(contexts, contexts[k].event, OfSide(side))| >= minGroupSize
  {
    RungExactly(contexts[k], side);
    LadderCounts(contexts, side, contexts[k].event);
    if OnLongLadder(contexts, side, contexts[k].ticker, minGroupSize) {
      var e :| |LadderOf(contexts, side, e)| >= minGroupSize && Lists(LadderOf(contexts, side, e), contexts[k].ticker);
      var r :| 0 <= r < |LadderOf(contexts, side, e)| && LadderOf(contexts, side, e)[r].ticker == contexts[k].ticker;
      var i := RungHasContext(contexts, side, e, r);
      assert i == k;
    }
    if OfSide(side)(contexts[k]) {
      ContextHasRung(contexts, side, k);
    }
  }

  lemma OnAnyLadderExactly(contexts: seq<MarketContext>, k: nat, minGroupSize: int)
    requires DistinctMarkets(contexts) && k < |contexts|
    ensures OnAnyLadder(contexts, contexts[k].ticker, minGroupSize) <==> OnFittedLadder(contexts, k, minGroupSize)
  {
    OnLongLadderExactly(contexts, Greater, k, minGroupSize);
    OnLongLadderExactly(contexts, Less, k, minGroupSize);
  }

  lemma PairHasNoArbitrage(out: map<string, real>, contexts: seq<MarketContext>, side: Side, minGroupSize: int, i: nat, j: nat)
    requires DistinctMarkets(contexts) && i < |contexts| && j < |contexts| && contexts[i].event == contexts[j].event
    requires OfSide(side)(contexts[i]) && OfSide(side)(contexts[j])
    requires |Where(contexts, contexts[i].event, OfSide(side))| >= minGroupSize
    requires EventFitted(out, contexts, side, contexts[i].event, minGroupSize)
    requires StrikeOn(contexts[i], side) < StrikeOn(contexts[j], side)
    ensures contexts[i].ticker in out && contexts[j].ticker in out
    ensures side.Greater? ==> out[contexts[i].ticker] >= out[contexts[j].ticker]
    ensures side.Less? ==> out[contexts[i].ticker] <= out[contexts[j].ticker]
  {
    RungExactly(contexts[i], side);
    RungExactly(contexts[j], side);
    LadderCounts(contexts, side, contexts[i].event);
    PredictionsAreMonotone(out, contexts, side, minGroupSize, i, j);
  }

  lemma FittedIsPredicted(out: map<string, real>, contexts: seq<MarketContext>, minGroupSize: int, k: nat)
    requires DistinctMarkets(contexts) && k < |contexts| && OnFittedLadder(contexts, k, minGroupSize)
    requires forall t :: Constrained(contexts, t, minGroupSize) ==> t in out
    ensures contexts[k].ticker in out
  {
    OnAnyLadderExactly(contexts, k, minGroupSize);
    assert Constrained(contexts, contexts[k].ticker, minGroupSize);
  }

  lemma FittedMeansNoArbitrage(out: map<string, real>, contexts: seq<MarketContext>, minGroupSize: int)
    requires DistinctMarkets(contexts)
    requires forall s, e :: EventFitted(out, contexts, s, e, minGroupSize)
    requires forall t :: Constrained(contexts, t, minGroupSize) ==> t in out
    ensures NoArbitrage(out, contexts, minGroupSize)
  {
    forall i, j | 0 <= i < |contexts| && 0 <= j < |contexts| && contexts[i].event == contexts[j].event
      && OnFittedLadder(contexts, i, minGroupSize) && OnFittedLadder(contexts, j, minGroupSize)
      ensures contexts[i].ticker in out && contexts[j].ticker in out
      ensures IsAbove(contexts[i]) && IsAbove(contexts[j]) && contexts[i].floorStrike.value < contexts[j].floorStrike.value
        ==> out[contexts[i].ticker] >= out[contexts[j].ticker]
      ensures IsBelow(contexts[i]) && IsBelow(contexts[j]) && contexts[i].capStrike.value < contexts[j].capStrike.value
        ==> out[contexts[i].ticker] <= out[contexts[j].ticker]
    {
      FittedIsPredicted(out, contexts, minGroupSize, i);
      FittedIsPredicted(out, contexts, minGroupSize, j);
      if IsAbove(contexts[i]) && IsAbove(contexts[j]) && contexts[i].floorStrike.value < contexts[j].floorStrike.value {
        PairHasNoArbitrage(out, contexts, Greater, minGroupSize, i, j);
      }
      if IsBelow(contexts[i]) && IsBelow(contexts[j]) && contexts[i].capStrike.value < contexts[j].capStrike.value {
        PairHasNoArbitrage(out, contexts, Less, minGroupSize, i, j);
      }
    }
  }

  // ----- A ladder without an arbitrage is left alone ----------------------------------------------------

  /** In strike order, and by ticker within one strike, what the event's markets are quoted at never goes
      against the ladder. */
  ghost predicate QuotedInOrder(contexts: seq<MarketContext>, side: Side, event: string) {
    forall i, j | i in Where(contexts, event, OfSide(side)) && j in Where(contexts, event, OfSide(side))
        && (StrikeOn(contexts[i], side) < StrikeOn(contexts[j], side)
            || (StrikeOn(contexts[i], side) == StrikeOn(contexts[j], side) && Text.Less(contexts[i].ticker, contexts[j].ticker))) ::
      if side.Greater? then BidPlusAsk(contexts[i]) >= BidPlusAsk(contexts[j])
      else BidPlusAsk(contexts[i]) <= BidPlusAsk(contexts[j])
  }

  /** Every rung comes from a market of the event, with its strike, ticker and mid. */
  lemma RungSource(contexts: seq<MarketContext>, side: Side, event: string, r: Rung) returns (i: nat)
    requires r in LadderOf(contexts, side, event)
    ensures i in Where(contexts, event, OfSide(side))
    ensures r.strike == StrikeOn(contexts[i], side) && r.ticker == contexts[i].ticker && 2.0 * r.mid == BidPlusAsk(contexts[i])
  {
    var k :| 0 <= k < |LadderOf(contexts, side, event)| && LadderOf(contexts, side, event)[k] == r;
    i := RungHasContext(contexts, side, event, k);
    RungExactly(contexts[i], side);
  }

  lemma RungsInOrder(contexts: seq<MarketContext>, side: Side, event: string, a: Rung, b: Rung)
    requires QuotedInOrder(contexts, side, event) && a.ticker != b.ticker && Before(a, b, side)
    requires a in LadderOf(contexts, side, event) && b in LadderOf(contexts, side, event)
    ensures a.mid >= b.mid
  {
    var i := RungSource(contexts, side, event, a);
    var j := RungSource(contexts, side, event, b);
  }

  lemma MidsInOrder(contexts: seq<MarketContext>, side: Side, event: string)
    requires DistinctMarkets(contexts) && QuotedInOrder(contexts, side, event)
    ensures NonIncreasing(Mids(Sorted(LadderOf(contexts, side, event), side)))
  {
    var ladder := LadderOf(contexts, side, event);
    var sorted := Sorted(ladder, side);
    LadderTickersDistinct(contexts, side, event);
    SortKeepsTickersDistinct(ladder, side);
    SortedIsOrdered(ladder, side);
    forall i, j | 0 <= i < j < |sorted|
      ensures sorted[i].mid >= sorted[j].mid
    {
      assert sorted[i] in multiset(ladder) && sorted[j] in multiset(ladder);
      RungsInOrder(contexts, side, event, sorted[i], sorted[j]);
    }
  }

  lemma {:induction false} NoDistanceToSelf(s: seq<real>, k: nat)
    requires k <= |s|
    ensures SquaredDistance(s, s, k) == 0.0
  {
    if k > 0 {
      NoDistanceToSelf(s, k - 1);
    }
  }

  lemma OrderedIsItsOwnFit(values: seq<real>, fit: seq<real>)
    requires NonIncreasing(values) && IsUniqueLeastSquaresFit(values, fit)
    ensures fit == values
  {
    NoDistanceToSelf(values, |values|);
    assert SquaredError(values, values) == 0.0;
  }

  /** A market of a ladder already quoted in order is predicted at half of bid plus ask, held between half a
      percent and 99.5 percent. */
  lemma OrderedLadderIsKept(out: map<string, real>, contexts: seq<MarketContext>, side: Side, minGroupSize: int, k: nat)
    requires DistinctMarkets(contexts) && k < |contexts| && OfSide(side)(contexts[k])
    requires |Where(contexts, contexts[k].event, OfSide(side))| >= minGroupSize
    requires EventFitted(out, contexts, side, contexts[k].event, minGroupSize)
    requires QuotedInOrder(contexts, side, contexts[k].event)
    ensures contexts[k].ticker in out && IsHeldShare(out[contexts[k].ticker], BidPlusAsk(contexts[k]), 2.0)
  {
    var ladder := LadderOf(contexts, side, contexts[k].event);
    var sorted := Sorted(ladder, side);
    RungExactly(contexts[k], side);
    LadderCounts(contexts, side, contexts[k].event);
    ContextHasRung(contexts, side, k);
    var r := SortedHolds(ladder, side, RungOf(contexts[k], side).value);
    var fit :| FitOn(out, sorted, fit);
    MidsInOrder(contexts, side, contexts[k].event);
    OrderedIsItsOwnFit(Mids(sorted), fit);
    assert out[contexts[k].ticker] == Clamp(sorted[r].mid);
  }

  // ----- Which market is in which event ---------------------------------------------------------------------

  lemma {:induction false} PutNew(members: Members, ticker: string, mid: real)
    requires !HasMember(members, ticker)
    ensures Put(members, ticker, mid) == members + [(ticker, mid)]
  {
    if members != [] {
      assert members[0].0 != ticker;
      assert forall t :: HasMember(members[1..], t) ==> HasMember(members, t);
      PutNew(members[1..], ticker, mid);
      assert members == [members[0]] + members[1..];
    }
  }

  lemma ExclusiveMidExactly(c: MarketContext)
    ensures ExclusiveMid(c).Some? <==> IsExclusive(c)
    ensures ExclusiveMid(c).Some? ==> 2.0 * ExclusiveMid(c).value == BidPlusAsk(c)
  {
  }

  lemma MembersSnoc(contexts: seq<MarketContext>, event: string)
    requires DistinctMarkets(contexts) && contexts != []
    ensures var n := |contexts| - 1;
      MembersOf(contexts, event)
      == if contexts[n].event == event && IsExclusive(contexts[n])
         then MembersOf(contexts[..n], event) + [(contexts[n].ticker, ExclusiveMid(contexts[n]).value)]
         else MembersOf(contexts[..n], event)
  {
    var n := |contexts| - 1;
    ExclusiveMidExactly(contexts[n]);
    MembersAreContexts(contexts[..n], event);
    if contexts[n].event == event && IsExclusive(contexts[n]) {
      PutNew(MembersOf(contexts[..n], event), contexts[n].ticker, ExclusiveMid(contexts[n]).value);
    }
  }

  lemma TotalSnoc(members: Members, member: (string, real))
    ensures Total(members + [member]) == Total(members) + member.1
  {
    assert (members + [member])[..|members|] == members;
  }

  /** An event's members are its exclusive markets, and their mids add up to half of bids plus asks. */
  lemma {:induction false} MembersCount(contexts: seq<MarketContext>, event: string)
    requires DistinctMarkets(contexts)
    ensures |MembersOf(contexts, event)| == |Where(contexts, event, IsExclusive)|
    ensures 2.0 * Total(MembersOf(contexts, event)) == EventTotal(contexts, event)
  {
    if contexts == [] {
      assert Where(contexts, event, IsExclusive) == {};
    } else {
      var n := |contexts| - 1;
      MembersCount(contexts[..n], event);
      MembersSnoc(contexts, event);
      WhereSnoc(contexts, event, IsExclusive);
      if contexts[n].event == event && IsExclusive(contexts[n]) {
        ExclusiveMidExactly(contexts[n]);
        TotalSnoc(MembersOf(contexts[..n], event), (contexts[n].ticker, ExclusiveMid(contexts[n]).value));
      }
    }
  }

  lemma {:induction false} MemberIndex(contexts: seq<MarketContext>, k: nat) returns (i: nat)
    requires DistinctMarkets(contexts) && k < |contexts| && IsExclusive(contexts[k])
    ensures i < |MembersOf(contexts, contexts[k].event)|
    ensures var member := MembersOf(contexts, contexts[k].event)[i];
      member.0 == contexts[k].ticker && 2.0 * member.1 == BidPlusAsk(contexts[k])
  {
    var n := |contexts| - 1;
    MembersSnoc(contexts, contexts[k].event);
    ExclusiveMidExactly(contexts[k]);
    if k == n {
      i := |MembersOf(contexts, contexts[k].event)| - 1;
    } else {
      i := MemberIndex(contexts[..n], k);
    }
  }

  lemma NormalizesExactly(contexts: seq<MarketContext>, event: string, minGroupSize: int)
    requires DistinctMarkets(contexts)
    ensures Normalizes(contexts, event, minGroupSize)
       <==> |Where(contexts, event, IsExclusive)| >= minGroupSize && EventTotal(contexts, event) > 0.0
  {
    MembersCount(contexts, event);
  }

  /** A clamped quotient is a held share, cleared of the division. */
  lemma ClampedIsHeld(mid: real, total: real, part: real, whole: real)
    requires total > 0.0 && part == 2.0 * mid && whole == 2.0 * total
    ensures IsHeldShare(Clamp(Share(mid, total)), part, whole)
  {
    var share, p := Share(mid, total), Clamp(Share(mid, total));
    if p < 0.995 {
      RealArithmetic.ProductMonotone(share, p, total);
    }
    if p > 0.005 {
      RealArithmetic.ProductMonotone(p, share, total);
    }
  }

  lemma ShareIsGiven(out: map<string, real>, contexts: seq<MarketContext>, minGroupSize: int, k: nat)
    requires DistinctMarkets(contexts) && k < |contexts| && KeepsShares(out, contexts, contexts[k].event, minGroupSize)
    requires InSharedEvent(contexts, k, minGroupSize) && !OnFittedLadder(contexts, k, minGroupSize)
    ensures contexts[k].ticker in out
    ensures IsHeldShare(out[contexts[k].ticker], BidPlusAsk(contexts[k]), EventTotal(contexts, contexts[k].event))
  {
    var event := contexts[k].event;
    NormalizesExactly(contexts, event, minGroupSize);
    MembersCount(contexts, event);
    OnAnyLadderExactly(contexts, k, minGroupSize);
    var i := MemberIndex(contexts, k);
    var members := MembersOf(contexts, event);
    assert out[members[i].0] == Clamp(Share(members[i].1, Total(members)));
    ClampedIsHeld(members[i].1, Total(members), BidPlusAsk(contexts[k]), EventTotal(contexts, event));
  }

  lemma SharesAreGiven(out: map<string, real>, contexts: seq<MarketContext>, minGroupSize: int)
    requires DistinctMarkets(contexts) && forall e :: KeepsShares(out, contexts, e, minGroupSize)
    ensures GivesShares(out, contexts, minGroupSize)
  {
    forall k | 0 <= k < |contexts| && InSharedEvent(contexts, k, minGroupSize) && !OnFittedLadder(contexts, k, minGroupSize)
      ensures contexts[k].ticker in out
      ensures IsHeldShare(out[contexts[k].ticker], BidPlusAsk(contexts[k]), EventTotal(contexts, contexts[k].event))
    {
      ShareIsGiven(out, contexts, minGroupSize, k);
    }
  }

  lemma {:induction false} MemberIsExclusive(contexts: seq<MarketContext>, event: string, ticker: string) returns (k: nat)
    requires DistinctMarkets(contexts) && HasMember(MembersOf(contexts, event), ticker)
    ensures k < |contexts| && contexts[k].ticker == ticker && contexts[k].event == event && IsExclusive(contexts[k])
  {
    var n := |contexts| - 1;
    MembersSnoc(contexts, event);
    if HasMember(MembersOf(contexts[..n], event), ticker) {
      k := MemberIsExclusive(contexts[..n], event, ticker);
    } else {
      k := n;
    }
  }

  lemma ConstrainedMarket(contexts: seq<MarketContext>, ticker: string, minGroupSize: int) returns (k: nat)
    requires DistinctMarkets(contexts) && Constrained(contexts, ticker, minGroupSize)
    ensures k < |contexts| && contexts[k].ticker == ticker
    ensures OnFittedLadder(contexts, k, minGroupSize) || InSharedEvent(contexts, k, minGroupSize)
  {
    if InLargeEvent(contexts, ticker, minGroupSize) {
      var e :| Normalizes(contexts, e, minGroupSize) && HasMember(MembersOf(contexts, e), ticker);
      k := MemberIsExclusive(contexts, e, ticker);
      NormalizesExactly(contexts, e, minGroupSize);
    } else {
      var side := if OnLongLadder(contexts, Greater, ticker, minGroupSize) then Greater else Less;
      var e :| |LadderOf(contexts, side, e)| >= minGroupSize && Lists(LadderOf(contexts, side, e), ticker);
      var r :| 0 <= r < |LadderOf(contexts, side, e)| && LadderOf(contexts, side, e)[r].ticker == ticker;
      k := RungHasContext(contexts, side, e, r);
      OnAnyLadderExactly(contexts, k, minGroupSize);
    }
  }

  lemma OnlyConstrainedMarkets(out: map<string, real>, contexts: seq<MarketContext>, minGroupSize: int)
    requires DistinctMarkets(contexts) && forall t :: t in out ==> Constrained(contexts, t, minGroupSize)
    ensures PredictsOnlyConstrained(out, contexts, minGroupSize)
  {
    forall t | t in out
      ensures exists k | 0 <= k < |contexts| && contexts[k].ticker == t ::
        OnFittedLadder(contexts, k, minGroupSize) || InSharedEvent(contexts, k, minGroupSize)
    {
      var k := ConstrainedMarket(contexts, t, minGroupSize);
    }
  }

  // ----- What the predictions of an event sum to -------------------------------------------------------

  ghost predicate OffLadders(contexts: seq<MarketContext>, event: string, minGroupSize: int) {
    forall t :: HasMember(MembersOf(contexts, event), t) ==> !OnAnyLadder(contexts, t, minGroupSize)
  }

  /** The predictions of `members`, as written. */
  ghost function Written(out: map<string, real>, members: Members): Members
    requires forall i :: 0 <= i < |members| ==> members[i].0 in out
  {
    seq(|members|, i requires 0 <= i < |members| => (members[i].0, out[members[i].0]))
  }

  /** The predictions of a normalized event off all fitted ladders sum to exactly one if and only if no share
      is clamped or the event has exactly two markets. */
  lemma ExclusiveSumsToOneExactly(out: map<string, real>, contexts: seq<MarketContext>, event: string, minGroupSize: int)
    requires KeepsShares(out, contexts, event, minGroupSize) && OffLadders(contexts, event, minGroupSize)
    requires Normalizes(contexts, event, minGroupSize)
    ensures forall i :: 0 <= i < |MembersOf(contexts, event)| ==> MembersOf(contexts, event)[i].0 in out
    ensures Total(Written(out, MembersOf(contexts, event))) == 1.0
       <==> InRange(SharesOf(MembersOf(contexts, event))) || |MembersOf(contexts, event)| == 2
  {
    var members := MembersOf(contexts, event);
    forall i | 0 <= i < |members|
      ensures members[i].0 in out && out[members[i].0] == Clamp(Share(members[i].1, Total(members)))
    {
      assert HasMember(members, members[i].0);
    }
    SharesSumToOne(members, SharesOf(members), Total(members));
    ClampedTotalExactly(SharesOf(members), Written(out, members));
  }

  /** One favourite at 99.8 cents and two outsiders at a tenth of a cent. */
  function Lopsided(): seq<MarketContext> {
    [MarketContext("a", "e", Some(TopOfBook(0.998, 0.998)), "", None, None, true),
     MarketContext("b", "e", Some(TopOfBook(0.001, 0.001)), "", None, None, true),
     MarketContext("c", "e", Some(TopOfBook(0.001, 0.001)), "", None, None, true)]
  }

  lemma LopsidedMembers()
    ensures MembersOf(Lopsided(), "e") == [("a", 0.998), ("b", 0.001), ("c", 0.001)]
  {
    var one, two, three := Lopsided()[..1], Lopsided()[..2], Lopsided();
    assert one[..0] == [] && two[..1] == one && three[..2] == two;
    assert MembersOf(one, "e") == [("a", 0.998)];
    PutTwice(("a", 0.998), ("b", 0.001), ("c", 0.001));
    assert MembersOf(two, "e") == [("a", 0.998), ("b", 0.001)];
  }

  lemma PutTwice(a: (string, real), b: (string, real), c: (string, real))
    requires a.0 != b.0 && b.0 != c.0 && a.0 != c.0
    ensures Put([a], b.0, b.1) == [a, b] && Put([a, b], c.0, c.1) == [a, b, c]
  {
    assert [a][1..] == [] && [a, b][1..] == [b] && [b][1..] == [];
    assert Put([b], c.0, c.1) == [b, c];
  }

  /** Its three mids sum to one; its three fair values do not. */
  lemma LopsidedEventMissesOne(out: map<string, real>, minGroupSize: int)
    requires KeepsShares(out, Lopsided(), "e", minGroupSize) && OffLadders(Lopsided(), "e", minGroupSize) && minGroupSize <= 3
    ensures Total(MembersOf(Lopsided(), "e")) == 1.0
    ensures forall i :: 0 <= i < |MembersOf(Lopsided(), "e")| ==> MembersOf(Lopsided(), "e")[i].0 in out
    ensures Total(Written(out, MembersOf(Lopsided(), "e"))) != 1.0
  {
    LopsidedMembers();
    var members := MembersOf(Lopsided(), "e");
    TotalOfTwo(members[..2]);
    assert Share(members[0].1, 1.0) == 0.998;
    ExclusiveSumsToOneExactly(out, Lopsided(), "e", minGroupSize);
    assert !InRange(SharesOf(members)) by {
      assert SharesOf(members)[0].1 == Share(0.998, 1.0);
    }
  }
}
