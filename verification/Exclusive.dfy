/** Exclusive events: grouped by event, normalized to shares of one. */
module Exclusive {
  import opened Wrappers
  import opened Structural

  // ----- Grouping exclusive events ---------------------------------------------------------

  /** `dict[ticker] = mid`: a known ticker keeps its place, a new one goes to the end. */
  function Put(members: Members, ticker: string, mid: real): Members {
    if members == [] then [(ticker, mid)]
    else if members[0].0 == ticker then [(ticker, mid)] + members[1..]
    else [members[0]] + Put(members[1..], ticker, mid)
  }

  function ExclusiveMid(c: MarketContext): Option<real> {
    if c.mutuallyExclusive then c.Mid() else None
  }

  /** The members of one exclusive event among the contexts. */
  ghost function MembersOf(contexts: seq<MarketContext>, event: string): Members {
    if contexts == [] then []
    else
      var c := contexts[|contexts| - 1];
      var front := MembersOf(contexts[..|contexts| - 1], event);
      if c.event == event && ExclusiveMid(c).Some? then Put(front, c.ticker, ExclusiveMid(c).value) else front
  }

  ghost predicate UniqueKeys(members: Members) {
    forall i, j :: 0 <= i < j < |members| ==> members[i].0 != members[j].0
  }

  ghost predicate HasMember(members: Members, ticker: string) {
    exists i :: 0 <= i < |members| && members[i].0 == ticker
  }

  lemma {:induction false} PutKeys(members: Members, ticker: string, mid: real)
    requires UniqueKeys(members)
    ensures UniqueKeys(Put(members, ticker, mid))
    ensures forall t :: HasMember(Put(members, ticker, mid), t) ==> HasMember(members, t) || t == ticker
  {
    if members != [] && members[0].0 != ticker {
      var rest := Put(members[1..], ticker, mid);
      PutKeys(members[1..], ticker, mid);
      assert forall t :: HasMember(members[1..], t) ==> HasMember(members, t);
      forall i | 0 <= i < |rest|
        ensures rest[i].0 != members[0].0
      {
        assert HasMember(rest, rest[i].0);
      }
    }
  }

  /** Members come from contexts of the event, and no ticker is listed twice. */
  lemma {:induction false} MembersAreContexts(contexts: seq<MarketContext>, event: string)
    ensures UniqueKeys(MembersOf(contexts, event))
    ensures forall t :: HasMember(MembersOf(contexts, event), t) ==>
      exists k :: 0 <= k < |contexts| && contexts[k].ticker == t && contexts[k].event == event
  {
    if contexts != [] {
      var n := |contexts| - 1;
      MembersAreContexts(contexts[..n], event);
      var c := contexts[n];
      if c.event == event && ExclusiveMid(c).Some? {
        PutKeys(MembersOf(contexts[..n], event), c.ticker, ExclusiveMid(c).value);
      }
    }
  }

  /** With distinct markets a ticker belongs to one event only. */
  lemma MemberOfOneEvent(contexts: seq<MarketContext>, e: string, f: string, ticker: string)
    requires DistinctMarkets(contexts)
    requires HasMember(MembersOf(contexts, e), ticker) && HasMember(MembersOf(contexts, f), ticker)
    ensures e == f
  {
    MembersAreContexts(contexts, e);
    MembersAreContexts(contexts, f);
  }

  type EventGroups = map<string, Members>

  ghost predicate GroupsMembers(groups: EventGroups, contexts: seq<MarketContext>) {
    && (forall e :: e in groups ==> groups[e] == MembersOf(contexts, e))
    && (forall e :: MembersOf(contexts, e) != [] ==> e in groups)
  }

  function PutInGroup(groups: EventGroups, event: string, ticker: string, mid: real): EventGroups {
    groups[event := Put(if event in groups then groups[event] else [], ticker, mid)]
  }

  lemma GroupsGrow(groups: EventGroups, contexts: seq<MarketContext>, k: nat)
    requires k < |contexts| && GroupsMembers(groups, contexts[..k])
    ensures var c := contexts[k];
      GroupsMembers(if ExclusiveMid(c).Some? then PutInGroup(groups, c.event, c.ticker, ExclusiveMid(c).value) else groups,
                    contexts[..k + 1])
  {
    assert contexts[..k + 1][..k] == contexts[..k];
  }

  method GroupExclusive(contexts: seq<MarketContext>) returns (groups: EventGroups)
    ensures GroupsMembers(groups, contexts)
  {
    groups := map[];
    for k := 0 to |contexts|
      invariant GroupsMembers(groups, contexts[..k])
    {
      GroupsGrow(groups, contexts, k);
      var c := contexts[k];
      if ExclusiveMid(c).Some? {
        groups := PutInGroup(groups, c.event, c.ticker, ExclusiveMid(c).value);
      }
    }
    assert contexts[..|contexts|] == contexts;
  }

  // ----- Normalizing them -------------------------------------------------------------------------

  ghost predicate SharesOn(out: map<string, real>, members: Members) {
    Total(members) > 0.0 ==>
      forall i :: 0 <= i < |members| ==>
        members[i].0 in out && out[members[i].0] == Clamp(Share(members[i].1, Total(members)))
  }

  /** The event's predictions are the clamped shares of its members. */
  ghost predicate ExclusiveFitted(out: map<string, real>, contexts: seq<MarketContext>, event: string, minGroupSize: int) {
    |MembersOf(contexts, event)| >= minGroupSize ==> SharesOn(out, MembersOf(contexts, event))
  }

  /** `dict.update` with the normalized members. */
  method WriteShares(before: map<string, real>, members: Members) returns (out: map<string, real>)
    ensures UniqueKeys(members) ==> SharesOn(out, members)
    ensures forall t :: !HasMember(members, t) ==> SameAt(before, out, t)
    ensures Total(members) <= 0.0 ==> out == before
  {
    var shares := NormalizeExclusive(members);
    out := before;
    for k := 0 to |shares|
      invariant UniqueKeys(members) ==> forall i :: 0 <= i < k ==> members[i].0 in out && out[members[i].0] == shares[i].1
      invariant forall t :: !HasMember(members, t) ==> SameAt(before, out, t)
      invariant k == 0 ==> out == before
    {
      assert HasMember(members, members[k].0);
      out := out[shares[k].0 := shares[k].1];
    }
  }

  lemma SharesOnlyReadTheirTickers(before: map<string, real>, after: map<string, real>, members: Members)
    requires SharesOn(before, members) && forall i :: 0 <= i < |members| ==> SameAt(before, after, members[i].0)
    ensures SharesOn(after, members)
  {
    if Total(members) > 0.0 {
      forall i | 0 <= i < |members|
        ensures members[i].0 in after && after[members[i].0] == Clamp(Share(members[i].1, Total(members)))
      {
        assert SameAt(before, after, members[i].0);
      }
    }
  }

  /** Writing one event leaves the others as they were. */
  lemma OtherEventsUntouched(before: map<string, real>, after: map<string, real>, contexts: seq<MarketContext>,
                             event: string, other: string, minGroupSize: int)
    requires DistinctMarkets(contexts) && event != other && ExclusiveFitted(before, contexts, other, minGroupSize)
    requires forall t :: !HasMember(MembersOf(contexts, event), t) ==> SameAt(before, after, t)
    ensures ExclusiveFitted(after, contexts, other, minGroupSize)
  {
    var members := MembersOf(contexts, other);
    if |members| >= minGroupSize {
      forall i | 0 <= i < |members|
        ensures SameAt(before, after, members[i].0)
      {
        assert HasMember(members, members[i].0);
        if HasMember(MembersOf(contexts, event), members[i].0) {
          MemberOfOneEvent(contexts, event, other, members[i].0);
        }
      }
      SharesOnlyReadTheirTickers(before, after, members);
    }
  }

  /** The ticker belongs to an exclusive event that is large enough and has mids to share. */
  ghost predicate InLargeEvent(contexts: seq<MarketContext>, ticker: string, minGroupSize: int) {
    exists e :: Normalizes(contexts, e, minGroupSize) && HasMember(MembersOf(contexts, e), ticker)
  }

  ghost predicate Normalizes(contexts: seq<MarketContext>, event: string, minGroupSize: int) {
    |MembersOf(contexts, event)| >= minGroupSize && Total(MembersOf(contexts, event)) > 0.0
  }

  lemma WritesOnlyMembers(before: map<string, real>, after: map<string, real>, contexts: seq<MarketContext>, event: string,
                          minGroupSize: int)
    requires |MembersOf(contexts, event)| >= minGroupSize
    requires forall t :: t in before ==> InLargeEvent(contexts, t, minGroupSize)
    requires forall t :: !HasMember(MembersOf(contexts, event), t) ==> SameAt(before, after, t)
    requires Total(MembersOf(contexts, event)) <= 0.0 ==> after == before
    ensures forall t :: t in after ==> InLargeEvent(contexts, t, minGroupSize)
  {
    forall t | t in after
      ensures InLargeEvent(contexts, t, minGroupSize)
    {
      if !HasMember(MembersOf(contexts, event), t) {
        assert SameAt(before, after, t);
      } else if Total(MembersOf(contexts, event)) > 0.0 {
        assert Normalizes(contexts, event, minGroupSize);
      }
    }
  }

  /** StructuralModel._exclusive_events: only members of large enough events get a prediction. */
  method ExclusiveEvents(contexts: seq<MarketContext>, minGroupSize: int) returns (out: map<string, real>)
    ensures DistinctMarkets(contexts) ==> forall e :: ExclusiveFitted(out, contexts, e, minGroupSize)
    ensures forall t :: t in out ==> InLargeEvent(contexts, t, minGroupSize)
  {
    var groups := GroupExclusive(contexts);
    out := map[];
    var pending := groups.Keys;
    while pending != {}
      invariant pending <= groups.Keys
      invariant DistinctMarkets(contexts) ==> forall e :: e !in pending ==> ExclusiveFitted(out, contexts, e, minGroupSize)
      invariant forall t :: t in out ==> InLargeEvent(contexts, t, minGroupSize)
      decreases pending
    {
      var event :| event in pending;
      pending := pending - {event};
      if |groups[event]| >= minGroupSize {
        ghost var previous := out;
        out := WriteShares(out, groups[event]);
        EventWritten(previous, out, contexts, event, minGroupSize);
        WritesOnlyMembers(previous, out, contexts, event, minGroupSize);
      }
    }
  }

  lemma EventWritten(before: map<string, real>, after: map<string, real>, contexts: seq<MarketContext>, event: string,
                     minGroupSize: int)
    requires UniqueKeys(MembersOf(contexts, event)) ==> SharesOn(after, MembersOf(contexts, event))
    requires forall t :: !HasMember(MembersOf(contexts, event), t) ==> SameAt(before, after, t)
    ensures ExclusiveFitted(after, contexts, event, minGroupSize)
    ensures DistinctMarkets(contexts) ==>
      forall e :: e != event && ExclusiveFitted(before, contexts, e, minGroupSize) ==> ExclusiveFitted(after, contexts, e, minGroupSize)
  {
    MembersAreContexts(contexts, event);
    if DistinctMarkets(contexts) {
      forall e | e != event && ExclusiveFitted(before, contexts, e, minGroupSize)
        ensures ExclusiveFitted(after, contexts, e, minGroupSize)
      {
        OtherEventsUntouched(before, after, contexts, event, e, minGroupSize);
      }
    }
  }
}
