/** Finite runs of a transition relation. */
module Runs {

  /** `after` is `n` changes away from `before`. */
  ghost predicate Star<S(!new)>(change: (S, S) -> bool, before: S, after: S, n: nat)
    decreases n
  {
    if n == 0 then after == before
    else exists mid :: Star(change, before, mid, n - 1) && change(mid, after)
  }

  lemma {:induction false} StarTransitive<S(!new)>(change: (S, S) -> bool, before: S, mid: S, after: S, m: nat, n: nat)
    requires Star(change, before, mid, m) && Star(change, mid, after, n)
    ensures Star(change, before, after, m + n)
    decreases n
  {
    if n > 0 {
      var last :| Star(change, mid, last, n - 1) && change(last, after);
      StarTransitive(change, before, mid, last, m, n - 1);
      assert Star(change, before, last, m + n - 1);
    }
  }

  lemma StarExtends<S(!new)>(change: (S, S) -> bool, before: S, mid: S, after: S, n: nat)
    requires Star(change, before, mid, n) && change(mid, after)
    ensures Star(change, before, after, n + 1)
  {
  }

  /** What every change keeps, every run keeps. */
  lemma {:induction false} StarKeeps<S(!new)>(change: (S, S) -> bool, kept: S -> bool, before: S, after: S, n: nat)
    requires forall s, t :: kept(s) && change(s, t) ==> kept(t)
    requires kept(before) && Star(change, before, after, n)
    ensures kept(after)
    decreases n
  {
    if n > 0 {
      var mid :| Star(change, before, mid, n - 1) && change(mid, after);
      StarKeeps(change, kept, before, mid, n - 1);
    }
  }

  /** A system driven by events: the state after all of them. */
  ghost function Drive<S, E>(step: (S, E) -> S, start: S, events: seq<E>): S {
    if events == [] then start else step(Drive(step, start, events[..|events| - 1]), events[|events| - 1])
  }

  ghost predicate Reach<S(!new)>(change: (S, S) -> bool, before: S, after: S) {
    exists n: nat :: Star(change, before, after, n)
  }

  lemma ReachTransitive<S(!new)>(change: (S, S) -> bool, before: S, mid: S, after: S)
    requires Reach(change, before, mid) && Reach(change, mid, after)
    ensures Reach(change, before, after)
  {
    var m: nat :| Star(change, before, mid, m);
    var n: nat :| Star(change, mid, after, n);
    StarTransitive(change, before, mid, after, m, n);
  }

  /** If every event takes good states to good states along changes, so does every run of events, from any
      point of it to its end. */
  lemma {:induction false} DriveReaches<S(!new), E(!new)>(step: (S, E) -> S, change: (S, S) -> bool, good: S -> bool, fair: E -> bool,
                                                    start: S, events: seq<E>, from: nat)
    requires forall s, e :: good(s) && fair(e) ==> good(step(s, e)) && Reach(change, s, step(s, e))
    requires good(start) && (forall i :: 0 <= i < |events| ==> fair(events[i])) && from <= |events|
    ensures good(Drive(step, start, events))
    ensures Reach(change, Drive(step, start, events[..from]), Drive(step, start, events))
    decreases |events|
  {
    if from == |events| {
      assert events[..from] == events;
      assert Star(change, Drive(step, start, events), Drive(step, start, events), 0);
    }
    if events != [] {
      var n := |events| - 1;
      DriveReaches(step, change, good, fair, start, events[..n], if from <= n then from else n);
      if from <= n {
        assert events[..n][..from] == events[..from];
        ReachTransitive(change, Drive(step, start, events[..from]), Drive(step, start, events[..n]), Drive(step, start, events));
      }
    }
  }
}
