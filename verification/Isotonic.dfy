/** Fitting a non-increasing sequence by pooling violating neighbours, and why the fit is least squares. */
module Isotonic {
  import opened RealArithmetic

  type Size = n: nat | n > 0 witness 1

  /** A pooled run of values: its mean and its length. */
  datatype Block = Block(mean: real, size: Size)

  // ----- Specification ------------------------------------------------------

  ghost predicate NonIncreasing(s: seq<real>) {
    forall i, j :: 0 <= i < j < |s| ==> s[i] >= s[j]
  }

  /** Sum of the first `k` elements. */
  ghost function Prefix(s: seq<real>, k: nat): real
    requires k <= |s|
  {
    if k == 0 then 0.0 else Prefix(s, k - 1) + s[k - 1]
  }

  /** Sum of squared differences over the first `k` positions. */
  ghost function SquaredDistance(s: seq<real>, t: seq<real>, k: nat): (d: real)
    requires k <= |s| == |t|
    ensures d >= 0.0
  {
    if k == 0 then 0.0
    else SquareNonNegative(s[k - 1] - t[k - 1]); SquaredDistance(s, t, k - 1) + Square(s[k - 1] - t[k - 1])
  }

  ghost function SquaredError(values: seq<real>, fit: seq<real>): (d: real)
    requires |values| == |fit|
  {
    SquaredDistance(values, fit, |values|)
  }

  /** `fit` is the one non-increasing sequence closest to `values` in the least-squares sense. */
  ghost predicate IsUniqueLeastSquaresFit(values: seq<real>, fit: seq<real>) {
    && |fit| == |values|
    && NonIncreasing(fit)
    && forall other: seq<real> {:trigger SquaredError(values, other)} ::
        |other| == |values| && NonIncreasing(other) && other != fit
        ==> SquaredError(values, fit) < SquaredError(values, other)
  }

  /** How far the running total of `fit` is ahead of that of `values` after `k` elements. */
  ghost function Lead(values: seq<real>, fit: seq<real>, k: nat): real
    requires k <= |values| && k <= |fit|
  {
    Prefix(fit, k) - Prefix(values, k)
  }

  /** The optimality certificate: the fit's running total is never behind, level at the end,
      and the fit is flat wherever it is strictly ahead. */
  ghost predicate Certifies(values: seq<real>, fit: seq<real>) {
    && |fit| == |values|
    && NonIncreasing(fit)
    && Lead(values, fit, |values|) == 0.0
    && (forall k {:trigger Lead(values, fit, k)} :: 0 <= k <= |values| ==> Lead(values, fit, k) >= 0.0)
    && (forall k {:trigger Lead(values, fit, k)} ::
          0 < k < |values| && Lead(values, fit, k) > 0.0 ==> fit[k - 1] == fit[k])
  }

  // ----- A certificate is optimal -------------------------------------------

  /** Sum of (values - fit) * h over the first `k` positions. */
  ghost function Correlation(values: seq<real>, fit: seq<real>, h: seq<real>, k: nat): real
    requires k <= |values| == |fit| == |h|
  {
    if k == 0 then 0.0
    else Correlation(values, fit, h, k - 1) + (values[k - 1] - fit[k - 1]) * h[k - 1]
  }

  /** One step of the summation, from `before` to `after` in the fit's lead. */
  lemma AbelStep(sum: real, before: real, after: real, residual: real, previous: real, next: real)
    requires after == before - residual && before >= 0.0 && previous >= next
    requires sum <= -(before * previous)
    ensures sum + residual * next <= -(after * next)
  {
    assert before * (previous - next) >= 0.0;
  }

  lemma AbelExactStep(sum: real, before: real, after: real, residual: real, previous: real, next: real)
    requires after == before - residual && (previous != next ==> before == 0.0)
    requires sum == -(before * previous)
    ensures sum + residual * next == -(after * next)
  {
  }

  /** Abel summation against a non-increasing sequence. */
  lemma {:induction false} AbelBound(values: seq<real>, fit: seq<real>, h: seq<real>, k: nat)
    requires Certifies(values, fit) && NonIncreasing(h) && |h| == |values|
    requires 0 < k <= |values|
    ensures Correlation(values, fit, h, k) <= -(Lead(values, fit, k) * h[k - 1])
  {
    var previous := if k == 1 then h[0] else h[k - 2];
    if k > 1 {
      AbelBound(values, fit, h, k - 1);
    }
    AbelStep(Correlation(values, fit, h, k - 1), Lead(values, fit, k - 1), Lead(values, fit, k),
             values[k - 1] - fit[k - 1], previous, h[k - 1]);
  }

  lemma FlatWhileAhead(values: seq<real>, fit: seq<real>, k: nat)
    requires Certifies(values, fit) && 0 < k < |values| && fit[k - 1] != fit[k]
    ensures Lead(values, fit, k) == 0.0
  {
  }

  /** Against the fit itself the bound is attained: the lead closes wherever the fit drops. */
  lemma {:induction false} AbelExact(values: seq<real>, fit: seq<real>, k: nat)
    requires Certifies(values, fit) && 0 < k <= |values|
    ensures Correlation(values, fit, fit, k) == -(Lead(values, fit, k) * fit[k - 1])
  {
    var previous := if k == 1 then fit[0] else fit[k - 2];
    if k > 1 {
      AbelExact(values, fit, k - 1);
      if fit[k - 2] != fit[k - 1] {
        FlatWhileAhead(values, fit, k - 1);
      }
    }
    AbelExactStep(Correlation(values, fit, fit, k - 1), Lead(values, fit, k - 1), Lead(values, fit, k),
                  values[k - 1] - fit[k - 1], previous, fit[k - 1]);
  }

  /** |v - g|^2 = |v - f|^2 + |f - g|^2 + 2 (v - f).f - 2 (v - f).g, position by position. */
  lemma {:induction false} Expansion(v: seq<real>, f: seq<real>, g: seq<real>, k: nat)
    requires k <= |v| == |f| == |g|
    ensures SquaredDistance(v, g, k)
         == SquaredDistance(v, f, k) + SquaredDistance(f, g, k)
            + 2.0 * Correlation(v, f, f, k) - 2.0 * Correlation(v, f, g, k)
  {
    if k > 0 {
      Expansion(v, f, g, k - 1);
      SquareExpansion(v[k - 1], f[k - 1], g[k - 1]);
    }
  }

  lemma SquareExpansion(x: real, y: real, z: real)
    ensures Square(x - z) == Square(x - y) + Square(y - z) + 2.0 * ((x - y) * y) - 2.0 * ((x - y) * z)
  {
  }

  lemma {:induction false} DistanceSeparates(s: seq<real>, t: seq<real>, k: nat, i: nat)
    requires i < k <= |s| == |t| && s[i] != t[i]
    ensures SquaredDistance(s, t, k) > 0.0
  {
    if i == k - 1 {
      SquarePositive(s[i] - t[i]);
    } else {
      SquareNonNegative(s[k - 1] - t[k - 1]);
      DistanceSeparates(s, t, k - 1, i);
    }
  }

  /** Every other monotone sequence pays at least its own squared distance from the fit. */
  lemma CertificateIsOptimal(values: seq<real>, fit: seq<real>, other: seq<real>)
    requires Certifies(values, fit) && NonIncreasing(other) && |other| == |values|
    ensures SquaredError(values, other)
         >= SquaredError(values, fit) + SquaredDistance(fit, other, |values|)
    ensures other != fit ==> SquaredError(values, fit) < SquaredError(values, other)
  {
    var n := |values|;
    if n > 0 {
      AbelBound(values, fit, other, n);
      AbelExact(values, fit, n);
      Expansion(values, fit, other, n);
      if other != fit {
        var i :| 0 <= i < n && fit[i] != other[i];
        DistanceSeparates(fit, other, n, i);
      }
    }
  }

  lemma CertificateIsLeastSquares(values: seq<real>, fit: seq<real>)
    requires Certifies(values, fit)
    ensures IsUniqueLeastSquaresFit(values, fit)
  {
    forall other: seq<real> | |other| == |values| && NonIncreasing(other) && other != fit
      ensures SquaredError(values, fit) < SquaredError(values, other)
    {
      CertificateIsOptimal(values, fit, other);
    }
  }

  /** Only one sequence can carry the certificate, so the fit is a function of the values. */
  lemma CertificateIsUnique(values: seq<real>, f: seq<real>, g: seq<real>)
    requires Certifies(values, f) && Certifies(values, g)
    ensures f == g
  {
    CertificateIsOptimal(values, f, g);
    CertificateIsOptimal(values, g, f);
  }

  /** A ladder that is already monotone is returned unchanged. */
  lemma MonotoneIsFixed(values: seq<real>, fit: seq<real>)
    requires NonIncreasing(values) && Certifies(values, fit)
    ensures fit == values
  {
    CertificateIsUnique(values, fit, values);
  }

  // ----- Blocks carry the certificate ---------------------------------------

  function Last(blocks: seq<Block>): Block
    requires blocks != []
  {
    blocks[|blocks| - 1]
  }

  function Init(blocks: seq<Block>): seq<Block>
    requires blocks != []
  {
    blocks[..|blocks| - 1]
  }

  function Expand(blocks: seq<Block>): seq<real> {
    if blocks == [] then [] else Expand(Init(blocks)) + seq(Last(blocks).size, _ => Last(blocks).mean)
  }

  /** The block is the mean of values[lo..lo + size], and no prefix of that run has a larger mean. */
  ghost predicate Pooled(values: seq<real>, lo: nat, b: Block) {
    && lo + b.size <= |values|
    && Prefix(values, lo + b.size) - Prefix(values, lo) == Times(b.mean, b.size)
    && forall m :: lo <= m <= lo + b.size ==> Prefix(values, m) - Prefix(values, lo) <= Times(b.mean, m - lo)
  }

  /** The blocks partition values[..n] into pooled runs. */
  ghost predicate Partition(values: seq<real>, n: nat, blocks: seq<Block>)
    decreases |blocks|
  {
    if blocks == [] then n == 0
    else
      && Last(blocks).size <= n
      && Pooled(values, n - Last(blocks).size, Last(blocks))
      && Partition(values, n - Last(blocks).size, Init(blocks))
  }

  ghost predicate Descending(blocks: seq<Block>) {
    forall i, j :: 0 <= i < j < |blocks| ==> blocks[i].mean >= blocks[j].mean
  }

  function Merge(a: Block, b: Block): Block
  {
    Block((a.mean * a.size as real + b.mean * b.size as real) / (a.size + b.size) as real, a.size + b.size)
  }

  lemma WeightedMean(x: real, s: real, y: real, t: real, m: real)
    requires s > 0.0 && t > 0.0 && x < y && m == (x * s + y * t) / (s + t)
    ensures m * (s + t) == x * s + y * t
    ensures x < m < y
  {
    assert m * (s + t) == x * s + y * t;
    PositiveFactor(m - x, s + t, (y - x) * t);
    PositiveFactor(y - m, s + t, (y - x) * s);
  }

  /** `c` pools the two blocks of a violating pair. */
  ghost predicate PoolsPair(a: Block, b: Block, c: Block) {
    && c.size == a.size + b.size
    && Times(c.mean, c.size) == Times(a.mean, a.size) + Times(b.mean, b.size)
    && a.mean < c.mean < b.mean
  }

  lemma MergePoolsPair(a: Block, b: Block)
    requires a.mean < b.mean
    ensures PoolsPair(a, b, Merge(a, b))
  {
    var c, s, t := Merge(a, b), a.size as real, b.size as real;
    WeightedMean(a.mean, s, b.mean, t, c.mean);
    assert Times(c.mean, c.size) == c.mean * (s + t) by {
      TimesIsProduct(c.mean, c.size);
      assert c.size as real == s + t;
    }
    TimesIsProduct(a.mean, a.size);
    TimesIsProduct(b.mean, b.size);
  }

  lemma {:induction false} TimesMonotone(x: real, y: real, n: nat)
    requires x <= y
    ensures Times(x, n) <= Times(y, n)
  {
    if n > 0 {
      TimesMonotone(x, y, n - 1);
    }
  }

  lemma {:induction false} TimesAdds(x: real, m: nat, n: nat)
    ensures Times(x, m + n) == Times(x, m) + Times(x, n)
  {
    if n > 0 {
      TimesAdds(x, m, n - 1);
    }
  }

  /** A prefix of the merged run that ends in the left block stays below the larger merged mean;
      one that ends in the right block misses only values worth more than the merged mean. */
  lemma MergedPrefix(values: seq<real>, lo: nat, a: Block, b: Block, c: Block, m: nat)
    requires Pooled(values, lo, a) && Pooled(values, lo + a.size, b) && PoolsPair(a, b, c)
    requires lo <= m <= lo + c.size
    ensures Prefix(values, m) - Prefix(values, lo) <= Times(c.mean, m - lo)
  {
    var mid := lo + a.size;
    if m <= mid {
      TimesMonotone(a.mean, c.mean, m - lo);
    } else {
      var missing := mid + b.size - m;
      TimesMonotone(c.mean, b.mean, missing);
      TimesAdds(b.mean, m - mid, missing);
      TimesAdds(c.mean, m - lo, missing);
    }
  }

  /** Merging a violating pair keeps "no prefix mean exceeds the block mean". */
  lemma MergeIsPooled(values: seq<real>, lo: nat, a: Block, b: Block, c: Block)
    requires Pooled(values, lo, a) && Pooled(values, lo + a.size, b) && PoolsPair(a, b, c)
    ensures Pooled(values, lo, c)
  {
    forall m | lo <= m <= lo + c.size
      ensures Prefix(values, m) - Prefix(values, lo) <= Times(c.mean, m - lo)
    {
      MergedPrefix(values, lo, a, b, c, m);
    }
  }

  lemma {:induction false} PrefixOfConcat(s: seq<real>, x: real, n: nat, m: nat)
    requires m <= |s| + n
    ensures m <= |s| ==> Prefix(s + seq(n, _ => x), m) == Prefix(s, m)
    ensures m >= |s| ==> Prefix(s + seq(n, _ => x), m) == Prefix(s, |s|) + Times(x, m - |s|)
  {
    if m > 0 {
      PrefixOfConcat(s, x, n, m - 1);
    }
  }

  /** Appending a pooled block to a certified fit extends the certificate over its values. */
  lemma ExtendCertificate(values: seq<real>, lo: nat, b: Block, front: seq<real>)
    requires Pooled(values, lo, b) && Certifies(values[..lo], front)
    requires forall i :: 0 <= i < lo ==> front[i] >= b.mean
    ensures Certifies(values[..lo + b.size], front + seq(b.size, _ => b.mean))
  {
    var run, all := values[..lo + b.size], front + seq(b.size, _ => b.mean);
    forall k | 0 <= k <= |run|
      ensures k <= lo ==> Lead(run, all, k) == Lead(values[..lo], front, k)
      ensures k >= lo ==> Lead(run, all, k) >= 0.0
      ensures k == |run| ==> Lead(run, all, k) == 0.0
    {
      PrefixOfConcat(front, b.mean, b.size, k);
      PrefixOfTake(values, |run|, k);
      if k <= lo {
        PrefixOfTake(values, lo, k);
      }
      if k >= lo {
        PrefixOfTake(values, lo, lo);
        assert Lead(values[..lo], front, lo) == 0.0;
      }
    }
    assert NonIncreasing(all);
  }

  lemma {:induction false} PrefixOfTake(s: seq<real>, n: nat, k: nat)
    requires k <= n <= |s|
    ensures Prefix(s[..n], k) == Prefix(s, k)
  {
    if k > 0 {
      PrefixOfTake(s, n, k - 1);
    }
  }

  /** Descending pooled blocks expand to a certified fit of the values they cover. */
  lemma {:induction false} BlocksCertify(values: seq<real>, n: nat, blocks: seq<Block>)
    requires n <= |values| && Partition(values, n, blocks) && Descending(blocks)
    ensures Certifies(values[..n], Expand(blocks))
    ensures forall i :: 0 <= i < n ==> Expand(blocks)[i] >= Last(blocks).mean
    decreases |blocks|
  {
    if blocks != [] {
      var b, rest := Last(blocks), Init(blocks);
      BlocksCertify(values, n - b.size, rest);
      assert rest != [] ==> Last(rest).mean >= b.mean;
      assert Expand(blocks) == Expand(rest) + seq(b.size, _ => b.mean);
      ExtendCertificate(values, n - b.size, b, Expand(rest));
    }
  }

  // ----- The algorithm -------------------------------------------------------

  /** Pushes one value as its own block and merges while the top pair violates. */
  method Push(values: seq<real>, i: nat, blocks: seq<Block>) returns (out: seq<Block>, ghost merges: nat)
    requires i < |values| && Partition(values, i, blocks) && Descending(blocks)
    ensures Partition(values, i + 1, out) && Descending(out) && out != []
    ensures merges + |out| == |blocks| + 1
  {
    out := blocks + [Block(values[i], 1)];
    merges := 0;
    PushSingleton(values, i, blocks);
    while |out| >= 2 && out[|out| - 2].mean < out[|out| - 1].mean
      invariant out != []
      invariant Partition(values, i + 1, out) && Descending(Init(out))
      invariant merges + |out| == |blocks| + 1
      decreases |out|
    {
      var a, b := out[|out| - 2], out[|out| - 1];
      MergeTop(values, i + 1, out);
      out := out[..|out| - 2] + [Merge(a, b)];
      merges := merges + 1;
    }
    DescendingToTheTop(out);
  }

  lemma PushSingleton(values: seq<real>, i: nat, blocks: seq<Block>)
    requires i < |values| && Partition(values, i, blocks)
    ensures Partition(values, i + 1, blocks + [Block(values[i], 1)])
    ensures Init(blocks + [Block(values[i], 1)]) == blocks
  {
    SingletonIsPooled(values, i);
    assert Init(blocks + [Block(values[i], 1)]) == blocks;
  }

  lemma DescendingToTheTop(blocks: seq<Block>)
    requires blocks != [] && Descending(Init(blocks))
    requires |blocks| >= 2 ==> blocks[|blocks| - 2].mean >= blocks[|blocks| - 1].mean
    ensures Descending(blocks)
  {
    assert forall j :: 0 <= j < |blocks| - 1 ==> blocks[j] == Init(blocks)[j];
  }

  lemma SingletonIsPooled(values: seq<real>, i: nat)
    requires i < |values|
    ensures Pooled(values, i, Block(values[i], 1))
  {
    assert Prefix(values, i + 1) == Prefix(values, i) + values[i];
    assert Times(values[i], 1) == Times(values[i], 0) + values[i];
  }

  lemma MergeTop(values: seq<real>, n: nat, blocks: seq<Block>)
    requires |blocks| >= 2 && Partition(values, n, blocks) && Descending(Init(blocks))
    requires blocks[|blocks| - 2].mean < blocks[|blocks| - 1].mean
    ensures var out := blocks[..|blocks| - 2] + [Merge(blocks[|blocks| - 2], blocks[|blocks| - 1])];
      Partition(values, n, out) && Descending(Init(out))
  {
    var a, b := blocks[|blocks| - 2], blocks[|blocks| - 1];
    var rest := blocks[..|blocks| - 2];
    assert Last(blocks) == b && Last(Init(blocks)) == a && Init(Init(blocks)) == rest;
    assert Partition(values, n - b.size, Init(blocks));
    MergePoolsPair(a, b);
    MergeIsPooled(values, n - b.size - a.size, a, b, Merge(a, b));
    var out := rest + [Merge(a, b)];
    assert Init(out) == rest && Last(out) == Merge(a, b);
  }

  /** isotonic_decreasing. `merges` counts the iterations of the inner loop over the whole run. */
  method IsotonicDecreasing(values: seq<real>) returns (fitted: seq<real>, ghost merges: nat)
    ensures IsUniqueLeastSquaresFit(values, fitted)
    ensures Certifies(values, fitted)
    ensures values != [] ==> merges < |values|
  {
    var blocks: seq<Block> := [];
    merges := 0;
    for i := 0 to |values|
      invariant Partition(values, i, blocks) && Descending(blocks)
      invariant merges + |blocks| == i
      invariant i > 0 ==> blocks != []
    {
      ghost var merged;
      blocks, merged := Push(values, i, blocks);
      merges := merges + merged;
    }
    fitted := [];
    for k := 0 to |blocks|
      invariant fitted == Expand(blocks[..k])
    {
      assert Init(blocks[..k + 1]) == blocks[..k];
      fitted := fitted + seq(blocks[k].size, _ => blocks[k].mean);
    }
    assert blocks[..|blocks|] == blocks && values[..|values|] == values;
    BlocksCertify(values, |values|, blocks);
    CertificateIsLeastSquares(values, fitted);
  }
}
