/** Scoring a probability model: Brier score, reliability bins, expected calibration error. */
module Calibration {
  import opened Wrappers
  import opened Rounding
  import opened RealArithmetic

  datatype ScoredRow = ScoredRow(predicted: real, outcome: int)

  datatype CalibrationBin = CalibrationBin(lower: real, upper: real, count: nat, meanPredicted: real, observedRate: real)

  function Abs(x: real): real {
    if x < 0.0 then -x else x
  }

  function Sum(rows: seq<ScoredRow>, f: ScoredRow -> real): real {
    if rows == [] then 0.0 else Sum(rows[..|rows| - 1], f) + f(rows[|rows| - 1])
  }

  const PREDICTED := (row: ScoredRow) => row.predicted
  const OBSERVED := (row: ScoredRow) => row.outcome as real
  const RESIDUAL := (row: ScoredRow) => row.predicted - row.outcome as real
  const ABSOLUTE_ERROR := (row: ScoredRow) => Abs(row.predicted - row.outcome as real)
  const SQUARED_ERROR := (row: ScoredRow) => Square(row.predicted - row.outcome as real)

  function Mean(rows: seq<ScoredRow>, f: ScoredRow -> real): (mean: real)
    requires rows != []
    ensures Times(mean, |rows|) == Sum(rows, f)
  {
    Quotient(Sum(rows, f), |rows| as real, Sum(rows, f) / |rows| as real);
    TimesIsProduct(Sum(rows, f) / |rows| as real, |rows|);
    Sum(rows, f) / |rows| as real
  }

  function Brier(rows: seq<ScoredRow>): Option<real> {
    if rows == [] then None else Some(Mean(rows, SQUARED_ERROR))
  }

  // ----- Bins -----------------------------------------------------------------------------

  /** The list position at `index`; a negative index counts from the end, and None is an index error. */
  function ListPosition(index: int, length: nat): (slot: Option<nat>)
    requires index < length || length == 0
    ensures slot.Some? ==> slot.value < length
  {
    if 0 <= index < length then Some(index)
    else if index < 0 && index + length >= 0 && length > 0 then Some(index + length)
    else None
  }

  /** The bucket `calibration_bins` appends to. */
  function Place(predicted: real, bins: nat): (slot: Option<nat>)
    ensures slot.Some? ==> slot.value < bins
  {
    var scaled := Truncate(predicted * bins as real);
    ListPosition(if bins - 1 < scaled then bins - 1 else scaled, bins)
  }

  function Placing(bins: nat): ScoredRow -> Option<nat> {
    (row: ScoredRow) => Place(row.predicted, bins)
  }

  ghost predicate AllPlaced(rows: seq<ScoredRow>, bins: nat) {
    forall k :: 0 <= k < |rows| ==> Place(rows[k].predicted, bins).Some?
  }

  /** The rows that `place` sends to bucket `i`, in their order. */
  function Bucket(rows: seq<ScoredRow>, place: ScoredRow -> Option<nat>, i: nat): seq<ScoredRow> {
    if rows == [] then []
    else
      var last := rows[|rows| - 1];
      Bucket(rows[..|rows| - 1], place, i) + if place(last) == Some(i) then [last] else []
  }

  lemma {:induction false} BucketMember(rows: seq<ScoredRow>, place: ScoredRow -> Option<nat>, i: nat, row: ScoredRow)
    ensures row in Bucket(rows, place, i) <==> row in rows && place(row) == Some(i)
  {
    if rows != [] {
      var front, last := rows[..|rows| - 1], rows[|rows| - 1];
      BucketMember(front, place, i, row);
      assert rows == front + [last];
    }
  }

  lemma BucketSnoc(rows: seq<ScoredRow>, row: ScoredRow, place: ScoredRow -> Option<nat>, i: nat)
    ensures Bucket(rows + [row], place, i) == if place(row) == Some(i) then Bucket(rows, place, i) + [row] else Bucket(rows, place, i)
  {
    assert (rows + [row])[..|rows|] == rows;
  }

  function BinOf(bucket: seq<ScoredRow>, i: nat, bins: nat): CalibrationBin
    requires bucket != [] && bins > 0
  {
    CalibrationBin(i as real / bins as real, (i + 1) as real / bins as real, |bucket|,
                   Mean(bucket, PREDICTED), Mean(bucket, OBSERVED))
  }

  /** The bins of the first `k` buckets; an empty bucket has none. */
  function Bins(rows: seq<ScoredRow>, bins: nat, k: nat): seq<CalibrationBin>
    requires k <= bins
  {
    if k == 0 then []
    else
      var bucket := Bucket(rows, Placing(bins), k - 1);
      Bins(rows, bins, k - 1) + if bucket == [] then [] else [BinOf(bucket, k - 1, bins)]
  }

  ghost predicate Distributed(rows: seq<ScoredRow>, bins: nat, buckets: seq<seq<ScoredRow>>) {
    && AllPlaced(rows, bins)
    && |buckets| == bins
    && forall i :: 0 <= i < bins ==> buckets[i] == Bucket(rows, Placing(bins), i)
  }

  lemma DistributedSnoc(rows: seq<ScoredRow>, row: ScoredRow, bins: nat, buckets: seq<seq<ScoredRow>>, i: nat)
    requires Distributed(rows, bins, buckets) && Place(row.predicted, bins) == Some(i)
    ensures Distributed(rows + [row], bins, buckets[i := buckets[i] + [row]])
  {
    forall j | 0 <= j < bins
      ensures buckets[i := buckets[i] + [row]][j] == Bucket(rows + [row], Placing(bins), j)
    {
      BucketSnoc(rows, row, Placing(bins), j);
    }
  }

  /** `calibration_bins`: the two loops build exactly the bins of the buckets, or fail on a prediction
      that no list position fits. */
  method CalibrationBins(rows: seq<ScoredRow>, bins: nat) returns (out: Option<seq<CalibrationBin>>)
    ensures out.Some? <==> AllPlaced(rows, bins)
    ensures out.Some? ==> out.value == Bins(rows, bins, bins)
  {
    var buckets: seq<seq<ScoredRow>> := seq(bins, _ => []);
    for k := 0 to |rows|
      invariant Distributed(rows[..k], bins, buckets)
    {
      var slot := Place(rows[k].predicted, bins);
      if slot.None? {
        return None;
      }
      DistributedSnoc(rows[..k], rows[k], bins, buckets, slot.value);
      assert rows[..k] + [rows[k]] == rows[..k + 1];
      buckets := buckets[slot.value := buckets[slot.value] + [rows[k]]];
    }
    assert rows[..|rows|] == rows;
    var listed := ListBins(rows, bins, buckets);
    return Some(listed);
  }

  /** Its second loop. */
  method ListBins(ghost rows: seq<ScoredRow>, bins: nat, buckets: seq<seq<ScoredRow>>) returns (listed: seq<CalibrationBin>)
    requires Distributed(rows, bins, buckets)
    ensures listed == Bins(rows, bins, bins)
  {
    listed := [];
    for i := 0 to bins
      invariant listed == Bins(rows, bins, i)
    {
      if buckets[i] != [] {
        listed := listed + [BinOf(buckets[i], i, bins)];
      }
    }
  }

  // ----- Where a prediction goes ------------------------------------------------------------

  /** The index error happens exactly with no bins, or a whole bin's width below minus one. */
  lemma PlacementFailsExactly(predicted: real, bins: nat)
    ensures Place(predicted, bins).None? <==> bins == 0 || predicted * bins as real <= -(bins as real + 1.0)
  {
  }

  lemma ScaledRange(p: real, bins: nat)
    requires 0.0 <= p <= 1.0
    ensures 0.0 <= p * bins as real <= bins as real
  {
    ProductNonNegative(p, bins as real, p * bins as real);
    ProductNonNegative(1.0 - p, bins as real, (1.0 - p) * bins as real);
  }

  /** A probability lands in the bin whose interval holds it; only a prediction of one is at the top. */
  lemma PlaceHolds(predicted: real, bins: nat)
    requires 0.0 <= predicted <= 1.0 && bins > 0
    ensures Place(predicted, bins).Some?
    ensures var i := Place(predicted, bins).value;
      i as real / bins as real <= predicted <= (i + 1) as real / bins as real
      && (predicted == (i + 1) as real / bins as real ==> predicted == 1.0)
  {
    ScaledRange(predicted, bins);
    var i := Place(predicted, bins).value;
    EdgeBelow(predicted, i, bins);
    EdgeAbove(predicted, i + 1, bins);
    if i < bins - 1 {
      EdgeStrictlyAbove(predicted, i + 1, bins);
    } else {
      assert (i + 1) as real / bins as real == 1.0;
    }
  }

  lemma EdgeBelow(p: real, edge: nat, bins: nat)
    requires bins > 0 && edge as real <= p * bins as real
    ensures edge as real / bins as real <= p
  {
    var q := edge as real / bins as real;
    Quotient(edge as real, bins as real, q);
    if q > p {
      ProductPositive(q - p, bins as real, (q - p) * bins as real);
    }
  }

  lemma EdgeAbove(p: real, edge: nat, bins: nat)
    requires bins > 0 && p * bins as real <= edge as real
    ensures p <= edge as real / bins as real
  {
    var q := edge as real / bins as real;
    Quotient(edge as real, bins as real, q);
    if p > q {
      ProductPositive(p - q, bins as real, (p - q) * bins as real);
    }
  }

  lemma EdgeStrictlyAbove(p: real, edge: nat, bins: nat)
    requires bins > 0 && p * bins as real < edge as real
    ensures p < edge as real / bins as real
  {
    EdgeAbove(p, edge, bins);
    Quotient(edge as real, bins as real, edge as real / bins as real);
  }

  lemma {:induction false} SumBounds(rows: seq<ScoredRow>, f: ScoredRow -> real, low: real, high: real)
    requires forall r :: r in rows ==> low <= f(r) <= high
    ensures Times(low, |rows|) <= Sum(rows, f) <= Times(high, |rows|)
  {
    if rows != [] {
      var front := rows[..|rows| - 1];
      SumBounds(front, f, low, high);
      assert rows == front + [rows[|rows| - 1]];
    }
  }

  lemma MeanBounds(rows: seq<ScoredRow>, f: ScoredRow -> real, low: real, high: real)
    requires rows != [] && forall r :: r in rows ==> low <= f(r) <= high
    ensures low <= Mean(rows, f) <= high
  {
    SumBounds(rows, f, low, high);
    DivideOut(low, Mean(rows, f), |rows|);
    DivideOut(Mean(rows, f), high, |rows|);
  }

  ghost predicate Probabilities(rows: seq<ScoredRow>) {
    forall r :: r in rows ==> 0.0 <= r.predicted <= 1.0
  }

  /** A bin's mean prediction lies between its own edges. */
  lemma MeanInsideBin(rows: seq<ScoredRow>, bins: nat, i: nat)
    requires Probabilities(rows) && i < bins && Bucket(rows, Placing(bins), i) != []
    ensures var bin := BinOf(Bucket(rows, Placing(bins), i), i, bins); bin.lower <= bin.meanPredicted <= bin.upper
  {
    var bucket := Bucket(rows, Placing(bins), i);
    forall r | r in bucket
      ensures i as real / bins as real <= PREDICTED(r) <= (i + 1) as real / bins as real
    {
      BucketMember(rows, Placing(bins), i, r);
      PlaceHolds(r.predicted, bins);
    }
    MeanBounds(bucket, PREDICTED, i as real / bins as real, (i + 1) as real / bins as real);
  }

  // ----- The buckets partition the rows -------------------------------------------------------

  /** All copies of a row are in the one bucket it is placed in, and no other bucket has any. */
  lemma {:induction false} BucketsPartition(rows: seq<ScoredRow>, bins: nat, row: ScoredRow, i: nat)
    ensures multiset(Bucket(rows, Placing(bins), i))[row]
         == if Place(row.predicted, bins) == Some(i) then multiset(rows)[row] else 0
  {
    if rows != [] {
      var front, last := rows[..|rows| - 1], rows[|rows| - 1];
      BucketsPartition(front, bins, row, i);
      BucketSnoc(front, last, Placing(bins), i);
      assert rows == front + [last];
    }
  }

  /** g(0) + ... + g(k - 1). */
  ghost function Fold(g: nat -> real, k: nat): real {
    if k == 0 then 0.0 else Fold(g, k - 1) + g(k - 1)
  }

  lemma {:induction false} FoldDiffers(g: nat -> real, h: nat -> real, slot: nat, gain: real, k: nat)
    requires forall i: nat :: h(i) == g(i) + if slot == i then gain else 0.0
    ensures Fold(h, k) == Fold(g, k) + if slot < k then gain else 0.0
  {
    if k > 0 {
      FoldDiffers(g, h, slot, gain, k - 1);
    }
  }

  lemma {:induction false} FoldZero(g: nat -> real, k: nat)
    requires forall i: nat :: g(i) == 0.0
    ensures Fold(g, k) == 0.0
  {
    if k > 0 {
      FoldZero(g, k - 1);
    }
  }

  lemma {:induction false} FoldBetween(g: nat -> real, gap: nat -> real, h: nat -> real, k: nat)
    requires forall i: nat :: Abs(g(i)) <= gap(i) <= h(i)
    ensures Abs(Fold(g, k)) <= Fold(gap, k) <= Fold(h, k)
  {
    if k > 0 {
      FoldBetween(g, gap, h, k - 1);
    }
  }

  /** What bucket `i` contributes to a sum over rows. */
  ghost function InBucket(rows: seq<ScoredRow>, place: ScoredRow -> Option<nat>, f: ScoredRow -> real): nat -> real {
    (i: nat) => Sum(Bucket(rows, place, i), f)
  }

  lemma SumSnoc(rows: seq<ScoredRow>, row: ScoredRow, f: ScoredRow -> real)
    ensures Sum(rows + [row], f) == Sum(rows, f) + f(row)
  {
    assert (rows + [row])[..|rows|] == rows;
  }

  lemma BucketGains(rows: seq<ScoredRow>, row: ScoredRow, place: ScoredRow -> Option<nat>, slot: nat,
                    f: ScoredRow -> real, i: nat)
    requires place(row) == Some(slot)
    ensures Sum(Bucket(rows + [row], place, i), f) == Sum(Bucket(rows, place, i), f) + if slot == i then f(row) else 0.0
  {
    BucketSnoc(rows, row, place, i);
    SumSnoc(Bucket(rows, place, i), row, f);
  }

  lemma BucketsGain(rows: seq<ScoredRow>, row: ScoredRow, place: ScoredRow -> Option<nat>, slot: nat,
                    f: ScoredRow -> real, k: nat)
    requires place(row) == Some(slot)
    ensures Fold(InBucket(rows + [row], place, f), k) == Fold(InBucket(rows, place, f), k) + if slot < k then f(row) else 0.0
  {
    var g, h := InBucket(rows, place, f), InBucket(rows + [row], place, f);
    forall i: nat
      ensures h(i) == g(i) + if slot == i then f(row) else 0.0
    {
      BucketGains(rows, row, place, slot, f, i);
    }
    FoldDiffers(g, h, slot, f(row), k);
  }

  /** Summing bucket by bucket is summing over the rows. */
  lemma {:induction false} BucketSumIsSum(rows: seq<ScoredRow>, bins: nat, f: ScoredRow -> real)
    requires AllPlaced(rows, bins)
    ensures Fold(InBucket(rows, Placing(bins), f), bins) == Sum(rows, f)
  {
    if rows == [] {
      FoldZero(InBucket([], Placing(bins), f), bins);
    } else {
      var front, row := rows[..|rows| - 1], rows[|rows| - 1];
      assert rows == front + [row];
      BucketSumIsSum(front, bins, f);
      BucketsGain(front, row, Placing(bins), Place(row.predicted, bins).value, f, bins);
    }
  }

  // ----- Expected calibration error ---------------------------------------------------------------

  function BinError(bin: CalibrationBin, total: nat): real
    requires total > 0
  {
    bin.count as real / total as real * Abs(bin.meanPredicted - bin.observedRate)
  }

  function WeightedError(bins: seq<CalibrationBin>, total: nat): real
    requires total > 0
  {
    if bins == [] then 0.0
    else WeightedError(bins[..|bins| - 1], total) + BinError(bins[|bins| - 1], total)
  }

  function ExpectedCalibrationError(bins: seq<CalibrationBin>, total: nat): real {
    if total == 0 then 0.0 else WeightedError(bins, total)
  }

  lemma {:induction false} ResidualSum(rows: seq<ScoredRow>)
    ensures Sum(rows, RESIDUAL) == Sum(rows, PREDICTED) - Sum(rows, OBSERVED)
  {
    if rows != [] {
      ResidualSum(rows[..|rows| - 1]);
    }
  }

  lemma AbsScaled(x: real, y: real, n: nat)
    ensures Times(Abs(x - y), n) == Abs(Times(x, n) - Times(y, n))
  {
    TimesPlus(x - y, y, n);
    TimesPlus(y - x, x, n);
    TimesSign(x - y, n);
    TimesSign(y - x, n);
  }

  lemma {:induction false} TimesSign(x: real, n: nat)
    ensures x >= 0.0 ==> Times(x, n) >= 0.0
  {
    if n > 0 {
      TimesSign(x, n - 1);
    }
  }

  lemma WeightCancels(count: real, total: real, gap: real)
    requires total != 0.0
    ensures count / total * gap * total == count * gap
  {
    var weight := count / total;
    Quotient(count, total, weight);
    assert weight * gap * total == (weight * total) * gap;
  }

  lemma BinErrorTimes(bin: CalibrationBin, total: nat)
    requires total > 0
    ensures Times(BinError(bin, total), total) == Times(Abs(bin.meanPredicted - bin.observedRate), bin.count)
  {
    var gap := Abs(bin.meanPredicted - bin.observedRate);
    TimesIsProduct(BinError(bin, total), total);
    TimesIsProduct(gap, bin.count);
    WeightCancels(bin.count as real, total as real, gap);
  }

  lemma MeanGap(bucket: seq<ScoredRow>)
    requires bucket != []
    ensures Times(Abs(Mean(bucket, PREDICTED) - Mean(bucket, OBSERVED)), |bucket|) == Abs(Sum(bucket, RESIDUAL))
  {
    ResidualSum(bucket);
    AbsScaled(Mean(bucket, PREDICTED), Mean(bucket, OBSERVED), |bucket|);
  }

  /** How far bucket `i` is from calibrated, times its size. */
  ghost function Gaps(rows: seq<ScoredRow>, place: ScoredRow -> Option<nat>): nat -> real {
    (i: nat) => Abs(Sum(Bucket(rows, place, i), RESIDUAL))
  }

  /** How far a list of bins is from calibrated, counting every row. */
  ghost function TotalGap(bins: seq<CalibrationBin>): real {
    if bins == [] then 0.0
    else
      var bin := bins[|bins| - 1];
      TotalGap(bins[..|bins| - 1]) + Times(Abs(bin.meanPredicted - bin.observedRate), bin.count)
  }

  /** Weighted by its share of the rows and then counted over all rows, a bin counts each of its own. */
  lemma {:induction false} WeightedErrorIsTotalGap(bins: seq<CalibrationBin>, total: nat)
    requires total > 0
    ensures Times(WeightedError(bins, total), total) == TotalGap(bins)
  {
    if bins == [] {
      TimesIsProduct(0.0, total);
    } else {
      var front, bin := bins[..|bins| - 1], bins[|bins| - 1];
      WeightedErrorIsTotalGap(front, total);
      BinErrorTimes(bin, total);
      TimesPlus(WeightedError(front, total), BinError(bin, total), total);
    }
  }

  lemma TotalGapSnoc(bins: seq<CalibrationBin>, bin: CalibrationBin)
    ensures TotalGap(bins + [bin]) == TotalGap(bins) + Times(Abs(bin.meanPredicted - bin.observedRate), bin.count)
  {
    assert (bins + [bin])[..|bins|] == bins;
  }

  lemma BinGap(bucket: seq<ScoredRow>, i: nat, bins: nat)
    requires bucket != [] && bins > 0
    ensures var bin := BinOf(bucket, i, bins);
      Times(Abs(bin.meanPredicted - bin.observedRate), bin.count) == Abs(Sum(bucket, RESIDUAL))
  {
    MeanGap(bucket);
  }

  lemma BinsSnoc(rows: seq<ScoredRow>, bins: nat, k: nat)
    requires 0 < k <= bins
    ensures var bucket := Bucket(rows, Placing(bins), k - 1);
      && (bucket == [] ==> Bins(rows, bins, k) == Bins(rows, bins, k - 1))
      && (bucket != [] ==> Bins(rows, bins, k) == Bins(rows, bins, k - 1) + [BinOf(bucket, k - 1, bins)])
  {
  }

  lemma BinAddsGap(rows: seq<ScoredRow>, bins: nat, k: nat)
    requires 0 < k <= bins
    ensures TotalGap(Bins(rows, bins, k)) == TotalGap(Bins(rows, bins, k - 1)) + Abs(Sum(Bucket(rows, Placing(bins), k - 1), RESIDUAL))
  {
    var bucket := Bucket(rows, Placing(bins), k - 1);
    BinsSnoc(rows, bins, k);
    if bucket != [] {
      BinGap(bucket, k - 1, bins);
      TotalGapSnoc(Bins(rows, bins, k - 1), BinOf(bucket, k - 1, bins));
    }
  }

  lemma FoldStep(before: real, after: real, g: nat -> real, k: nat)
    requires k > 0 && before == Fold(g, k - 1) && after == before + g(k - 1)
    ensures after == Fold(g, k)
  {
  }

  lemma TotalGapStep(rows: seq<ScoredRow>, bins: nat, k: nat)
    requires 0 < k <= bins && TotalGap(Bins(rows, bins, k - 1)) == Fold(Gaps(rows, Placing(bins)), k - 1)
    ensures TotalGap(Bins(rows, bins, k)) == Fold(Gaps(rows, Placing(bins)), k)
  {
    BinAddsGap(rows, bins, k);
    FoldStep(TotalGap(Bins(rows, bins, k - 1)), TotalGap(Bins(rows, bins, k)), Gaps(rows, Placing(bins)), k);
  }

  lemma {:induction false} TotalGapIsFold(rows: seq<ScoredRow>, bins: nat, k: nat)
    requires k <= bins
    ensures TotalGap(Bins(rows, bins, k)) == Fold(Gaps(rows, Placing(bins)), k)
  {
    if k > 0 {
      TotalGapIsFold(rows, bins, k - 1);
      TotalGapStep(rows, bins, k);
    }
  }

  /** The triangle inequality, both ways round. */
  lemma {:induction false} SumTriangle(rows: seq<ScoredRow>)
    ensures Abs(Sum(rows, RESIDUAL)) <= Sum(rows, ABSOLUTE_ERROR)
  {
    if rows != [] {
      SumTriangle(rows[..|rows| - 1]);
    }
  }

  lemma GapsBetween(rows: seq<ScoredRow>, place: ScoredRow -> Option<nat>, k: nat)
    ensures Abs(Fold(InBucket(rows, place, RESIDUAL), k)) <= Fold(Gaps(rows, place), k) <= Fold(InBucket(rows, place, ABSOLUTE_ERROR), k)
  {
    forall i: nat
      ensures Abs(Sum(Bucket(rows, place, i), RESIDUAL)) <= Sum(Bucket(rows, place, i), ABSOLUTE_ERROR)
    {
      SumTriangle(Bucket(rows, place, i));
    }
    FoldBetween(InBucket(rows, place, RESIDUAL), Gaps(rows, place), InBucket(rows, place, ABSOLUTE_ERROR), k);
  }

  /** The calibration error of `rows` over `bins` bins. */
  function Ece(rows: seq<ScoredRow>, bins: nat): real {
    ExpectedCalibrationError(Bins(rows, bins, bins), |rows|)
  }

  lemma EceIsFold(rows: seq<ScoredRow>, bins: nat)
    requires rows != []
    ensures Times(Ece(rows, bins), |rows|) == Fold(Gaps(rows, Placing(bins)), bins)
  {
    WeightedErrorIsTotalGap(Bins(rows, bins, bins), |rows|);
    TotalGapIsFold(rows, bins, bins);
  }

  lemma EceScaled(rows: seq<ScoredRow>, bins: nat)
    requires rows != [] && AllPlaced(rows, bins)
    ensures Abs(Sum(rows, RESIDUAL)) <= Times(Ece(rows, bins), |rows|) <= Sum(rows, ABSOLUTE_ERROR)
  {
    EceIsFold(rows, bins);
    GapsBetween(rows, Placing(bins), bins);
    BucketSumIsSum(rows, bins, RESIDUAL);
    BucketSumIsSum(rows, bins, ABSOLUTE_ERROR);
  }

  /** How far the mean prediction is from the observed rate over all rows. */
  function Bias(rows: seq<ScoredRow>): real
    requires rows != []
  {
    Abs(Mean(rows, PREDICTED) - Mean(rows, OBSERVED))
  }

  /** The calibration error lies between the overall bias and the mean absolute error, whatever the
      number of bins. */
  lemma EceBetweenBiasAndError(rows: seq<ScoredRow>, bins: nat)
    requires rows != [] && AllPlaced(rows, bins)
    ensures Bias(rows) <= Ece(rows, bins) <= Mean(rows, ABSOLUTE_ERROR)
  {
    EceScaled(rows, bins);
    MeanGap(rows);
    DivideOut(Bias(rows), Ece(rows, bins), |rows|);
    DivideOut(Ece(rows, bins), Mean(rows, ABSOLUTE_ERROR), |rows|);
  }

  /** Squares sit above every tangent: d^2 >= 2 m d - m^2. */
  lemma {:induction false} SumAboveTangent(rows: seq<ScoredRow>, m: real)
    ensures Sum(rows, SQUARED_ERROR) >= 2.0 * m * Sum(rows, ABSOLUTE_ERROR) - Times(Square(m), |rows|)
  {
    if rows != [] {
      var front, row := rows[..|rows| - 1], rows[|rows| - 1];
      SumAboveTangent(front, m);
      var d := row.predicted - row.outcome as real;
      Tangent(Abs(d), m);
      assert Square(Abs(d)) == Square(d);
      TangentStep(m, Sum(front, ABSOLUTE_ERROR), Abs(d));
    }
  }

  lemma Tangent(d: real, m: real)
    ensures Square(d) >= 2.0 * m * d - Square(m)
  {
    SquareNonNegative(d - m);
    assert Square(d - m) == Square(d) - 2.0 * m * d + Square(m);
  }

  lemma TangentStep(m: real, total: real, d: real)
    ensures 2.0 * m * (total + d) == 2.0 * m * total + 2.0 * m * d
  {
  }

  lemma MeanSquareAboveSquareMean(rows: seq<ScoredRow>)
    requires rows != []
    ensures Square(Mean(rows, ABSOLUTE_ERROR)) <= Mean(rows, SQUARED_ERROR)
  {
    var n, m := |rows|, Mean(rows, ABSOLUTE_ERROR);
    SumAboveTangent(rows, m);
    TimesSquare(m, n, Sum(rows, ABSOLUTE_ERROR));
    DivideOut(Square(m), Mean(rows, SQUARED_ERROR), n);
  }

  lemma TimesSquare(m: real, n: nat, sum: real)
    requires sum == Times(m, n)
    ensures m * sum == Times(Square(m), n)
  {
    TimesIsProduct(m, n);
    TimesIsProduct(Square(m), n);
    assert m * (m * n as real) == (m * m) * n as real;
  }

  /** The square of the calibration error is at most the Brier score. */
  lemma EceSquaredBelowBrier(rows: seq<ScoredRow>, bins: nat)
    requires rows != [] && AllPlaced(rows, bins)
    ensures Square(Ece(rows, bins)) <= Brier(rows).value
  {
    EceBetweenBiasAndError(rows, bins);
    MeanSquareAboveSquareMean(rows);
    SquareMonotone(Bias(rows), Ece(rows, bins), Mean(rows, ABSOLUTE_ERROR));
  }

  lemma SquareMonotone(bias: real, e: real, m: real)
    requires 0.0 <= bias <= e <= m
    ensures Square(e) <= Square(m)
  {
    ProductNonNegative(m - e, m + e, (m - e) * (m + e));
    assert (m - e) * (m + e) == Square(m) - Square(e);
  }

  /** On probabilities binning cannot fail, so the bounds hold for every non-empty data set. */
  lemma ProbabilitiesAreScored(rows: seq<ScoredRow>, bins: nat)
    requires rows != [] && Probabilities(rows) && bins > 0
    ensures AllPlaced(rows, bins)
    ensures Ece(rows, bins) <= Mean(rows, ABSOLUTE_ERROR)
    ensures Square(Ece(rows, bins)) <= Brier(rows).value
  {
    forall k | 0 <= k < |rows|
      ensures Place(rows[k].predicted, bins).Some?
    {
      PlaceHolds(rows[k].predicted, bins);
    }
    EceBetweenBiasAndError(rows, bins);
    EceSquaredBelowBrier(rows, bins);
  }
}
