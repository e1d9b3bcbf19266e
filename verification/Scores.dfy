/** What the calibration scores count, in terms of the rows' own predictions and outcomes. */
module Scores {
  import opened Wrappers
  import opened Rounding
  import opened RealArithmetic
  import opened Calibration

  /** Every outcome is won or lost. */
  ghost predicate Resolved(rows: seq<ScoredRow>) {
    forall r :: r in rows ==> r.outcome == 0 || r.outcome == 1
  }

  ghost function Won(rows: seq<ScoredRow>): nat {
    if rows == [] then 0 else Won(rows[..|rows| - 1]) + if rows[|rows| - 1].outcome == 1 then 1 else 0
  }

  ghost function Predicted(rows: seq<ScoredRow>): real {
    if rows == [] then 0.0 else Predicted(rows[..|rows| - 1]) + rows[|rows| - 1].predicted
  }

  ghost function PredictedOnWon(rows: seq<ScoredRow>): real {
    if rows == [] then 0.0
    else PredictedOnWon(rows[..|rows| - 1]) + if rows[|rows| - 1].outcome == 1 then rows[|rows| - 1].predicted else 0.0
  }

  ghost function Sharpness(rows: seq<ScoredRow>): real {
    if rows == [] then 0.0 else Sharpness(rows[..|rows| - 1]) + Square(rows[|rows| - 1].predicted)
  }

  // ----- The Brier score ---------------------------------------------------------------------

  lemma MeanExactly(rows: seq<ScoredRow>, f: ScoredRow -> real)
    requires rows != []
    ensures Mean(rows, f) * |rows| as real == Sum(rows, f)
  {
    TimesIsProduct(Mean(rows, f), |rows|);
  }

  lemma SquaredErrorExactly(row: ScoredRow)
    requires row.outcome == 0 || row.outcome == 1
    ensures SQUARED_ERROR(row)
         == Square(row.predicted) - (if row.outcome == 1 then 2.0 * row.predicted - 1.0 else 0.0)
  {
  }

  lemma {:induction false} SquaredErrorsExactly(rows: seq<ScoredRow>)
    requires Resolved(rows)
    ensures Sum(rows, SQUARED_ERROR) == Sharpness(rows) - 2.0 * PredictedOnWon(rows) + Won(rows) as real
  {
    if rows != [] {
      SquaredErrorsExactly(rows[..|rows| - 1]);
      SquaredErrorExactly(rows[|rows| - 1]);
    }
  }

  /** The score counts the squares of all predictions, and two less a prediction plus one on each won row. */
  lemma BrierExactly(rows: seq<ScoredRow>)
    requires rows != [] && Resolved(rows)
    ensures Brier(rows).value * |rows| as real == Sharpness(rows) - 2.0 * PredictedOnWon(rows) + Won(rows) as real
  {
    SquaredErrorsExactly(rows);
    MeanExactly(rows, SQUARED_ERROR);
  }

  lemma {:induction false} ConstantSums(rows: seq<ScoredRow>, p: real)
    requires forall r :: r in rows ==> r.predicted == p
    ensures Sharpness(rows) == Times(Square(p), |rows|) && PredictedOnWon(rows) == Times(p, Won(rows))
  {
    if rows != [] {
      ConstantSums(rows[..|rows| - 1], p);
      assert rows[|rows| - 1] in rows;
    }
  }

  /** A forecast that never changes scores its squared distance from the observed rate, and on top of that
      the variance of the outcomes, which no constant forecast avoids. */
  lemma ConstantForecastExactly(rows: seq<ScoredRow>, p: real, rate: real)
    requires rows != [] && Resolved(rows) && rate * |rows| as real == Won(rows) as real
    requires forall r :: r in rows ==> r.predicted == p
    ensures Brier(rows).value == Square(p - rate) + rate * (1.0 - rate)
  {
    ConstantBrier(rows, p);
    FromRate(Brier(rows).value, p, rate, |rows| as real, Won(rows) as real);
  }

  lemma ConstantProducts(rows: seq<ScoredRow>, p: real)
    requires forall r :: r in rows ==> r.predicted == p
    ensures Sharpness(rows) == Square(p) * |rows| as real && PredictedOnWon(rows) == p * Won(rows) as real
  {
    ConstantSums(rows, p);
    TimesIsProduct(Square(p), |rows|);
    TimesIsProduct(p, Won(rows));
  }

  lemma ConstantBrier(rows: seq<ScoredRow>, p: real)
    requires rows != [] && Resolved(rows) && forall r :: r in rows ==> r.predicted == p
    ensures Brier(rows).value * |rows| as real
         == Square(p) * |rows| as real - 2.0 * (p * Won(rows) as real) + Won(rows) as real
  {
    BrierExactly(rows);
    ConstantProducts(rows, p);
  }

  lemma FromRate(score: real, p: real, rate: real, n: real, won: real)
    requires n != 0.0 && rate * n == won && score * n == Square(p) * n - 2.0 * (p * won) + won
    ensures score == Square(p - rate) + rate * (1.0 - rate)
  {
    AroundTheRate(p, rate, n, won);
    CancelFactor(score, Square(p - rate) + rate * (1.0 - rate), n);
  }

  lemma AroundTheRate(p: real, rate: real, n: real, won: real)
    requires rate * n == won
    ensures Square(p) * n - 2.0 * (p * won) + won == (Square(p - rate) + rate * (1.0 - rate)) * n
  {
    assert Square(p - rate) + rate * (1.0 - rate) == Square(p) - 2.0 * p * rate + rate;
    SpreadOut(Square(p), 2.0 * p * rate, rate, n);
    assert 2.0 * p * rate * n == 2.0 * (p * (rate * n));
  }

  lemma SpreadOut(x: real, y: real, z: real, n: real)
    ensures (x - y + z) * n == x * n - y * n + z * n
  {
  }

  // ----- The bins ------------------------------------------------------------------------------

  /** A half-open interval of predictions; the one that ends at one includes it. */
  predicate Within(p: real, low: real, high: real) {
    low <= p && (p < high || p == 1.0 == high)
  }

  ghost function InRange(rows: seq<ScoredRow>, low: real, high: real): seq<ScoredRow> {
    if rows == [] then []
    else
      var last := rows[|rows| - 1];
      InRange(rows[..|rows| - 1], low, high) + if Within(last.predicted, low, high) then [last] else []
  }

  lemma ScaleUp(p: real, edge: nat, bins: nat, q: real)
    requires bins > 0 && q == edge as real / bins as real
    ensures q <= p ==> edge as real <= p * bins as real
    ensures p < q ==> p * bins as real < edge as real
  {
    Quotient(edge as real, bins as real, q);
    if q <= p {
      ProductMonotone(q, p, bins as real);
    } else {
      ProductPositive(q - p, bins as real, (q - p) * bins as real);
    }
  }

  lemma LastEdge(i: nat, bins: nat)
    requires bins > 0
    ensures (i + 1) as real / bins as real == 1.0 <==> i == bins - 1
  {
    Quotient((i + 1) as real, bins as real, (i + 1) as real / bins as real);
  }

  lemma WholePart(x: real, i: nat)
    requires i as real <= x
    ensures i <= Truncate(x)
    ensures x < (i + 1) as real ==> Truncate(x) == i
  {
  }

  lemma PlaceOfScaled(p: real, bins: nat, i: nat)
    requires i < bins && i as real <= p * bins as real
    requires p * bins as real < (i + 1) as real || i == bins - 1
    ensures Place(p, bins) == Some(i)
  {
    WholePart(p * bins as real, i);
  }

  lemma WithinIsPlaced(p: real, bins: nat, i: nat, low: real, high: real)
    requires i < bins && low == i as real / bins as real && high == (i + 1) as real / bins as real && Within(p, low, high)
    ensures Place(p, bins) == Some(i)
  {
    LastEdge(i, bins);
    ScaleUp(p, i, bins, low);
    ScaleUp(p, i + 1, bins, high);
    PlaceOfScaled(p, bins, i);
  }

  /** A probability is placed in bucket `i` exactly when it lies in the bucket's interval. */
  lemma PlaceExactly(p: real, bins: nat, i: nat)
    requires 0.0 <= p <= 1.0 && i < bins
    ensures Place(p, bins) == Some(i) <==> Within(p, i as real / bins as real, (i + 1) as real / bins as real)
  {
    var low, high := i as real / bins as real, (i + 1) as real / bins as real;
    if Within(p, low, high) {
      WithinIsPlaced(p, bins, i, low, high);
    } else {
      PlaceHolds(p, bins);
    }
  }

  lemma {:induction false} BucketIsRange(rows: seq<ScoredRow>, bins: nat, i: nat)
    requires Probabilities(rows) && i < bins
    ensures Bucket(rows, Placing(bins), i) == InRange(rows, i as real / bins as real, (i + 1) as real / bins as real)
  {
    if rows != [] {
      BucketIsRange(rows[..|rows| - 1], bins, i);
      assert rows[|rows| - 1] in rows;
      PlaceExactly(rows[|rows| - 1].predicted, bins, i);
    }
  }

  lemma {:induction false} SumsExactly(rows: seq<ScoredRow>)
    requires Resolved(rows)
    ensures Sum(rows, PREDICTED) == Predicted(rows) && Sum(rows, OBSERVED) == Won(rows) as real
    ensures Sum(rows, RESIDUAL) == Predicted(rows) - Won(rows) as real
  {
    if rows != [] {
      SumsExactly(rows[..|rows| - 1]);
      assert rows[|rows| - 1] in rows;
    }
  }

  lemma {:induction false} RangeMember(rows: seq<ScoredRow>, low: real, high: real, row: ScoredRow)
    ensures row in InRange(rows, low, high) ==> row in rows
  {
    if rows != [] {
      RangeMember(rows[..|rows| - 1], low, high, row);
    }
  }

  lemma RangeResolved(rows: seq<ScoredRow>, low: real, high: real)
    requires Resolved(rows)
    ensures Resolved(InRange(rows, low, high))
  {
    forall r | r in InRange(rows, low, high)
      ensures r.outcome == 0 || r.outcome == 1
    {
      RangeMember(rows, low, high, r);
    }
  }

  /** A bin says of its own interval how many predictions lie in it, their mean, and the share won. */
  ghost predicate Honest(rows: seq<ScoredRow>, bin: CalibrationBin) {
    var inside := InRange(rows, bin.lower, bin.upper);
    && bin.count == |inside| > 0
    && Times(bin.meanPredicted, |inside|) == Predicted(inside)
    && Times(bin.observedRate, |inside|) == Won(inside) as real
  }

  lemma BinCounts(bucket: seq<ScoredRow>, i: nat, bins: nat)
    requires bucket != [] && bins > 0 && Resolved(bucket)
    ensures var bin := BinOf(bucket, i, bins);
      && Times(bin.meanPredicted, |bucket|) == Predicted(bucket)
      && Times(bin.observedRate, |bucket|) == Won(bucket) as real
  {
    SumsExactly(bucket);
  }

  lemma BinIsHonest(rows: seq<ScoredRow>, bins: nat, i: nat)
    requires Probabilities(rows) && Resolved(rows) && i < bins && Bucket(rows, Placing(bins), i) != []
    ensures Honest(rows, BinOf(Bucket(rows, Placing(bins), i), i, bins))
  {
    BucketIsRange(rows, bins, i);
    RangeResolved(rows, i as real / bins as real, (i + 1) as real / bins as real);
    BinCounts(Bucket(rows, Placing(bins), i), i, bins);
  }

  ghost predicate Spans(bin: CalibrationBin, i: nat, bins: nat) {
    Times(bin.lower, bins) == i as real && Times(bin.upper, bins) == (i + 1) as real
  }

  lemma BinSpans(bucket: seq<ScoredRow>, i: nat, bins: nat)
    requires bucket != [] && bins > 0
    ensures Spans(BinOf(bucket, i, bins), i, bins)
  {
    EdgeSpans(i, bins, i as real / bins as real);
    EdgeSpans(i + 1, bins, (i + 1) as real / bins as real);
  }

  lemma EdgeSpans(i: nat, bins: nat, edge: real)
    requires bins > 0 && edge == i as real / bins as real
    ensures Times(edge, bins) == i as real
  {
    Quotient(i as real, bins as real, edge);
    TimesIsProduct(edge, bins);
  }

  lemma NewBin(rows: seq<ScoredRow>, bins: nat, k: nat, bin: CalibrationBin)
    requires 0 < k <= bins && bin in Bins(rows, bins, k) && bin !in Bins(rows, bins, k - 1)
    ensures var bucket := Bucket(rows, Placing(bins), k - 1); bucket != [] && bin == BinOf(bucket, k - 1, bins)
  {
    BinsSnoc(rows, bins, k);
  }

  lemma NewBinIsHonest(rows: seq<ScoredRow>, bins: nat, k: nat, bin: CalibrationBin)
    requires Probabilities(rows) && Resolved(rows)
    requires 0 < k <= bins && bin in Bins(rows, bins, k) && bin !in Bins(rows, bins, k - 1)
    ensures Spans(bin, k - 1, bins) && Honest(rows, bin)
  {
    NewBin(rows, bins, k, bin);
    BinIsHonest(rows, bins, k - 1);
    BinSpans(Bucket(rows, Placing(bins), k - 1), k - 1, bins);
  }

  /** Every reported bin is one of the equal intervals and is honest about it. */
  lemma {:induction false} BinsAreHonest(rows: seq<ScoredRow>, bins: nat, k: nat, bin: CalibrationBin) returns (i: nat)
    requires Probabilities(rows) && Resolved(rows) && k <= bins && bin in Bins(rows, bins, k)
    ensures i < k && Spans(bin, i, bins) && Honest(rows, bin)
  {
    if bin in Bins(rows, bins, k - 1) {
      i := BinsAreHonest(rows, bins, k - 1, bin);
    } else {
      i := k - 1;
      NewBinIsHonest(rows, bins, k, bin);
    }
  }

  // ----- The calibration error -------------------------------------------------------------------

  /** Over the first `k` of `bins` equal intervals: how far the predictions of each are from its wins, in total. */
  ghost function Unreliability(rows: seq<ScoredRow>, bins: nat, k: nat): real
    requires k <= bins
  {
    if k == 0 then 0.0
    else
      var inside := InRange(rows, (k - 1) as real / bins as real, k as real / bins as real);
      Unreliability(rows, bins, k - 1) + Abs(Predicted(inside) - Won(inside) as real)
  }

  lemma GapExactly(rows: seq<ScoredRow>, bins: nat, i: nat)
    requires Probabilities(rows) && Resolved(rows) && i < bins
    ensures var inside := InRange(rows, i as real / bins as real, (i + 1) as real / bins as real);
      Gaps(rows, Placing(bins))(i) == Abs(Predicted(inside) - Won(inside) as real)
  {
    BucketIsRange(rows, bins, i);
    RangeResolved(rows, i as real / bins as real, (i + 1) as real / bins as real);
    SumsExactly(Bucket(rows, Placing(bins), i));
  }

  lemma {:induction false} GapsExactly(rows: seq<ScoredRow>, bins: nat, k: nat)
    requires Probabilities(rows) && Resolved(rows) && k <= bins
    ensures Fold(Gaps(rows, Placing(bins)), k) == Unreliability(rows, bins, k)
  {
    if k > 0 {
      GapsExactly(rows, bins, k - 1);
      GapExactly(rows, bins, k - 1);
    }
  }

  /** The calibration error counts, over all rows, how far each interval's predictions are from its wins. */
  lemma EceExactly(rows: seq<ScoredRow>, bins: nat)
    requires rows != [] && Probabilities(rows) && Resolved(rows)
    ensures Times(Ece(rows, bins), |rows|) == Unreliability(rows, bins, bins)
  {
    EceIsFold(rows, bins);
    GapsExactly(rows, bins, bins);
  }
}
