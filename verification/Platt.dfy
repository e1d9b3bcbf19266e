/** Platt calibration: the Newton iteration for sigmoid(a x + b) with a ridge towards the identity. */
module Platt {
  import opened RealArithmetic

  /** Any link function into [0, 1] stands for the sigmoid. */
  ghost predicate IsLink(link: real -> real) {
    forall z :: 0.0 <= link(z) <= 1.0
  }

  ghost predicate IsMonotone(link: real -> real) {
    forall y, z :: y <= z ==> link(y) <= link(z)
  }

  /** The gradient and Hessian of the penalized loss at one (a, b). */
  datatype Normal = Normal(ga: real, gb: real, haa: real, hab: real, hbb: real) {
    function Det(): real {
      haa * hbb - hab * hab
    }
  }

  datatype Fit = Fit(a: real, b: real) {
    function Score(x: real): real {
      a * x + b
    }
  }

  function Weight(p: real): real {
    p * (1.0 - p)
  }

  function AddRow(n: Normal, x: real, y: real, p: real): Normal {
    var w := Weight(p);
    Normal(n.ga + (p - y) * x, n.gb + (p - y), n.haa + w * x * x, n.hab + w * x, n.hbb + w)
  }

  function Penalty(ridge: real, a: real, b: real): Normal {
    Normal(ridge * (a - 1.0), ridge * b, ridge, 0.0, ridge)
  }

  /** The accumulators after the first `k` rows. */
  function Accumulated(xs: seq<real>, ys: seq<real>, link: real -> real, ridge: real, at: Fit, k: nat): Normal
    requires k <= |xs| == |ys|
  {
    if k == 0 then Penalty(ridge, at.a, at.b)
    else AddRow(Accumulated(xs, ys, link, ridge, at, k - 1), xs[k - 1], ys[k - 1], link(at.Score(xs[k - 1])))
  }

  function Equations(xs: seq<real>, ys: seq<real>, link: real -> real, ridge: real, at: Fit): Normal
    requires |xs| == |ys|
  {
    Accumulated(xs, ys, link, ridge, at, |xs|)
  }

  const SINGULAR := 0.000000000001
  const TOLERANCE := 0.000000001

  datatype Step = Step(da: real, db: real) {
    predicate Small() {
      -TOLERANCE < da < TOLERANCE && -TOLERANCE < db < TOLERANCE
    }
  }

  function NewtonStep(n: Normal): Step
    requires n.Det() > SINGULAR
  {
    Step((n.hbb * n.ga - n.hab * n.gb) / n.Det(), (n.haa * n.gb - n.hab * n.ga) / n.Det())
  }

  // ----- The Hessian stays away from singular ------------------------------------------

  lemma NonNegativeFactor(d: real, weight: real, product: real)
    requires weight > 0.0 && product == weight * d && product >= 0.0
    ensures d >= 0.0
  {
    if d < 0.0 {
      ProductPositive(-d, weight, -product);
    }
  }

  /** A positive definite form is non-negative at (1, -x). */
  lemma FormNonNegative(haa: real, hab: real, hbb: real, x: real)
    requires hbb > 0.0 && haa * hbb - hab * hab >= 0.0
    ensures haa - 2.0 * hab * x + hbb * x * x >= 0.0
  {
    var form := haa - 2.0 * hab * x + hbb * x * x;
    SquareNonNegative(hbb * x - hab);
    CompleteSquare(haa, hab, hbb, x);
    NonNegativeFactor(form, hbb, hbb * form);
  }

  lemma CompleteSquare(haa: real, hab: real, hbb: real, x: real)
    ensures hbb * (haa - 2.0 * hab * x + hbb * x * x) == Square(hbb * x - hab) + (haa * hbb - hab * hab)
  {
  }

  /** One more row adds weight times the form to the determinant. */
  lemma DetExpansion(haa: real, hab: real, hbb: real, w: real, x: real)
    ensures (haa + w * x * x) * (hbb + w) - (hab + w * x) * (hab + w * x)
         == (haa * hbb - hab * hab) + w * (haa - 2.0 * hab * x + hbb * x * x)
  {
  }

  lemma WeightNonNegative(p: real)
    requires 0.0 <= p <= 1.0
    ensures 0.0 <= Weight(p) <= 0.25
  {
    ProductNonNegative(p, 1.0 - p, Weight(p));
    SquareNonNegative(p - 0.5);
    assert Square(p - 0.5) == 0.25 - Weight(p);
  }

  lemma AddRowKeepsDefinite(n: Normal, x: real, y: real, p: real, floor: real)
    requires n.haa > 0.0 && n.hbb > 0.0 && n.Det() >= floor >= 0.0 && 0.0 <= p <= 1.0
    ensures var m := AddRow(n, x, y, p);
      m.haa >= n.haa && m.hbb >= n.hbb && m.Det() >= floor
  {
    var w := Weight(p);
    WeightNonNegative(p);
    FormNonNegative(n.haa, n.hab, n.hbb, x);
    var form := n.haa - 2.0 * n.hab * x + n.hbb * x * x;
    ProductNonNegative(w, form, w * form);
    DetExpansion(n.haa, n.hab, n.hbb, w, x);
    SquareNonNegative(x);
    ProductNonNegative(w, Square(x), w * Square(x));
    assert w * x * x == w * Square(x);
  }

  /** However many rows and whatever their weights, the determinant never falls below ridge squared. */
  lemma {:induction false} DeterminantFloor(xs: seq<real>, ys: seq<real>, link: real -> real, ridge: real, at: Fit, k: nat)
    requires k <= |xs| == |ys| && ridge > 0.0 && IsLink(link)
    ensures var n := Accumulated(xs, ys, link, ridge, at, k);
      n.haa >= ridge && n.hbb >= ridge && n.Det() >= ridge * ridge
  {
    if k > 0 {
      DeterminantFloor(xs, ys, link, ridge, at, k - 1);
      SquareNonNegative(ridge);
      AddRowKeepsDefinite(Accumulated(xs, ys, link, ridge, at, k - 1), xs[k - 1], ys[k - 1],
                          link(at.Score(xs[k - 1])), ridge * ridge);
    }
  }

  // ----- The step solves the Newton system ----------------------------------------------

  lemma CramersRule(n: Normal, s: Step)
    requires s.da * n.Det() == n.hbb * n.ga - n.hab * n.gb
    requires s.db * n.Det() == n.haa * n.gb - n.hab * n.ga
    requires n.Det() != 0.0
    ensures n.haa * s.da + n.hab * s.db == n.ga
    ensures n.hab * s.da + n.hbb * s.db == n.gb
  {
    var det := n.Det();
    FirstRow(n.haa, n.hab, n.hbb, n.ga, n.gb, s.da, s.db, det);
    CancelFactor(n.haa * s.da + n.hab * s.db, n.ga, det);
    SecondRow(n.haa, n.hab, n.hbb, n.ga, n.gb, s.da, s.db, det);
    CancelFactor(n.hab * s.da + n.hbb * s.db, n.gb, det);
  }

  lemma FirstRow(haa: real, hab: real, hbb: real, ga: real, gb: real, da: real, db: real, det: real)
    requires det == haa * hbb - hab * hab
    requires da * det == hbb * ga - hab * gb && db * det == haa * gb - hab * ga
    ensures (haa * da + hab * db) * det == ga * det
  {
    assert (haa * da + hab * db) * det == haa * (da * det) + hab * (db * det);
    assert haa * (hbb * ga - hab * gb) + hab * (haa * gb - hab * ga) == (haa * hbb - hab * hab) * ga;
  }

  lemma SecondRow(haa: real, hab: real, hbb: real, ga: real, gb: real, da: real, db: real, det: real)
    requires det == haa * hbb - hab * hab
    requires da * det == hbb * ga - hab * gb && db * det == haa * gb - hab * ga
    ensures (hab * da + hbb * db) * det == gb * det
  {
    assert (hab * da + hbb * db) * det == hab * (da * det) + hbb * (db * det);
    assert hab * (hbb * ga - hab * gb) + hbb * (haa * gb - hab * ga) == (haa * hbb - hab * hab) * gb;
  }

  /** The computed step is the exact solution of the 2x2 system H step = g. */
  lemma StepSolvesSystem(n: Normal)
    requires n.Det() > SINGULAR
    ensures var s := NewtonStep(n);
      n.haa * s.da + n.hab * s.db == n.ga && n.hab * s.da + n.hbb * s.db == n.gb
  {
    var s := NewtonStep(n);
    Quotient(n.hbb * n.ga - n.hab * n.gb, n.Det(), s.da);
    Quotient(n.haa * n.gb - n.hab * n.ga, n.Det(), s.db);
    CramersRule(n, s);
  }

  function Quadratic(n: Normal, u: real, v: real): real {
    n.haa * u * u + 2.0 * n.hab * u * v + n.hbb * v * v
  }

  lemma QuadraticSquare(n: Normal, u: real, v: real)
    ensures n.hbb * Quadratic(n, u, v) == Square(n.hab * u + n.hbb * v) + n.Det() * Square(u)
  {
  }

  lemma QuadraticPositive(n: Normal, u: real, v: real)
    requires n.hbb > 0.0 && n.Det() > 0.0 && (u != 0.0 || v != 0.0)
    ensures Quadratic(n, u, v) > 0.0
  {
    CompletedSquarePositive(n.hab, n.hbb, n.Det(), u, v, Square(n.hab * u + n.hbb * v) + n.Det() * Square(u));
    QuadraticSquare(n, u, v);
    PositiveFactor(Quadratic(n, u, v), n.hbb, n.hbb * Quadratic(n, u, v));
  }

  lemma CompletedSquarePositive(hab: real, hbb: real, det: real, u: real, v: real, total: real)
    requires hbb > 0.0 && det > 0.0 && (u != 0.0 || v != 0.0)
    requires total == Square(hab * u + hbb * v) + det * Square(u)
    ensures total > 0.0
  {
    SquareNonNegative(hab * u + hbb * v);
    if u != 0.0 {
      SquarePositive(u);
      ProductPositive(det, Square(u), det * Square(u));
    } else {
      NonZeroProduct(hbb, v);
      SquarePositive(hbb * v);
      assert hab * u == 0.0 && det * Square(u) == 0.0;
    }
  }

  lemma NonZeroProduct(x: real, y: real)
    requires x != 0.0 && y != 0.0
    ensures x * y != 0.0
  {
    if x * y == 0.0 {
      CancelFactor(x, 0.0, y);
    }
  }

  /** The step is a descent direction: it has a positive inner product with the gradient unless the
      gradient is zero. */
  lemma StepDescends(n: Normal)
    requires n.hbb > 0.0 && n.Det() > SINGULAR
    ensures var s := NewtonStep(n);
      && (n.ga == 0.0 && n.gb == 0.0 <==> s.da == 0.0 && s.db == 0.0)
      && (n.ga != 0.0 || n.gb != 0.0 ==> n.ga * s.da + n.gb * s.db > 0.0)
  {
    var s := NewtonStep(n);
    StepSolvesSystem(n);
    if s.da != 0.0 || s.db != 0.0 {
      QuadraticPositive(n, s.da, s.db);
      InnerProduct(n, s.da, s.db);
    }
  }

  lemma InnerProduct(n: Normal, u: real, v: real)
    ensures (n.haa * u + n.hab * v) * u + (n.hab * u + n.hbb * v) * v == Quadratic(n, u, v)
  {
  }

  /** Stopping on a small step certifies a small gradient. */
  lemma SmallStepSmallGradient(n: Normal)
    requires n.Det() > SINGULAR && NewtonStep(n).Small()
    ensures -Magnitude(n.haa, n.hab) <= n.ga <= Magnitude(n.haa, n.hab)
    ensures -Magnitude(n.hbb, n.hab) <= n.gb <= Magnitude(n.hbb, n.hab)
  {
    var s := NewtonStep(n);
    StepSolvesSystem(n);
    ScaledSum(n.haa, n.hab, s.da, s.db, n.ga);
    ScaledSum(n.hbb, n.hab, s.db, s.da, n.gb);
  }

  lemma ScaledSum(diagonal: real, off: real, d1: real, d2: real, total: real)
    requires -TOLERANCE < d1 < TOLERANCE && -TOLERANCE < d2 < TOLERANCE
    requires total == diagonal * d1 + off * d2
    ensures -Magnitude(diagonal, off) <= total <= Magnitude(diagonal, off)
  {
    ScaledStep(diagonal, d1);
    ScaledStep(off, d2);
  }

  function Abs(x: real): real {
    if x < 0.0 then -x else x
  }

  function Magnitude(diagonal: real, off: real): real {
    (Abs(diagonal) + Abs(off)) * TOLERANCE
  }

  lemma ScaledStep(h: real, d: real)
    requires -TOLERANCE < d < TOLERANCE
    ensures -Abs(h) * TOLERANCE <= h * d <= Abs(h) * TOLERANCE
  {
    ProductNonNegative(Abs(h), TOLERANCE - d, Abs(h) * (TOLERANCE - d));
    ProductNonNegative(Abs(h), TOLERANCE + d, Abs(h) * (TOLERANCE + d));
  }

  // ----- The optimum is unique --------------------------------------------------------------

  /** How much the gradient differs between two parameter pairs, along their difference. */
  ghost function Spread(m: Normal, n: Normal, da: real, db: real): real {
    (m.ga - n.ga) * da + (m.gb - n.gb) * db
  }

  lemma PenaltySpread(ridge: real, a1: real, b1: real, a2: real, b2: real)
    ensures Spread(Penalty(ridge, a1, b1), Penalty(ridge, a2, b2), a1 - a2, b1 - b2)
         == ridge * (Square(a1 - a2) + Square(b1 - b2))
  {
  }

  /** What one row adds to the spread. */
  ghost function RowGain(p: real, q: real, x: real, da: real, db: real): real {
    (p - q) * (da * x + db)
  }

  lemma ResidualGap(p: real, q: real, y: real, x: real)
    ensures (p - y) * x - (q - y) * x == (p - q) * x
  {
  }

  lemma SpreadAlgebra(dg: real, dh: real, r: real, u: real, x: real, da: real, db: real)
    requires u == r * x
    ensures (dg + u) * da + (dh + r) * db == (dg * da + dh * db) + r * (da * x + db)
  {
    assert u * da == r * (da * x);
  }

  lemma RowSpread(m: Normal, n: Normal, x: real, y: real, p: real, q: real, da: real, db: real)
    ensures Spread(AddRow(m, x, y, p), AddRow(n, x, y, q), da, db) == Spread(m, n, da, db) + RowGain(p, q, x, da, db)
  {
    ResidualGap(p, q, y, x);
    SpreadAlgebra(m.ga - n.ga, m.gb - n.gb, p - q, (p - q) * x, x, da, db);
    assert AddRow(m, x, y, p).ga - AddRow(n, x, y, q).ga == (m.ga - n.ga) + (p - q) * x;
    assert AddRow(m, x, y, p).gb - AddRow(n, x, y, q).gb == (m.gb - n.gb) + (p - q);
  }

  lemma MonotoneProduct(link: real -> real, y: real, z: real, difference: real)
    requires IsMonotone(link) && difference == y - z
    ensures (link(y) - link(z)) * difference >= 0.0
  {
    ProductNonNegative(link(y) - link(z), difference, (link(y) - link(z)) * difference);
  }

  lemma RowGainNonNegative(link: real -> real, x: real, at: Fit, other: Fit)
    requires IsMonotone(link)
    ensures RowGain(link(at.Score(x)), link(other.Score(x)), x, at.a - other.a, at.b - other.b) >= 0.0
  {
    ScoreDifference(at, other, x);
    MonotoneProduct(link, at.Score(x), other.Score(x), (at.a - other.a) * x + (at.b - other.b));
  }

  /** For a non-decreasing link a row never brings the two gradients together. */
  lemma RowKeepsSpread(m: Normal, n: Normal, link: real -> real, x: real, y: real, at: Fit, other: Fit)
    requires IsMonotone(link)
    ensures Spread(AddRow(m, x, y, link(at.Score(x))), AddRow(n, x, y, link(other.Score(x))), at.a - other.a, at.b - other.b)
         >= Spread(m, n, at.a - other.a, at.b - other.b)
  {
    RowSpread(m, n, x, y, link(at.Score(x)), link(other.Score(x)), at.a - other.a, at.b - other.b);
    RowGainNonNegative(link, x, at, other);
  }

  lemma ScoreDifference(at: Fit, other: Fit, x: real)
    ensures at.Score(x) - other.Score(x) == (at.a - other.a) * x + (at.b - other.b)
  {
  }

  /** For a non-decreasing link the gradient is strongly monotone, with the ridge as modulus. */
  lemma {:induction false} GradientStronglyMonotone(xs: seq<real>, ys: seq<real>, link: real -> real, ridge: real,
                                                    at: Fit, other: Fit, k: nat)
    requires k <= |xs| == |ys| && IsMonotone(link)
    ensures Spread(Accumulated(xs, ys, link, ridge, at, k), Accumulated(xs, ys, link, ridge, other, k),
                   at.a - other.a, at.b - other.b)
         >= ridge * (Square(at.a - other.a) + Square(at.b - other.b))
  {
    if k == 0 {
      PenaltySpread(ridge, at.a, at.b, other.a, other.b);
    } else {
      GradientStronglyMonotone(xs, ys, link, ridge, at, other, k - 1);
      RowKeepsSpread(Accumulated(xs, ys, link, ridge, at, k - 1), Accumulated(xs, ys, link, ridge, other, k - 1),
                     link, xs[k - 1], ys[k - 1], at, other);
    }
  }

  ghost predicate Stationary(xs: seq<real>, ys: seq<real>, link: real -> real, ridge: real, at: Fit)
    requires |xs| == |ys|
  {
    var n := Equations(xs, ys, link, ridge, at);
    n.ga == 0.0 && n.gb == 0.0
  }

  /** At most one (a, b) has zero gradient: the fit Newton's method looks for is unique. */
  lemma StationaryPointIsUnique(xs: seq<real>, ys: seq<real>, link: real -> real, ridge: real, at: Fit, other: Fit)
    requires |xs| == |ys| && IsMonotone(link) && ridge > 0.0
    requires Stationary(xs, ys, link, ridge, at) && Stationary(xs, ys, link, ridge, other)
    ensures at == other
  {
    GradientStronglyMonotone(xs, ys, link, ridge, at, other, |xs|);
    var da, db := at.a - other.a, at.b - other.b;
    SquareNonNegative(da);
    SquareNonNegative(db);
    if da != 0.0 {
      SquarePositive(da);
    }
    if db != 0.0 {
      SquarePositive(db);
    }
    var gap := Square(da) + Square(db);
    if gap > 0.0 {
      ProductPositive(ridge, gap, ridge * gap);
    }
  }

  // ----- What the gradient is the gradient of ----------------------------------------------------

  /** `link` is the slope of the convex function `potential`: each tangent lies below it. The logistic
      function is the slope of z -> log(1 + exp(z)). */
  ghost predicate IsSlopeOf(link: real -> real, potential: real -> real) {
    forall y, z :: potential(z) >= potential(y) + link(y) * (z - y)
  }

  /** The penalized negative log-likelihood of the first `k` rows. */
  ghost function Loss(xs: seq<real>, ys: seq<real>, potential: real -> real, ridge: real, at: Fit, k: nat): real
    requires k <= |xs| == |ys|
  {
    if k == 0 then ridge * (Square(at.a - 1.0) + Square(at.b)) / 2.0
    else Loss(xs, ys, potential, ridge, at, k - 1) + RowLoss(potential, at, xs[k - 1], ys[k - 1])
  }

  ghost function RowLoss(potential: real -> real, at: Fit, x: real, y: real): real {
    potential(at.Score(x)) - y * at.Score(x)
  }

  ghost function Tangent(n: Normal, at: Fit, other: Fit): real {
    n.ga * (other.a - at.a) + n.gb * (other.b - at.b)
  }

  /** What a row with this residual adds to the tangent. */
  ghost function Slope(residual: real, x: real, at: Fit, other: Fit): real {
    residual * x * (other.a - at.a) + residual * (other.b - at.b)
  }

  ghost function Distance(at: Fit, other: Fit): real {
    Square(other.a - at.a) + Square(other.b - at.b)
  }

  lemma PenaltyExpansion(ridge: real, at: Fit, other: Fit)
    ensures ridge * (Square(other.a - 1.0) + Square(other.b)) / 2.0
         == ridge * (Square(at.a - 1.0) + Square(at.b)) / 2.0
            + Tangent(Penalty(ridge, at.a, at.b), at, other) + ridge * Distance(at, other) / 2.0
  {
    PartExpansion(ridge, at.a - 1.0, other.a - 1.0);
    PartExpansion(ridge, at.b, other.b);
    SumOfTwo(ridge, Square(other.a - 1.0), Square(other.b));
    SumOfTwo(ridge, Square(at.a - 1.0), Square(at.b));
    SumOfTwo(ridge, Square(other.a - at.a), Square(other.b - at.b));
    assert (other.a - 1.0) - (at.a - 1.0) == other.a - at.a;
    PenaltyTangent(ridge, at, other);
  }

  lemma SumOfTwo(factor: real, x: real, y: real)
    ensures factor * (x + y) == x * factor + y * factor
  {
  }

  lemma PenaltyTangent(ridge: real, at: Fit, other: Fit)
    ensures Tangent(Penalty(ridge, at.a, at.b), at, other)
         == ridge * (at.a - 1.0) * (other.a - at.a) + ridge * at.b * (other.b - at.b)
  {
  }

  lemma PartExpansion(ridge: real, u: real, v: real)
    ensures Square(v) * ridge == Square(u) * ridge + 2.0 * (ridge * u * (v - u)) + Square(v - u) * ridge
  {
    assert Square(v) == Square(u) + 2.0 * (u * (v - u)) + Square(v - u);
    ScaleSum(Square(u), u * (v - u), Square(v - u), ridge, Square(v));
  }

  lemma ScaleSum(x: real, y: real, z: real, factor: real, total: real)
    requires total == x + 2.0 * y + z
    ensures total * factor == x * factor + 2.0 * (factor * y) + z * factor
  {
  }

  /** One row's loss lies above its tangent, whose slopes are what the loop adds to the gradient. */
  lemma RowSupport(link: real -> real, potential: real -> real, at: Fit, other: Fit, x: real, y: real)
    requires IsSlopeOf(link, potential)
    ensures RowLoss(potential, other, x, y) >= RowLoss(potential, at, x, y) + Slope(link(at.Score(x)) - y, x, at, other)
  {
    var y0, z := at.Score(x), other.Score(x);
    ScoreDifference(other, at, x);
    Residual(link(y0), y, x, other.a - at.a, other.b - at.b, z - y0);
    Residual(0.0, y, x, other.a - at.a, other.b - at.b, z - y0);
  }

  lemma Residual(p: real, y: real, x: real, da: real, db: real, dz: real)
    requires dz == da * x + db
    ensures (p - y) * x * da + (p - y) * db == p * dz - y * dz
  {
  }

  lemma TangentOfRow(n: Normal, at: Fit, other: Fit, x: real, y: real, p: real)
    ensures Tangent(AddRow(n, x, y, p), at, other)
         == Tangent(n, at, other) + Slope(p - y, x, at, other)
  {
  }

  /** The accumulated (ga, gb) is the gradient of the penalized loss: the loss lies above its tangent
      everywhere, by at least half the ridge times the squared distance. */
  lemma {:induction false} GradientSupportsLoss(xs: seq<real>, ys: seq<real>, link: real -> real, potential: real -> real,
                                                ridge: real, at: Fit, other: Fit, k: nat)
    requires k <= |xs| == |ys| && IsSlopeOf(link, potential)
    ensures Loss(xs, ys, potential, ridge, other, k)
         >= Loss(xs, ys, potential, ridge, at, k) + Tangent(Accumulated(xs, ys, link, ridge, at, k), at, other)
            + ridge * Distance(at, other) / 2.0
  {
    if k == 0 {
      PenaltyExpansion(ridge, at, other);
    } else {
      GradientSupportsLoss(xs, ys, link, potential, ridge, at, other, k - 1);
      var x, y, before := xs[k - 1], ys[k - 1], Accumulated(xs, ys, link, ridge, at, k - 1);
      RowSupport(link, potential, at, other, x, y);
      TangentOfRow(before, at, other, x, y, link(at.Score(x)));
      assert Accumulated(xs, ys, link, ridge, at, k) == AddRow(before, x, y, link(at.Score(x)));
    }
  }

  /** Where the gradient vanishes the penalized loss is smallest, and strictly so. */
  lemma StationaryPointIsOptimal(xs: seq<real>, ys: seq<real>, link: real -> real, potential: real -> real, ridge: real,
                                 at: Fit, other: Fit)
    requires |xs| == |ys| && IsSlopeOf(link, potential) && ridge > 0.0
    requires Stationary(xs, ys, link, ridge, at) && other != at
    ensures Loss(xs, ys, potential, ridge, at, |xs|) < Loss(xs, ys, potential, ridge, other, |xs|)
  {
    GradientSupportsLoss(xs, ys, link, potential, ridge, at, other, |xs|);
    ApartIsPositive(at, other);
    ProductPositive(ridge, Distance(at, other), ridge * Distance(at, other));
  }

  lemma ApartIsPositive(at: Fit, other: Fit)
    requires at != other
    ensures Distance(at, other) > 0.0
  {
    SquareNonNegative(other.a - at.a);
    SquareNonNegative(other.b - at.b);
    if other.a != at.a {
      SquarePositive(other.a - at.a);
    } else {
      SquarePositive(other.b - at.b);
    }
  }

  // ----- What the Hessian is the Hessian of ---------------------------------------------------------

  /** The link's slope at y is p (1 - p): its chord to z misses that tangent by at most `slack(z - y)`. For the
      logistic function the slack is of second order, a twentieth of the square. */
  ghost predicate BendsBy(link: real -> real, slack: real -> real) {
    forall y, z :: Abs(RowMiss(link(y), link(z), z - y)) <= slack(z - y)
  }

  /** How far the gradient at `other` is from the one at `at` corrected by the Hessian. */
  ghost function MissA(n: Normal, m: Normal, da: real, db: real): real {
    m.ga - n.ga - (n.haa * da + n.hab * db)
  }

  ghost function MissB(n: Normal, m: Normal, da: real, db: real): real {
    m.gb - n.gb - (n.hab * da + n.hbb * db)
  }

  /** How far one row's chord misses its tangent, for a score difference `dz`. */
  ghost function RowMiss(p: real, q: real, dz: real): real {
    q - p - p * (1.0 - p) * dz
  }

  /** One term of the Hessian times the difference, with the row's part taken out. */
  lemma TakeOut(h: real, part: real, d: real, product: real)
    requires product == part * d
    ensures (h + part) * d == h * d + product
  {
  }

  lemma WeightedDifference(w: real, x: real, da: real, db: real, dz: real)
    requires dz == da * x + db
    ensures w * x * da + w * db == w * dz
  {
    assert w * dz == w * (da * x) + w * db;
  }

  lemma RowMissB(n: Normal, m: Normal, x: real, y: real, p: real, q: real, da: real, db: real, dz: real)
    requires dz == da * x + db
    ensures MissB(AddRow(n, x, y, p), AddRow(m, x, y, q), da, db) == MissB(n, m, da, db) + RowMiss(p, q, dz)
  {
    var w := Weight(p);
    TakeOut(n.hab, w * x, da, w * x * da);
    TakeOut(n.hbb, w, db, w * db);
    WeightedDifference(w, x, da, db, dz);
    MissSum(m.gb, n.gb, q - y, p - y, n.hab * da, w * x * da, n.hbb * db, w * db, q - p);
  }

  lemma MissSum(to: real, from: real, q: real, p: real, h1: real, part1: real, h2: real, part2: real, change: real)
    requires change == q - p
    ensures (to + q) - (from + p) - ((h1 + part1) + (h2 + part2))
         == (to - from - (h1 + h2)) + (change - (part1 + part2))
  {
  }

  lemma RowMissA(n: Normal, m: Normal, x: real, y: real, p: real, q: real, da: real, db: real, dz: real)
    returns (gain: real)
    requires dz == da * x + db
    ensures gain == RowMiss(p, q, dz) * x
    ensures MissA(AddRow(n, x, y, p), AddRow(m, x, y, q), da, db) == MissA(n, m, da, db) + gain
  {
    var w := Weight(p);
    TakeOut(n.haa, w * x * x, da, w * x * x * da);
    TakeOut(n.hab, w * x, db, w * x * db);
    WeightedDifference(w * x, x, da, db, dz);
    MissSum(m.ga, n.ga, (q - y) * x, (p - y) * x, n.haa * da, w * x * x * da, n.hab * db, w * x * db, (q - p) * x);
    MissTimes(q - p, w, dz, x);
    ResidualGap(q, p, y, x);
    gain := RowMiss(p, q, dz) * x;
  }

  lemma MissTimes(change: real, w: real, dz: real, x: real)
    ensures (change - w * dz) * x == change * x - w * x * dz
  {
    assert w * dz * x == w * x * dz;
  }

  lemma PenaltyMisses(ridge: real, at: Fit, other: Fit)
    ensures MissA(Penalty(ridge, at.a, at.b), Penalty(ridge, other.a, other.b), other.a - at.a, other.b - at.b) == 0.0
    ensures MissB(Penalty(ridge, at.a, at.b), Penalty(ridge, other.a, other.b), other.a - at.a, other.b - at.b) == 0.0
  {
  }

  /** f(xs[0]) + ... + f(xs[k - 1]). */
  ghost function Over(xs: seq<real>, f: real -> real, k: nat): real
    requires k <= |xs|
  {
    if k == 0 then 0.0 else Over(xs, f, k - 1) + f(xs[k - 1])
  }

  lemma {:induction false} OverTelescopes(xs: seq<real>, f: real -> real, value: nat -> real, k: nat)
    requires k <= |xs| && value(0) == 0.0
    requires forall j :: 0 <= j < k ==> value(j + 1) == value(j) + f(xs[j])
    ensures value(k) == Over(xs, f, k)
  {
    if k > 0 {
      OverTelescopes(xs, f, value, k - 1);
    }
  }

  lemma {:induction false} OverBounded(xs: seq<real>, f: real -> real, bound: real -> real, k: nat)
    requires k <= |xs| && forall x :: Abs(f(x)) <= bound(x)
    ensures Abs(Over(xs, f, k)) <= Over(xs, bound, k)
  {
    if k > 0 {
      OverBounded(xs, f, bound, k - 1);
    }
  }

  /** How far the row at x misses, and what the slack allows it. */
  ghost function Missed(link: real -> real, at: Fit, other: Fit): real -> real {
    x => RowMiss(link(at.Score(x)), link(other.Score(x)), other.Score(x) - at.Score(x))
  }

  ghost function Allowed(slack: real -> real, at: Fit, other: Fit): real -> real {
    x => slack(other.Score(x) - at.Score(x))
  }

  ghost function TimesX(f: real -> real): real -> real {
    x => f(x) * x
  }

  ghost function TimesAbsX(f: real -> real): real -> real {
    x => f(x) * Abs(x)
  }

  /** How far the gradient is off after the first `k` rows. */
  ghost function GapA(xs: seq<real>, ys: seq<real>, link: real -> real, ridge: real, at: Fit, other: Fit, k: nat): real
    requires k <= |xs| == |ys|
  {
    MissA(Accumulated(xs, ys, link, ridge, at, k), Accumulated(xs, ys, link, ridge, other, k), other.a - at.a, other.b - at.b)
  }

  ghost function GapB(xs: seq<real>, ys: seq<real>, link: real -> real, ridge: real, at: Fit, other: Fit, k: nat): real
    requires k <= |xs| == |ys|
  {
    MissB(Accumulated(xs, ys, link, ridge, at, k), Accumulated(xs, ys, link, ridge, other, k), other.a - at.a, other.b - at.b)
  }

  lemma MissedTimesX(link: real -> real, at: Fit, other: Fit, x: real, p: real, q: real, dz: real)
    requires p == link(at.Score(x)) && q == link(other.Score(x)) && dz == other.Score(x) - at.Score(x)
    ensures RowMiss(p, q, dz) * x == TimesX(Missed(link, at, other))(x)
  {
  }

  lemma RowStepA(n: Normal, m: Normal, link: real -> real, at: Fit, other: Fit, x: real, y: real, p: real, q: real,
                 da: real, db: real, dz: real) returns (gain: real)
    requires p == link(at.Score(x)) && q == link(other.Score(x)) && dz == other.Score(x) - at.Score(x)
    requires dz == da * x + db
    ensures gain == TimesX(Missed(link, at, other))(x)
    ensures MissA(AddRow(n, x, y, p), AddRow(m, x, y, q), da, db) == MissA(n, m, da, db) + gain
  {
    gain := RowMissA(n, m, x, y, p, q, da, db, dz);
    MissedTimesX(link, at, other, x, p, q, dz);
  }

  lemma RowStepB(n: Normal, m: Normal, link: real -> real, at: Fit, other: Fit, x: real, y: real, da: real, db: real)
    returns (gain: real)
    requires da == other.a - at.a && db == other.b - at.b
    ensures gain == Missed(link, at, other)(x)
    ensures MissB(AddRow(n, x, y, link(at.Score(x))), AddRow(m, x, y, link(other.Score(x))), da, db) == MissB(n, m, da, db) + gain
  {
    ScoreDifference(other, at, x);
    RowMissB(n, m, x, y, link(at.Score(x)), link(other.Score(x)), da, db, other.Score(x) - at.Score(x));
    gain := RowMiss(link(at.Score(x)), link(other.Score(x)), other.Score(x) - at.Score(x));
  }

  lemma GapStepA(xs: seq<real>, ys: seq<real>, link: real -> real, ridge: real, at: Fit, other: Fit, k: nat) returns (gain: real)
    requires k < |xs| == |ys|
    ensures gain == TimesX(Missed(link, at, other))(xs[k])
    ensures GapA(xs, ys, link, ridge, at, other, k + 1) == GapA(xs, ys, link, ridge, at, other, k) + gain
  {
    var x := xs[k];
    ScoreDifference(other, at, x);
    gain := RowStepA(Accumulated(xs, ys, link, ridge, at, k), Accumulated(xs, ys, link, ridge, other, k), link, at, other,
                     x, ys[k], link(at.Score(x)), link(other.Score(x)), other.a - at.a, other.b - at.b,
                     other.Score(x) - at.Score(x));
  }

  lemma GapStepB(xs: seq<real>, ys: seq<real>, link: real -> real, ridge: real, at: Fit, other: Fit, k: nat) returns (gain: real)
    requires k < |xs| == |ys|
    ensures gain == Missed(link, at, other)(xs[k])
    ensures GapB(xs, ys, link, ridge, at, other, k + 1) == GapB(xs, ys, link, ridge, at, other, k) + gain
  {
    gain := RowStepB(Accumulated(xs, ys, link, ridge, at, k), Accumulated(xs, ys, link, ridge, other, k), link, at, other,
                     xs[k], ys[k], other.a - at.a, other.b - at.b);
  }

  lemma GapAExactly(xs: seq<real>, ys: seq<real>, link: real -> real, ridge: real, at: Fit, other: Fit)
    requires |xs| == |ys|
    ensures GapA(xs, ys, link, ridge, at, other, |xs|) == Over(xs, TimesX(Missed(link, at, other)), |xs|)
  {
    var value := (k: nat) => if k <= |xs| then GapA(xs, ys, link, ridge, at, other, k) else 0.0;
    PenaltyMisses(ridge, at, other);
    forall j | 0 <= j < |xs|
      ensures value(j + 1) == value(j) + TimesX(Missed(link, at, other))(xs[j])
    {
      var gain := GapStepA(xs, ys, link, ridge, at, other, j);
    }
    OverTelescopes(xs, TimesX(Missed(link, at, other)), value, |xs|);
  }

  lemma GapBExactly(xs: seq<real>, ys: seq<real>, link: real -> real, ridge: real, at: Fit, other: Fit)
    requires |xs| == |ys|
    ensures GapB(xs, ys, link, ridge, at, other, |xs|) == Over(xs, Missed(link, at, other), |xs|)
  {
    var value := (k: nat) => if k <= |xs| then GapB(xs, ys, link, ridge, at, other, k) else 0.0;
    PenaltyMisses(ridge, at, other);
    forall j | 0 <= j < |xs|
      ensures value(j + 1) == value(j) + Missed(link, at, other)(xs[j])
    {
      var gain := GapStepB(xs, ys, link, ridge, at, other, j);
    }
    OverTelescopes(xs, Missed(link, at, other), value, |xs|);
  }

  lemma AbsProduct(x: real, y: real, bound: real)
    requires Abs(x) <= bound
    ensures Abs(x * y) <= bound * Abs(y)
  {
    ProductNonNegative(bound - x, Abs(y), (bound - x) * Abs(y));
    ProductNonNegative(bound + x, Abs(y), (bound + x) * Abs(y));
  }

  lemma MissedIsAllowed(link: real -> real, slack: real -> real, at: Fit, other: Fit, x: real)
    requires BendsBy(link, slack)
    ensures Abs(Missed(link, at, other)(x)) <= Allowed(slack, at, other)(x)
  {
  }

  lemma TimesXBounded(f: real -> real, bound: real -> real)
    requires forall x :: Abs(f(x)) <= bound(x)
    ensures forall x :: Abs(TimesX(f)(x)) <= TimesAbsX(bound)(x)
  {
    forall x
      ensures Abs(TimesX(f)(x)) <= TimesAbsX(bound)(x)
    {
      AbsProduct(f(x), x, bound(x));
    }
  }

  lemma MissesBounded(xs: seq<real>, f: real -> real, bound: real -> real)
    requires forall x :: Abs(f(x)) <= bound(x)
    ensures Abs(Over(xs, f, |xs|)) <= Over(xs, bound, |xs|)
    ensures Abs(Over(xs, TimesX(f), |xs|)) <= Over(xs, TimesAbsX(bound), |xs|)
  {
    TimesXBounded(f, bound);
    OverBounded(xs, f, bound, |xs|);
    OverBounded(xs, TimesX(f), TimesAbsX(bound), |xs|);
  }

  /** The accumulated Hessian is the derivative of the accumulated gradient: from one parameter pair to another
      the gradient changes by the Hessian times the difference, up to the rows' slack. */
  lemma HessianMovesGradient(xs: seq<real>, ys: seq<real>, link: real -> real, slack: real -> real, ridge: real, at: Fit,
                             other: Fit)
    requires |xs| == |ys| && BendsBy(link, slack)
    ensures Abs(GapA(xs, ys, link, ridge, at, other, |xs|)) <= Over(xs, TimesAbsX(Allowed(slack, at, other)), |xs|)
    ensures Abs(GapB(xs, ys, link, ridge, at, other, |xs|)) <= Over(xs, Allowed(slack, at, other), |xs|)
  {
    forall x
      ensures Abs(Missed(link, at, other)(x)) <= Allowed(slack, at, other)(x)
    {
      MissedIsAllowed(link, slack, at, other, x);
    }
    MissesBounded(xs, Missed(link, at, other), Allowed(slack, at, other));
    GapAExactly(xs, ys, link, ridge, at, other);
    GapBExactly(xs, ys, link, ridge, at, other);
  }

  // ----- The iteration --------------------------------------------------------------------------

  function Update(n: Normal, at: Fit): Fit
    requires n.Det() > SINGULAR
  {
    Fit(at.a - NewtonStep(n).da, at.b - NewtonStep(n).db)
  }

  /** `n` Newton steps from (1, 0). */
  function Newton(xs: seq<real>, ys: seq<real>, link: real -> real, ridge: real, n: nat): Fit
    requires |xs| == |ys|
  {
    if n == 0 then Fit(1.0, 0.0)
    else
      var at := Newton(xs, ys, link, ridge, n - 1);
      var equations := Equations(xs, ys, link, ridge, at);
      if equations.Det() > SINGULAR then Update(equations, at) else at
  }

  /** The ridges under which the singular exit never fires, whatever the rows: the square must exceed
      the tolerance. The default, 1/1000, is well inside. */
  lemma RidgeIsRegular(xs: seq<real>, ys: seq<real>, link: real -> real, ridge: real, at: Fit)
    requires |xs| == |ys| && IsLink(link) && ridge > 0.000001
    ensures Equations(xs, ys, link, ridge, at).Det() > SINGULAR
  {
    DeterminantFloor(xs, ys, link, ridge, at, |xs|);
    SquareAboveTolerance(ridge);
  }

  lemma SquareAboveTolerance(ridge: real)
    requires ridge > 0.000001
    ensures ridge * ridge > SINGULAR
  {
    ProductPositive(ridge - 0.000001, ridge + 0.000001, (ridge - 0.000001) * (ridge + 0.000001));
    assert (ridge - 0.000001) * (ridge + 0.000001) == ridge * ridge - SINGULAR;
  }

  /** The bound is exact: with any smaller ridge, having no rows is already singular. */
  lemma SmallRidgeIsSingular(link: real -> real, ridge: real, at: Fit)
    requires 0.0 <= ridge <= 0.000001
    ensures Equations([], [], link, ridge, at).Det() <= SINGULAR
  {
    ProductNonNegative(0.000001 - ridge, 0.000001 + ridge, (0.000001 - ridge) * (0.000001 + ridge));
    assert (0.000001 - ridge) * (0.000001 + ridge) == SINGULAR - ridge * ridge;
    assert Equations([], [], link, ridge, at) == Penalty(ridge, at.a, at.b);
    assert Penalty(ridge, at.a, at.b).Det() == ridge * ridge;
  }

  /** The step taken from the `i`-th iterate is below the stopping tolerance. */
  ghost predicate SettledAt(xs: seq<real>, ys: seq<real>, link: real -> real, ridge: real, i: nat)
    requires |xs| == |ys|
  {
    var n := Equations(xs, ys, link, ridge, Newton(xs, ys, link, ridge, i));
    && n.Det() > 0.000000000001
    && Abs(NewtonStep(n).da) < 0.000000001
    && Abs(NewtonStep(n).db) < 0.000000001
  }

  lemma NextIterate(xs: seq<real>, ys: seq<real>, link: real -> real, ridge: real, k: nat, n: Normal)
    requires |xs| == |ys| && n == Equations(xs, ys, link, ridge, Newton(xs, ys, link, ridge, k)) && n.Det() > SINGULAR
    ensures Newton(xs, ys, link, ridge, k + 1) == Update(n, Newton(xs, ys, link, ridge, k))
    ensures SettledAt(xs, ys, link, ridge, k) <==> NewtonStep(n).Small()
  {
  }

  lemma NegatedStep(h1: real, h2: real, d1: real, d2: real, g: real)
    requires h1 * d1 + h2 * d2 == g
    ensures h1 * -d1 + h2 * -d2 == -g
  {
  }

  /** The next iterate cancels the gradient under the Hessian of the present one. */
  lemma UpdateCancelsGradient(n: Normal, at: Fit, m: Normal, da: real, db: real)
    requires n.Det() > SINGULAR && da == Update(n, at).a - at.a && db == Update(n, at).b - at.b
    ensures MissA(n, m, da, db) == m.ga && MissB(n, m, da, db) == m.gb
  {
    var s := NewtonStep(n);
    StepSolvesSystem(n);
    NegatedStep(n.haa, n.hab, s.da, s.db, n.ga);
    NegatedStep(n.hab, n.hbb, s.da, s.db, n.gb);
  }

  lemma GapAfterStep(xs: seq<real>, ys: seq<real>, link: real -> real, ridge: real, at: Fit, next: Fit)
    requires |xs| == |ys| && Equations(xs, ys, link, ridge, at).Det() > SINGULAR
    requires next == Update(Equations(xs, ys, link, ridge, at), at)
    ensures GapA(xs, ys, link, ridge, at, next, |xs|) == Equations(xs, ys, link, ridge, next).ga
    ensures GapB(xs, ys, link, ridge, at, next, |xs|) == Equations(xs, ys, link, ridge, next).gb
  {
    UpdateCancelsGradient(Equations(xs, ys, link, ridge, at), at, Equations(xs, ys, link, ridge, next),
                          next.a - at.a, next.b - at.b);
  }

  /** After a Newton step what is left of the gradient is the rows' slack over that step, of second order in it. */
  lemma NewtonStepSquaresError(xs: seq<real>, ys: seq<real>, link: real -> real, slack: real -> real, ridge: real, at: Fit,
                               next: Fit)
    requires |xs| == |ys| && BendsBy(link, slack) && Equations(xs, ys, link, ridge, at).Det() > SINGULAR
    requires next == Update(Equations(xs, ys, link, ridge, at), at)
    ensures Abs(Equations(xs, ys, link, ridge, next).ga) <= Over(xs, TimesAbsX(Allowed(slack, at, next)), |xs|)
    ensures Abs(Equations(xs, ys, link, ridge, next).gb) <= Over(xs, Allowed(slack, at, next), |xs|)
  {
    HessianMovesGradient(xs, ys, link, slack, ridge, at, next);
    GapAfterStep(xs, ys, link, ridge, at, next);
  }

  /** The inner loop over the rows. */
  method Accumulate(xs: seq<real>, ys: seq<real>, link: real -> real, ridge: real, at: Fit) returns (n: Normal)
    requires |xs| == |ys|
    ensures n == Equations(xs, ys, link, ridge, at)
  {
    n := Penalty(ridge, at.a, at.b);
    for k := 0 to |xs|
      invariant n == Accumulated(xs, ys, link, ridge, at, k)
    {
      var p := link(at.Score(xs[k]));
      n := AddRow(n, xs[k], ys[k], p);
    }
  }

  /** `fit_platt`: the iterate it returns, and why it stopped. Above the exact ridge bound the loop runs
      on until a step is small, and stops at the first such step. */
  method FitPlatt(xs: seq<real>, ys: seq<real>, link: real -> real, ridge: real, iterations: nat)
    returns (fit: Fit, steps: nat)
    requires |xs| == |ys| && IsLink(link)
    ensures steps <= iterations
    ensures steps == 0 ==> fit.a == 1.0 && fit.b == 0.0
    ensures fit == Newton(xs, ys, link, ridge, steps)
    ensures forall i :: 0 <= i < steps - 1 ==> !SettledAt(xs, ys, link, ridge, i)
    ensures steps < iterations ==>
      || Equations(xs, ys, link, ridge, fit).Det() <= SINGULAR
      || (steps > 0 && SettledAt(xs, ys, link, ridge, steps - 1))
    ensures steps < iterations && ridge > 0.000001 ==>
      steps > 0 && SettledAt(xs, ys, link, ridge, steps - 1)
  {
    fit, steps := Fit(1.0, 0.0), 0;
    ghost var settled := false;
    while steps < iterations
      invariant !settled && steps <= iterations
      invariant fit == Newton(xs, ys, link, ridge, steps)
      invariant forall i :: 0 <= i < steps ==> !SettledAt(xs, ys, link, ridge, i)
    {
      var n := Accumulate(xs, ys, link, ridge, fit);
      if n.Det() <= SINGULAR {
        break;
      }
      NextIterate(xs, ys, link, ridge, steps, n);
      var step := NewtonStep(n);
      fit, steps := Update(n, fit), steps + 1;
      if step.Small() {
        settled := true;
        break;
      }
    }
    if ridge > 0.000001 {
      RidgeIsRegular(xs, ys, link, ridge, fit);
    }
  }
}
