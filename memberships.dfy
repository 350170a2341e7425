/** Discretised membership functions (fuzzy/memberships.py).

    A membership function samples a domain `[xMin, xMax]` on the grid
    `xMin + k * xStep`, k = 0 .. n-1, and keeps one membership value per grid
    point. The grid is identified by index: the step is assumed to divide the
    domain, so the last grid point is `xMax` itself. The pure specification
    works on the value `MF` of such a function; the class `Membership` holds
    the samples in an array that the engine updates in place. */
module Memberships {
  import opened Util
  import opened Wrappers

  // ---------------------------------------------------------------------------
  // The value of a membership function
  // ---------------------------------------------------------------------------

  /** The grid origin, the grid step and the samples `mu[k]` at `xMin + k * xStep`. */
  datatype MF = MF(xMin: real, xStep: real, mu: seq<real>)

  predicate WellFormed(m: MF) {
    m.xStep > 0.0 && |m.mu| > 0
  }

  /** Every sample lies in [0, 1]. */
  predicate InUnit(m: MF) {
    forall k :: 0 <= k < |m.mu| ==> 0.0 <= m.mu[k] <= 1.0
  }

  function GridPointOf(xMin: real, xStep: real, k: int): real {
    xMin + k as real * xStep
  }

  /** The grid `x_qual` of `n` samples. */
  function GridOf(xMin: real, xStep: real, n: nat): (g: seq<real>)
    ensures |g| == n
  {
    seq(n, k => GridPointOf(xMin, xStep, k))
  }

  function GridPoint(m: MF, k: int): real {
    GridPointOf(m.xMin, m.xStep, k)
  }

  function Grid(m: MF): seq<real> {
    GridOf(m.xMin, m.xStep, |m.mu|)
  }

  function XMax(m: MF): real {
    GridPoint(m, |m.mu| - 1)
  }

  /** A positive step makes the grid strictly increasing. */
  lemma {:induction false} GridIncreasing(xMin: real, xStep: real, n: nat)
    requires xStep > 0.0
    ensures StrictlyIncreasing(GridOf(xMin, xStep, n))
  {
    var g := GridOf(xMin, xStep, n);
    forall i, j | 0 <= i < j < n
      ensures g[i] < g[j]
    {
      MulPositive((j - i) as real, xStep);
      assert g[j] - g[i] == (j - i) as real * xStep;
    }
  }

  lemma {:induction false} MulPositive(a: real, b: real)
    requires a > 0.0 && b > 0.0
    ensures a * b > 0.0
  {
  }

  lemma {:induction false} MulNonNegative(a: real, b: real)
    requires a >= 0.0 && b >= 0.0
    ensures a * b >= 0.0
  {
  }

  lemma {:induction false} DivNonNegative(a: real, b: real)
    requires a >= 0.0 && b > 0.0
    ensures a / b >= 0.0
  {
  }

  lemma {:induction false} DivSub(a: real, b: real, d: real)
    requires d != 0.0
    ensures (a - b) / d == a / d - b / d
  {
  }

  lemma {:induction false} DivSelf(d: real)
    requires d != 0.0
    ensures d / d == 1.0
  {
  }

  /** The straight line through `(x0, a)` and `(x1, b)`, evaluated at `x`. */
  function Lerp(a: real, b: real, x0: real, x1: real, x: real): real
    requires x0 < x1
  {
    a + (b - a) / (x1 - x0) * (x - x0)
  }

  /** Between its two end points the line stays between the two values. */
  lemma {:induction false} LerpBetween(a: real, b: real, x0: real, x1: real, x: real)
    requires x0 < x1 && x0 <= x <= x1
    ensures a <= b ==> a <= Lerp(a, b, x0, x1, x) <= b
    ensures b <= a ==> b <= Lerp(a, b, x0, x1, x) <= a
  {
    var t := (x - x0) / (x1 - x0);
    DivNonNegative(x - x0, x1 - x0);
    DivSub(x1 - x0, x - x0, x1 - x0);
    DivSelf(x1 - x0);
    DivNonNegative(x1 - x, x1 - x0);
    assert Lerp(a, b, x0, x1, x) == a + (b - a) * t;
    if a <= b {
      MulNonNegative(b - a, t);
      MulNonNegative(b - a, 1.0 - t);
    } else {
      MulNonNegative(a - b, t);
      MulNonNegative(a - b, 1.0 - t);
    }
  }

  // ---------------------------------------------------------------------------
  // Point evaluation
  // ---------------------------------------------------------------------------

  /** Where `x` sits on a well-formed grid: its floor index `i` has
      `g[i] <= x`, and unless `x` is that grid point, `i + 1` is a grid index
      with `x < g[i + 1]`. */
  lemma {:induction false} CellOf(m: MF, x: real)
    requires WellFormed(m)
    requires m.xMin <= x <= XMax(m)
    ensures var i := FloorIndex(Grid(m), x);
      Grid(m)[i] <= x &&
      (x != Grid(m)[i] ==> i + 1 < |m.mu| && x < Grid(m)[i + 1])
  {
  }

  /** interp: 0 outside the domain; the stored sample on a grid point;
      otherwise the straight line between the two neighbouring samples. */
  function Interp(m: MF, x: real): (r: real)
    requires WellFormed(m)
    ensures x < m.xMin || XMax(m) < x ==> r == 0.0
    ensures InUnit(m) ==> 0.0 <= r <= 1.0
  {
    if x < m.xMin || x > XMax(m) then 0.0
    else
      var g := Grid(m);
      var i := FloorIndex(g, x);
      if x == g[i] then m.mu[i]
      else
        CellOf(m, x);
        LerpBetween(m.mu[i], m.mu[i + 1], g[i], g[i + 1], x);
        Lerp(m.mu[i], m.mu[i + 1], g[i], g[i + 1], x)
  }

  /** Every sample is at least 0; unlike InUnit, samples above 1 (a shape
      built with `max_value > 1`) are allowed. */
  predicate NonNegative(m: MF) {
    forall k :: 0 <= k < |m.mu| ==> 0.0 <= m.mu[k]
  }

  /** With non-negative samples interp is never negative. */
  lemma {:induction false} InterpNonNegative(m: MF, x: real)
    requires WellFormed(m) && NonNegative(m)
    ensures 0.0 <= Interp(m, x)
  {
    if m.xMin <= x <= XMax(m) {
      var g := Grid(m);
      var i := FloorIndex(g, x);
      CellOf(m, x);
      if x != g[i] {
        LerpBetween(m.mu[i], m.mu[i + 1], g[i], g[i + 1], x);
      }
    }
  }

  /** Every grid point lies in the domain. */
  lemma {:induction false} GridPointInDomain(m: MF, k: nat)
    requires WellFormed(m) && k < |m.mu|
    ensures m.xMin <= GridPoint(m, k) <= XMax(m)
  {
    MulNonNegative(k as real, m.xStep);
    MulNonNegative((|m.mu| - 1 - k) as real, m.xStep);
    assert XMax(m) - GridPoint(m, k) == (|m.mu| - 1 - k) as real * m.xStep;
  }

  /** On a grid point, interp returns the stored sample exactly. */
  lemma {:induction false} InterpAtGridPoint(m: MF, k: nat)
    requires WellFormed(m) && k < |m.mu|
    ensures Interp(m, GridPoint(m, k)) == m.mu[k]
  {
    GridPointInDomain(m, k);
    GridIncreasing(m.xMin, m.xStep, |m.mu|);
    FloorIndexOfElement(Grid(m), k);
  }

  /** Between grid points i and i + 1, interp is the straight line through
      the two samples, so its value lies between them. */
  lemma {:induction false} InterpBetweenSamples(m: MF, i: nat, x: real)
    requires WellFormed(m) && i + 1 < |m.mu|
    requires GridPoint(m, i) <= x <= GridPoint(m, i + 1)
    ensures Interp(m, x) == Lerp(m.mu[i], m.mu[i + 1], GridPoint(m, i), GridPoint(m, i + 1), x)
    ensures m.mu[i] <= m.mu[i + 1] ==> m.mu[i] <= Interp(m, x) <= m.mu[i + 1]
    ensures m.mu[i + 1] <= m.mu[i] ==> m.mu[i + 1] <= Interp(m, x) <= m.mu[i]
  {
    var g := Grid(m);
    assert g[i + 1] - g[i] == m.xStep;
    GridPointInDomain(m, i);
    GridPointInDomain(m, i + 1);
    GridIncreasing(m.xMin, m.xStep, |m.mu|);
    LerpBetween(m.mu[i], m.mu[i + 1], g[i], g[i + 1], x);
    LerpAtEnds(m.mu[i], m.mu[i + 1], g[i], g[i + 1]);
    if x == g[i + 1] {
      InterpAtGridPoint(m, i + 1);
    } else if x == g[i] {
      InterpAtGridPoint(m, i);
    } else {
      FloorIndexUnique(g, x, i);
      assert Interp(m, x) == Lerp(m.mu[i], m.mu[i + 1], g[i], g[i + 1], x);
    }
  }

  /** The line takes its two end values at its two end points. */
  lemma {:induction false} LerpAtEnds(a: real, b: real, x0: real, x1: real)
    requires x0 < x1
    ensures Lerp(a, b, x0, x1, x0) == a && Lerp(a, b, x0, x1, x1) == b
  {
    DivMulCancel(b - a, x1 - x0);
  }

  lemma {:induction false} MulDivCancel(a: real, d: real)
    requires d != 0.0
    ensures a * d / d == a
  {
  }

  lemma {:induction false} DivMulCancel(a: real, d: real)
    requires d != 0.0
    ensures a / d * d == a
  {
  }

  // ---------------------------------------------------------------------------
  // Alpha-cuts
  // ---------------------------------------------------------------------------

  /** The grid points among the first `n`, in grid order, whose sample is at
      least `alpha`. */
  function AlphaCutOf(m: MF, alpha: real, n: nat): seq<real>
    requires n <= |m.mu|
  {
    if n == 0 then []
    else AlphaCutOf(m, alpha, n - 1) + (if alpha <= m.mu[n - 1] then [GridPoint(m, n - 1)] else [])
  }

  /** alpha_cut(alpha): all grid points whose sample is at least `alpha`. */
  function AlphaCut(m: MF, alpha: real): seq<real> {
    AlphaCutOf(m, alpha, |m.mu|)
  }

  /** alpha_cut(alpha, x): does `x` pass the cut. */
  predicate AlphaCutAt(m: MF, alpha: real, x: real)
    requires WellFormed(m)
  {
    Interp(m, x) >= alpha
  }

  /** The cut holds exactly the grid points whose sample reaches `alpha`. */
  lemma {:induction false} AlphaCutMembers(m: MF, alpha: real, n: nat, x: real)
    requires n <= |m.mu|
    ensures x in AlphaCutOf(m, alpha, n) <==>
            exists k :: 0 <= k < n && GridPoint(m, k) == x && alpha <= m.mu[k]
  {
    if n > 0 {
      AlphaCutMembers(m, alpha, n - 1, x);
    }
  }

  /** The cut is in ascending grid order and stays below grid point `n`. */
  lemma {:induction false} AlphaCutAscending(m: MF, alpha: real, n: nat)
    requires WellFormed(m) && n <= |m.mu|
    ensures StrictlyIncreasing(AlphaCutOf(m, alpha, n))
    ensures forall y :: y in AlphaCutOf(m, alpha, n) ==> y < GridPoint(m, n)
  {
    if n > 0 {
      AlphaCutAscending(m, alpha, n - 1);
      assert GridPoint(m, n - 1) < GridPoint(m, n);
      if alpha <= m.mu[n - 1] {
        AppendIncreasing(AlphaCutOf(m, alpha, n - 1), GridPoint(m, n - 1));
      }
    }
  }

  lemma {:induction false} AppendIncreasing(a: seq<real>, y: real)
    requires StrictlyIncreasing(a)
    requires forall z :: z in a ==> z < y
    ensures StrictlyIncreasing(a + [y])
  {
    var b := a + [y];
    forall i, j | 0 <= i < j < |b|
      ensures b[i] < b[j]
    {
      if j == |a| {
        assert b[i] in a;
      }
    }
  }

  /** The point form and the list form agree on grid points. */
  lemma {:induction false} AlphaCutForms(m: MF, alpha: real, k: nat)
    requires WellFormed(m) && k < |m.mu|
    ensures AlphaCutAt(m, alpha, GridPoint(m, k)) <==> GridPoint(m, k) in AlphaCut(m, alpha)
  {
    InterpAtGridPoint(m, k);
    AlphaCutMembers(m, alpha, |m.mu|, GridPoint(m, k));
    GridIncreasing(m.xMin, m.xStep, |m.mu|);
    var g := Grid(m);
    if GridPoint(m, k) in AlphaCut(m, alpha) {
      var j :| 0 <= j < |m.mu| && GridPoint(m, j) == GridPoint(m, k) && alpha <= m.mu[j];
      assert g[j] == g[k];
    }
  }

  // ---------------------------------------------------------------------------
  // Complement
  // ---------------------------------------------------------------------------

  /** yager_compliment with w = 1: the standard complement `1 - v` of every
      sample, on the same grid. */
  function Complement(m: MF): MF {
    MF(m.xMin, m.xStep, seq(|m.mu|, k requires 0 <= k < |m.mu| => 1.0 - m.mu[k]))
  }

  /** Complementing twice gives back the original samples. */
  lemma {:induction false} ComplementInvolutive(m: MF)
    ensures Complement(Complement(m)) == m
  {
    assert Complement(Complement(m)).mu == m.mu;
  }

  /** interp inside the domain: the sample at the floor grid point, or the
      line to the next sample. */
  lemma {:induction false} InterpInDomain(m: MF, x: real)
    requires WellFormed(m) && m.xMin <= x <= XMax(m)
    ensures var g := Grid(m); var i := FloorIndex(g, x);
      i < |m.mu| &&
      (x == g[i] ==> Interp(m, x) == m.mu[i]) &&
      (x != g[i] ==> i + 1 < |m.mu| && g[i] < g[i + 1] &&
                     Interp(m, x) == Lerp(m.mu[i], m.mu[i + 1], g[i], g[i + 1], x))
  {
    CellOf(m, x);
  }

  lemma {:induction false} LerpComplement(a: real, b: real, x0: real, x1: real, x: real)
    requires x0 < x1
    ensures Lerp(1.0 - a, 1.0 - b, x0, x1, x) == 1.0 - Lerp(a, b, x0, x1, x)
  {
    DivNeg(b - a, x1 - x0);
    assert (1.0 - b) - (1.0 - a) == -(b - a);
  }

  /** The complement keeps samples in [0, 1] and is 1 - interp everywhere
      inside the domain. */
  lemma {:induction false} ComplementInterp(m: MF, x: real)
    requires WellFormed(m)
    ensures InUnit(m) ==> InUnit(Complement(m))
    ensures m.xMin <= x <= XMax(m) ==> Interp(Complement(m), x) == 1.0 - Interp(m, x)
  {
    var c := Complement(m);
    assert Grid(c) == Grid(m) && XMax(c) == XMax(m);
    if m.xMin <= x <= XMax(m) {
      InterpInDomain(m, x);
      InterpInDomain(c, x);
      var g := Grid(m);
      var i := FloorIndex(g, x);
      if x != g[i] {
        LerpComplement(m.mu[i], m.mu[i + 1], g[i], g[i + 1], x);
      }
    }
  }

  lemma {:induction false} DivNeg(a: real, d: real)
    requires d != 0.0
    ensures (-a) / d == -(a / d)
  {
  }

  // ---------------------------------------------------------------------------
  // Centroid
  // ---------------------------------------------------------------------------

  /** The sum of `xs[k] * ws[k]` over the first `n` positions, accumulated in order. */
  function Dot(xs: seq<real>, ws: seq<real>, n: nat): real
    requires n <= |xs| && n <= |ws|
  {
    if n == 0 then 0.0 else Dot(xs, ws, n - 1) + xs[n - 1] * ws[n - 1]
  }

  /** The sum of the first `n` weights, accumulated in order. */
  function Sum(ws: seq<real>, n: nat): real
    requires n <= |ws|
  {
    if n == 0 then 0.0 else Sum(ws, n - 1) + ws[n - 1]
  }

  lemma {:induction false} MulLe(a: real, b: real, w: real)
    requires a <= b && 0.0 <= w
    ensures a * w <= b * w
  {
    MulNonNegative(b - a, w);
  }

  /** With non-negative weights on points in `[lo, hi]`, the weighted sum of
      the points is bracketed by `lo` and `hi` times the total weight. */
  lemma {:induction false} DotBounds(xs: seq<real>, ws: seq<real>, n: nat, lo: real, hi: real)
    requires n <= |xs| && n <= |ws|
    requires forall k :: 0 <= k < n ==> lo <= xs[k] <= hi && 0.0 <= ws[k]
    ensures 0.0 <= Sum(ws, n)
    ensures lo * Sum(ws, n) <= Dot(xs, ws, n)
    ensures Dot(xs, ws, n) <= hi * Sum(ws, n)
  {
    if n > 0 {
      DotBounds(xs, ws, n - 1, lo, hi);
      var s, d, x, w := Sum(ws, n - 1), Dot(xs, ws, n - 1), xs[n - 1], ws[n - 1];
      MulLe(lo, x, w);
      MulLe(x, hi, w);
      assert Sum(ws, n) == s + w && Dot(xs, ws, n) == d + x * w;
      assert lo * (s + w) == lo * s + lo * w;
      assert hi * (s + w) == hi * s + hi * w;
    }
  }

  /** A weighted mean of points in `[lo, hi]` lies in `[lo, hi]`. */
  lemma {:induction false} WeightedMeanBounds(xs: seq<real>, ws: seq<real>, n: nat, lo: real, hi: real)
    requires n <= |xs| && n <= |ws|
    requires forall k :: 0 <= k < n ==> lo <= xs[k] <= hi && 0.0 <= ws[k]
    requires Sum(ws, n) != 0.0
    ensures lo <= Dot(xs, ws, n) / Sum(ws, n) <= hi
  {
    DotBounds(xs, ws, n, lo, hi);
    MeanBetween(Dot(xs, ws, n), Sum(ws, n), lo, hi);
  }

  /** `d / s` lies in `[lo, hi]` when `d` lies in `[lo * s, hi * s]` and `s > 0`. */
  lemma {:induction false} MeanBetween(d: real, s: real, lo: real, hi: real)
    requires s > 0.0 && lo * s <= d <= hi * s
    ensures lo <= d / s <= hi
  {
    DivNonNegative(d - lo * s, s);
    DivNonNegative(hi * s - d, s);
    DivSub(d, lo * s, s);
    DivSub(hi * s, d, s);
    MulDivCancel(lo, s);
    MulDivCancel(hi, s);
  }

  /** How many points `np.arange(xMin, xMax, dx)` yields: ceil((xMax - xMin) / dx). */
  function SampleCount(m: MF, dx: real): nat
    requires dx > 0.0
  {
    var y := (XMax(m) - m.xMin) / dx;
    if y <= 0.0 then 0
    else if y.Floor as real == y then y.Floor
    else y.Floor + 1
  }

  /** The resampling points `xMin + k * dx` of the continuous centroid. */
  function SamplePoints(m: MF, dx: real): seq<real>
    requires dx > 0.0
  {
    GridOf(m.xMin, dx, SampleCount(m, dx))
  }

  /** The weights `interp(x) * dx` of the continuous centroid. */
  function SampleWeights(m: MF, dx: real): (ws: seq<real>)
    requires WellFormed(m) && dx > 0.0
    ensures |ws| == SampleCount(m, dx)
  {
    var xs := SamplePoints(m, dx);
    seq(|xs|, k requires 0 <= k < |xs| => Interp(m, xs[k]) * dx)
  }

  /** The weight at the `k`-th resampling point `x` is `interp(x) * dx`. */
  lemma {:induction false} SampleWeightAt(m: MF, dx: real, k: nat, x: real, w: real)
    requires WellFormed(m) && dx > 0.0 && k < SampleCount(m, dx)
    requires x == SamplePoints(m, dx)[k] && w == Interp(m, x) * dx
    ensures SampleWeights(m, dx)[k] == w
  {
    var xs := SamplePoints(m, dx);
    assert |xs| == SampleCount(m, dx);
  }

  /** One step of a weighted sum and its total. */
  lemma {:induction false} MomentStep(xs: seq<real>, ws: seq<real>, k: nat, num: real, den: real, x: real, w: real)
    requires k < |xs| && k < |ws| && x == xs[k] && w == ws[k]
    requires num == Dot(xs, ws, k) && den == Sum(ws, k)
    ensures num + x * w == Dot(xs, ws, k + 1) && den + w == Sum(ws, k + 1)
  {
  }

  /** centroid(dx): for `dx <= 0` the discrete weighted mean of the grid
      points, otherwise the left Riemann weighted mean over `xMin + k * dx`.
      A zero total weight has no centroid. */
  function CentroidOf(m: MF, dx: real): Option<real>
    requires WellFormed(m)
  {
    if dx <= 0.0 then
      var s := Sum(m.mu, |m.mu|);
      if s == 0.0 then None else Some(Dot(Grid(m), m.mu, |m.mu|) / s)
    else
      var xs, ws := SamplePoints(m, dx), SampleWeights(m, dx);
      var s := Sum(ws, |ws|);
      if s == 0.0 then None else Some(Dot(xs, ws, |ws|) / s)
  }

  /** Every resampling point lies in the domain. */
  lemma {:induction false} SamplePointsInDomain(m: MF, dx: real, k: nat)
    requires WellFormed(m) && dx > 0.0 && k < SampleCount(m, dx)
    ensures m.xMin <= SamplePoints(m, dx)[k] <= XMax(m)
  {
    var y := (XMax(m) - m.xMin) / dx;
    assert (k as real) < y;
    MulLe(k as real, y, dx);
    MulNonNegative(k as real, dx);
    DivMulCancel(XMax(m) - m.xMin, dx);
  }

  /** With non-negative samples, a centroid, when there is one, lies in the domain. */
  lemma {:induction false} CentroidInDomain(m: MF, dx: real)
    requires WellFormed(m) && NonNegative(m)
    requires CentroidOf(m, dx).Some?
    ensures m.xMin <= CentroidOf(m, dx).value <= XMax(m)
  {
    if dx <= 0.0 {
      forall k | 0 <= k < |m.mu|
        ensures m.xMin <= Grid(m)[k] <= XMax(m) && 0.0 <= m.mu[k]
      {
        GridPointInDomain(m, k);
      }
      WeightedMeanBounds(Grid(m), m.mu, |m.mu|, m.xMin, XMax(m));
    } else {
      var xs, ws := SamplePoints(m, dx), SampleWeights(m, dx);
      forall k | 0 <= k < |ws|
        ensures m.xMin <= xs[k] <= XMax(m) && 0.0 <= ws[k]
      {
        SamplePointsInDomain(m, dx, k);
        InterpNonNegative(m, xs[k]);
        MulNonNegative(Interp(m, xs[k]), dx);
      }
      WeightedMeanBounds(xs, ws, |ws|, m.xMin, XMax(m));
    }
  }

  // ---------------------------------------------------------------------------
  // Triangle and trapezoid shapes
  // ---------------------------------------------------------------------------

  /** The rising side from `(p0, 0)` to `(p1, mv)`; the constant `mv` when
      the two corners coincide. */
  function LeftLine(p0: real, p1: real, mv: real, x: real): real {
    if p1 == p0 then mv else mv / (p1 - p0) * (x - p0)
  }

  /** The falling side from `(p2, mv)` to `(p3, 0)`; the constant `mv` when
      the two corners coincide. */
  function RightLine(p2: real, p3: real, mv: real, x: real): real {
    if p3 == p2 then mv else -mv / (p3 - p2) * (x - p3)
  }

  lemma {:induction false} LeftLineAtCorners(p0: real, p1: real, mv: real)
    ensures p0 != p1 ==> LeftLine(p0, p1, mv, p0) == 0.0
    ensures LeftLine(p0, p1, mv, p1) == mv
  {
    if p0 != p1 {
      DivMulCancel(mv, p1 - p0);
    }
  }

  lemma {:induction false} RightLineAtCorners(p2: real, p3: real, mv: real)
    ensures RightLine(p2, p3, mv, p2) == mv
    ensures p2 != p3 ==> RightLine(p2, p3, mv, p3) == 0.0
  {
    if p2 != p3 {
      DivNeg(mv, p3 - p2);
      DivMulCancel(mv, p3 - p2);
      assert -mv / (p3 - p2) * (p2 - p3) == mv / (p3 - p2) * (p3 - p2);
    }
  }

  /** The trapezoid with corners `p[0] <= p[1] <= p[2] <= p[3]` and height
      `mv`: 0 outside `[p[0], p[3]]`, the two sides, and the flat top. */
  function TrapezoidValue(p: seq<real>, mv: real, x: real): real
    requires |p| == 4
  {
    if x < p[0] then 0.0
    else if x < p[1] then LeftLine(p[0], p[1], mv, x)
    else if x <= p[2] then mv
    else if x <= p[3] then RightLine(p[2], p[3], mv, x)
    else 0.0
  }

  /** The triangle with corners `p[0] <= p[1] <= p[2]` and height `mv`. */
  function TriangleValue(p: seq<real>, mv: real, x: real): real
    requires |p| == 3
  {
    if x < p[0] then 0.0
    else if x < p[1] then LeftLine(p[0], p[1], mv, x)
    else if x <= p[2] then RightLine(p[1], p[2], mv, x)
    else 0.0
  }

  /** State of the walk along the grid that fills a shape: which corners
      have been met, whether the walk has stopped, and the samples so far. */
  datatype Walk = Walk(reached: seq<bool>, stopped: bool, mu: seq<real>)

  /** One grid point of the trapezoid walk: each side whose start corner has
      been met and whose end corner has not writes the sample in turn,
      marking its end corner when `x` is on it; the walk stops once `x` is
      past the last corner. */
  function TrapezoidVisit(w: Walk, k: nat, x: real, p: seq<real>, mv: real): (w': Walk)
    requires |p| == 4 && |w.reached| == 4 && k < |w.mu|
    ensures |w'.reached| == 4 && |w'.mu| == |w.mu|
  {
    var r0 := w.reached[0] || x == p[0];
    var a := r0 && !w.reached[1];
    var r1 := w.reached[1] || (a && x == p[1]);
    var mu1 := if a then w.mu[k := LeftLine(p[0], p[1], mv, x)] else w.mu;
    var b := r1 && !w.reached[2];
    var r2 := w.reached[2] || (b && x == p[2]);
    var mu2 := if b then mu1[k := mv] else mu1;
    var c := r2 && !w.reached[3];
    var r3 := w.reached[3] || (c && x == p[3]);
    var mu3 := if c then mu2[k := RightLine(p[2], p[3], mv, x)] else mu2;
    Walk([r0, r1, r2, r3], x > p[3], mu3)
  }

  /** The trapezoid walk after the first `i` grid points of `g`. */
  function TrapezoidWalk(g: seq<real>, p: seq<real>, mv: real, i: nat): (w: Walk)
    requires |p| == 4 && i <= |g|
    ensures |w.reached| == 4 && |w.mu| == |g|
  {
    if i == 0 then Walk([false, false, false, false], false, seq(|g|, _ => 0.0))
    else
      var w := TrapezoidWalk(g, p, mv, i - 1);
      if w.stopped then w else TrapezoidVisit(w, i - 1, g[i - 1], p, mv)
  }

  /** One grid point of the triangle walk (two sides, three corners). */
  function TriangleVisit(w: Walk, k: nat, x: real, p: seq<real>, mv: real): (w': Walk)
    requires |p| == 3 && |w.reached| == 3 && k < |w.mu|
    ensures |w'.reached| == 3 && |w'.mu| == |w.mu|
  {
    var r0 := w.reached[0] || x == p[0];
    var a := r0 && !w.reached[1];
    var r1 := w.reached[1] || (a && x == p[1]);
    var mu1 := if a then w.mu[k := LeftLine(p[0], p[1], mv, x)] else w.mu;
    var b := r1 && !w.reached[2];
    var r2 := w.reached[2] || (b && x == p[2]);
    var mu2 := if b then mu1[k := RightLine(p[1], p[2], mv, x)] else mu1;
    Walk([r0, r1, r2], x > p[2], mu2)
  }

  /** The triangle walk after the first `i` grid points of `g`. */
  function TriangleWalk(g: seq<real>, p: seq<real>, mv: real, i: nat): (w: Walk)
    requires |p| == 3 && i <= |g|
    ensures |w.reached| == 3 && |w.mu| == |g|
  {
    if i == 0 then Walk([false, false, false], false, seq(|g|, _ => 0.0))
    else
      var w := TriangleWalk(g, p, mv, i - 1);
      if w.stopped then w else TriangleVisit(w, i - 1, g[i - 1], p, mv)
  }

  /** Once the walk has stopped it no longer changes. */
  lemma {:induction false} TrapezoidWalkStopped(g: seq<real>, p: seq<real>, mv: real, i: nat, j: nat)
    requires |p| == 4 && i <= j <= |g|
    requires TrapezoidWalk(g, p, mv, i).stopped
    ensures TrapezoidWalk(g, p, mv, j) == TrapezoidWalk(g, p, mv, i)
    decreases j - i
  {
    if i < j {
      TrapezoidWalkStopped(g, p, mv, i, j - 1);
    }
  }

  lemma {:induction false} TriangleWalkStopped(g: seq<real>, p: seq<real>, mv: real, i: nat, j: nat)
    requires |p| == 3 && i <= j <= |g|
    requires TriangleWalk(g, p, mv, i).stopped
    ensures TriangleWalk(g, p, mv, j) == TriangleWalk(g, p, mv, i)
    decreases j - i
  {
    if i < j {
      TriangleWalkStopped(g, p, mv, i, j - 1);
    }
  }

  /** Corner `j` of the shape is grid point `ks[j]`, and the corners are in
      grid order. */
  predicate CornersOnGrid(g: seq<real>, p: seq<real>, ks: seq<nat>) {
    && |ks| == |p|
    && (forall j :: 0 <= j < |ks| ==> ks[j] < |g| && g[ks[j]] == p[j])
    && (forall j :: 0 < j < |ks| ==> ks[j - 1] <= ks[j])
  }

  /** One step of the trapezoid walk at grid index `k <= ks[3]`, with the
      corners before `k` reached: the step marks the corners at `k` and
      writes the trapezoid's value at `g[k]` from the first corner on. */
  lemma {:induction false} TrapezoidVisitOnGrid(w: Walk, k: nat, g: seq<real>, p: seq<real>, mv: real, ks: seq<nat>)
    requires StrictlyIncreasing(g) && |p| == 4 && CornersOnGrid(g, p, ks)
    requires |w.reached| == 4 && |w.mu| == |g| && k <= ks[3]
    requires forall j :: 0 <= j < 4 ==> w.reached[j] == (k > ks[j])
    ensures var w' := TrapezoidVisit(w, k, g[k], p, mv);
      && !w'.stopped
      && (forall j :: 0 <= j < 4 ==> w'.reached[j] == (k >= ks[j]))
      && w'.mu == (if k < ks[0] then w.mu else w.mu[k := TrapezoidValue(p, mv, g[k])])
  {
    var x := g[k];
    assert k1: forall j :: 0 <= j < 4 ==> (x == p[j] <==> k == ks[j]) && (x < p[j] <==> k < ks[j]) by {
      forall j | 0 <= j < 4
        ensures (x == p[j] <==> k == ks[j]) && (x < p[j] <==> k < ks[j])
      {
        assert g[ks[j]] == p[j];
      }
    }
    LeftLineAtCorners(p[0], p[1], mv);
    RightLineAtCorners(p[2], p[3], mv);
    assert ks[0] <= ks[1] <= ks[2] <= ks[3];
  }

  /** The trapezoid walk after `i` grid points, when the corners are on the grid. */
  lemma {:induction false} TrapezoidWalkOnGrid(g: seq<real>, p: seq<real>, mv: real, ks: seq<nat>, i: nat)
    requires StrictlyIncreasing(g) && |p| == 4 && CornersOnGrid(g, p, ks) && i <= |g|
    ensures var w := TrapezoidWalk(g, p, mv, i);
      && (w.stopped <==> i > ks[3] + 1)
      && (i <= ks[3] + 1 ==> forall j :: 0 <= j < 4 ==> w.reached[j] == (i > ks[j]))
      && (forall k :: 0 <= k < |g| ==>
            w.mu[k] == if k < i && k <= ks[3] then TrapezoidValue(p, mv, g[k]) else 0.0)
  {
    if i > 0 {
      TrapezoidWalkOnGrid(g, p, mv, ks, i - 1);
      var w, k := TrapezoidWalk(g, p, mv, i - 1), i - 1;
      if k <= ks[3] {
        assert !w.stopped;
        TrapezoidVisitOnGrid(w, k, g, p, mv, ks);
        if k < ks[0] {
          assert g[k] < g[ks[0]];
          assert TrapezoidValue(p, mv, g[k]) == 0.0;
        }
      } else if k == ks[3] + 1 {
        assert !w.stopped;
        assert g[ks[3]] < g[k];
        assert ks[0] <= ks[1] <= ks[2] <= ks[3] < k;
        TrapezoidVisitPast(w, k, g[k], p, mv);
      } else {
        assert w.stopped;
      }
    }
  }

  /** A grid point past the last corner, with every corner reached, only
      stops the walk. */
  lemma {:induction false} TrapezoidVisitPast(w: Walk, k: nat, x: real, p: seq<real>, mv: real)
    requires |p| == 4 && |w.reached| == 4 && k < |w.mu| && x > p[3]
    requires forall j :: 0 <= j < 4 ==> w.reached[j]
    ensures TrapezoidVisit(w, k, x, p, mv) == Walk(w.reached, true, w.mu)
  {
    assert [true, true, true, true] == w.reached;
  }

  /** With its corners on the grid and in order, the trapezoid walk samples
      the trapezoid at every grid point. */
  lemma {:induction false} TrapezoidWalkShape(g: seq<real>, p: seq<real>, mv: real, ks: seq<nat>)
    requires StrictlyIncreasing(g) && |p| == 4 && CornersOnGrid(g, p, ks)
    ensures forall k :: 0 <= k < |g| ==> TrapezoidWalk(g, p, mv, |g|).mu[k] == TrapezoidValue(p, mv, g[k])
  {
    TrapezoidWalkOnGrid(g, p, mv, ks, |g|);
    forall k | ks[3] < k < |g|
      ensures TrapezoidValue(p, mv, g[k]) == 0.0
    {
      assert g[ks[3]] < g[k];
      assert ks[0] <= ks[1] <= ks[2] <= ks[3];
    }
  }

  /** One step of the triangle walk at grid index `k <= ks[2]`. */
  lemma {:induction false} TriangleVisitOnGrid(w: Walk, k: nat, g: seq<real>, p: seq<real>, mv: real, ks: seq<nat>)
    requires StrictlyIncreasing(g) && |p| == 3 && CornersOnGrid(g, p, ks)
    requires |w.reached| == 3 && |w.mu| == |g| && k <= ks[2]
    requires forall j :: 0 <= j < 3 ==> w.reached[j] == (k > ks[j])
    ensures var w' := TriangleVisit(w, k, g[k], p, mv);
      && !w'.stopped
      && (forall j :: 0 <= j < 3 ==> w'.reached[j] == (k >= ks[j]))
      && w'.mu == (if k < ks[0] then w.mu else w.mu[k := TriangleValue(p, mv, g[k])])
  {
    var x := g[k];
    assert forall j :: 0 <= j < 3 ==> (x == p[j] <==> k == ks[j]) && (x < p[j] <==> k < ks[j]) by {
      forall j | 0 <= j < 3
        ensures (x == p[j] <==> k == ks[j]) && (x < p[j] <==> k < ks[j])
      {
        assert g[ks[j]] == p[j];
      }
    }
    LeftLineAtCorners(p[0], p[1], mv);
    RightLineAtCorners(p[1], p[2], mv);
    assert ks[0] <= ks[1] <= ks[2];
  }

  /** The triangle walk after `i` grid points, when the corners are on the grid. */
  lemma {:induction false} TriangleWalkOnGrid(g: seq<real>, p: seq<real>, mv: real, ks: seq<nat>, i: nat)
    requires StrictlyIncreasing(g) && |p| == 3 && CornersOnGrid(g, p, ks) && i <= |g|
    ensures var w := TriangleWalk(g, p, mv, i);
      && (w.stopped <==> i > ks[2] + 1)
      && (i <= ks[2] + 1 ==> forall j :: 0 <= j < 3 ==> w.reached[j] == (i > ks[j]))
      && (forall k :: 0 <= k < |g| ==>
            w.mu[k] == if k < i && k <= ks[2] then TriangleValue(p, mv, g[k]) else 0.0)
  {
    if i > 0 {
      TriangleWalkOnGrid(g, p, mv, ks, i - 1);
      var w := TriangleWalk(g, p, mv, i - 1);
      if i - 1 <= ks[2] {
        TriangleVisitOnGrid(w, i - 1, g, p, mv, ks);
        if i - 1 < ks[0] {
          assert g[i - 1] < g[ks[0]];
        }
      } else if i - 1 == ks[2] + 1 {
        assert g[ks[2]] < g[i - 1];
      }
    }
  }

  /** With its corners on the grid and in order, the triangle walk samples
      the triangle at every grid point. */
  lemma {:induction false} TriangleWalkShape(g: seq<real>, p: seq<real>, mv: real, ks: seq<nat>)
    requires StrictlyIncreasing(g) && |p| == 3 && CornersOnGrid(g, p, ks)
    ensures forall k :: 0 <= k < |g| ==> TriangleWalk(g, p, mv, |g|).mu[k] == TriangleValue(p, mv, g[k])
  {
    TriangleWalkOnGrid(g, p, mv, ks, |g|);
    forall k | ks[2] < k < |g|
      ensures TriangleValue(p, mv, g[k]) == 0.0
    {
      assert g[ks[2]] < g[k];
      assert ks[0] <= ks[1] <= ks[2];
    }
  }

  // ---------------------------------------------------------------------------
  // The membership-function object
  // ---------------------------------------------------------------------------

  /** The domain `[xMin, xMax]` is a whole number of steps `xStep > 0`. */
  predicate Domain(xMin: real, xMax: real, xStep: real) {
    && 0.0 < xStep
    && xMin <= xMax
    && ((xMax - xMin) / xStep).Floor as real == (xMax - xMin) / xStep
  }

  /** The number of grid points of such a domain, `(xMax - xMin) / xStep + 1`. */
  function GridSize(xMin: real, xMax: real, xStep: real): (n: nat)
    requires Domain(xMin, xMax, xStep)
    ensures n > 0 && xMax == GridPointOf(xMin, xStep, n - 1)
  {
    DivNonNegative(xMax - xMin, xStep);
    DivMulCancel(xMax - xMin, xStep);
    ((xMax - xMin) / xStep).Floor + 1
  }

  /** A grid point's floor on its own grid is its index. */
  lemma {:induction false} GridFloorOfPoint(xMin: real, xStep: real, n: nat, k: nat)
    requires xStep > 0.0 && k < n
    ensures FloorIndex(GridOf(xMin, xStep, n), GridPointOf(xMin, xStep, k)) == k
  {
    GridIncreasing(xMin, xStep, n);
    FloorIndexOfElement(GridOf(xMin, xStep, n), k);
  }

  /** A membership function: the domain, the step, and the sample array that
      aggregation overwrites cell by cell. The grid itself never changes. */
  class Membership {
    const xMin: real
    const xMax: real
    const xStep: real
    const membership: array<real>

    ghost predicate Valid() {
      && xStep > 0.0
      && membership.Length > 0
      && xMax == GridPointOf(xMin, xStep, membership.Length - 1)
    }

    /** The function this object currently holds. */
    function Value(): MF
      reads membership
    {
      MF(xMin, xStep, membership[..])
    }

    /** get_input_range: the grid `x_qual`. */
    function GetInputRange(): seq<real> {
      GridOf(xMin, xStep, membership.Length)
    }

    /** A valid object's domain is a whole number of steps. */
    lemma {:induction false} ValidDomain()
      requires Valid()
      ensures Domain(xMin, xMax, xStep) && GridSize(xMin, xMax, xStep) == membership.Length
    {
      var y := (membership.Length - 1) as real;
      assert xMax - xMin == y * xStep;
      MulDivCancel(y, xStep);
      assert (xMax - xMin) / xStep == y;
      assert y.Floor == membership.Length - 1;
    }

    /** __init__: the grid of the domain with every sample 0, or, when a
        generator is given and initialisation is on, the generator's value at
        each grid point clamped into [0, 1]. */
    constructor (xMin: real, xMax: real, xStep: real, memFunc: Option<real -> real>, initMembership: bool)
      requires Domain(xMin, xMax, xStep)
      ensures Valid() && fresh(membership)
      ensures this.xMin == xMin && this.xMax == xMax && this.xStep == xStep
      ensures membership.Length == GridSize(xMin, xMax, xStep)
      ensures forall k :: 0 <= k < membership.Length ==>
        membership[k] == if initMembership && memFunc.Some?
                         then IntoRange(0.0, 1.0, memFunc.value(GridPointOf(xMin, xStep, k)))
                         else 0.0
      ensures InUnit(Value())
    {
      var n := GridSize(xMin, xMax, xStep);
      this.xMin, this.xMax, this.xStep := xMin, xMax, xStep;
      membership := new real[n](_ => 0.0);
      new;
      if initMembership && memFunc.Some? {
        FillClamped(membership, GetInputRange(), memFunc.value);
      }
    }

    /** The initialisation loop of __init__: every sample becomes the
        generator's value at its grid point, clamped into [0, 1]. */
    static method FillClamped(a: array<real>, g: seq<real>, f: real -> real)
      requires |g| == a.Length
      modifies a
      ensures forall k :: 0 <= k < a.Length ==> a[k] == IntoRange(0.0, 1.0, f(g[k]))
    {
      for i := 0 to a.Length
        invariant forall k :: 0 <= k < i ==> a[k] == IntoRange(0.0, 1.0, f(g[k]))
      {
        a[i] := IntoRange(0.0, 1.0, f(g[i]));
      }
    }

    /** set_membership_output: overwrite the sample at the greatest grid
        point at or below `x` (the first one when `x` is below the grid);
        every other sample stays. */
    method SetMembershipOutput(x: real, v: real)
      requires Valid()
      modifies membership
      ensures membership[..] == old(membership[..])[FloorIndex(GetInputRange(), x) := v]
    {
      GridIncreasing(xMin, xStep, membership.Length);
      var _, i := GetClosestValue(GetInputRange(), x);
      membership[i] := v;
    }

    /** alpha_cut(alpha): the grid points, in order, whose sample is at least `alpha`. */
    method AlphaCut(alpha: real) returns (cut: seq<real>)
      requires Valid()
      ensures cut == AlphaCutOf(Value(), alpha, membership.Length)
    {
      var g := GetInputRange();
      cut := [];
      for i := 0 to membership.Length
        invariant cut == AlphaCutOf(Value(), alpha, i)
      {
        if membership[i] >= alpha {
          cut := cut + [g[i]];
        }
      }
    }

    /** yager_compliment with w = 1: a new function on the same grid holding
        `1 - v` for every sample `v`; this object is not changed. */
    method YagerComplement() returns (c: Membership)
      requires Valid()
      ensures c.Valid() && fresh(c.membership)
      ensures c.xMin == xMin && c.xMax == xMax && c.xStep == xStep
      ensures c.Value() == Complement(Value())
    {
      ValidDomain();
      var n := membership.Length;
      c := new Membership(xMin, xMax, xStep, None, false);
      var g := GetInputRange();
      for i := 0 to n
        invariant forall k :: 0 <= k < i ==> c.membership[k] == 1.0 - membership[k]
        invariant forall k :: i <= k < n ==> c.membership[k] == 0.0
      {
        GridFloorOfPoint(xMin, xStep, n, i);
        c.SetMembershipOutput(g[i], 1.0 - membership[i]);
      }
      assert c.membership[..] == Complement(Value()).mu;
    }

    /** centroid(dx): the discrete (dx <= 0) or resampled (dx > 0) weighted
        mean; None when the total weight is zero. */
    method Centroid(dx: real) returns (r: Option<real>)
      requires Valid()
      ensures r == CentroidOf(Value(), dx)
    {
      var numerator, denominator;
      if dx <= 0.0 {
        numerator, denominator := GridMoments();
      } else {
        numerator, denominator := SampledMoments(dx);
      }
      r := if denominator == 0.0 then None else Some(numerator / denominator);
    }

    /** The weighted sum of the grid points and the total of the samples. */
    method GridMoments() returns (numerator: real, denominator: real)
      requires Valid()
      ensures numerator == Dot(Grid(Value()), Value().mu, membership.Length)
      ensures denominator == Sum(Value().mu, membership.Length)
    {
      var g := GetInputRange();
      numerator, denominator := 0.0, 0.0;
      for i := 0 to membership.Length
        invariant numerator == Dot(g, membership[..], i)
        invariant denominator == Sum(membership[..], i)
      {
        numerator := numerator + g[i] * membership[i];
        denominator := denominator + membership[i];
      }
    }

    /** The same sums over the points `xMin + k * dx` with weights
        `interp(x) * dx`. */
    method SampledMoments(dx: real) returns (numerator: real, denominator: real)
      requires Valid() && dx > 0.0
      ensures numerator == Dot(SamplePoints(Value(), dx), SampleWeights(Value(), dx), SampleCount(Value(), dx))
      ensures denominator == Sum(SampleWeights(Value(), dx), SampleCount(Value(), dx))
    {
      var m := Value();
      var xs := SamplePoints(m, dx);
      ghost var ws := SampleWeights(m, dx);
      assert |xs| == |ws|;
      numerator, denominator := 0.0, 0.0;
      for i := 0 to |xs|
        invariant numerator == Dot(xs, ws, i)
        invariant denominator == Sum(ws, i)
      {
        var x := xs[i];
        var w := Interp(m, x) * dx;
        SampleWeightAt(m, dx, i, x, w);
        MomentStep(xs, ws, i, numerator, denominator, x, w);
        numerator := numerator + x * w;
        denominator := denominator + w;
      }
    }

    /** TrapizoidalMembership: walk the grid from the first corner, writing
        the rising side, the flat top at `maxValue` and the falling side, and
        stop once past the last corner. Corners are met by exact equality
        with grid points. */
    constructor Trapezoid(xMin: real, xMax: real, points: seq<real>, xStep: real, maxValue: real)
      requires Domain(xMin, xMax, xStep) && |points| >= 4
      ensures Valid() && fresh(membership)
      ensures this.xMin == xMin && this.xMax == xMax && this.xStep == xStep
      ensures membership[..] == TrapezoidWalk(GetInputRange(), points[..4], maxValue, membership.Length).mu
    {
      var n := GridSize(xMin, xMax, xStep);
      this.xMin, this.xMax, this.xStep := xMin, xMax, xStep;
      membership := new real[n](_ => 0.0);
      new;
      assert membership[..] == seq(n, _ => 0.0);
      WalkTrapezoid(points[..4], maxValue);
    }

    /** The grid loop of the trapezoid walk, from all-zero samples: it
        stops at the first grid point past the last corner. */
    method WalkTrapezoid(p: seq<real>, mv: real)
      requires |p| == 4 && membership[..] == seq(membership.Length, _ => 0.0)
      modifies membership
      ensures membership[..] == TrapezoidWalk(GetInputRange(), p, mv, membership.Length).mu
    {
      var n := membership.Length;
      var g := GetInputRange();
      var reached := [false, false, false, false];
      var i := 0;
      while i < n
        invariant 0 <= i <= n
        invariant TrapezoidWalk(g, p, mv, i) == Walk(reached, false, membership[..])
      {
        var x := g[i];
        reached := TrapezoidStep(i, x, p, mv, reached);
        assert TrapezoidWalk(g, p, mv, i + 1) == Walk(reached, x > p[3], membership[..]);
        if x > p[3] {
          TrapezoidWalkStopped(g, p, mv, i + 1, n);
          break;
        }
        i := i + 1;
      }
    }

    /** The body of the trapezoid walk at grid point `i` (value `x`): mark
        the first corner when met, then let each side whose start corner is
        marked and whose end corner is not write the sample, marking its
        end corner when `x` is on it. */
    method TrapezoidStep(i: nat, x: real, p: seq<real>, mv: real, reached: seq<bool>)
      returns (reached': seq<bool>)
      requires |p| == 4 && |reached| == 4 && i < membership.Length
      modifies membership
      ensures Walk(reached', x > p[3], membership[..])
           == TrapezoidVisit(Walk(reached, false, old(membership[..])), i, x, p, mv)
    {
      reached' := reached;
      if x == p[0] {
        reached' := reached'[0 := true];
      }
      reached' := SideStep(i, x, 0, p[1], LeftLine(p[0], p[1], mv, x), reached');
      reached' := SideStep(i, x, 1, p[2], mv, reached');
      reached' := SideStep(i, x, 2, p[3], RightLine(p[2], p[3], mv, x), reached');
    }

    /** One side of a walk at grid point `i`: when its start corner `s` is
        marked and its end corner is not, it writes `v` as the sample and
        marks the end corner if `x` is on it (`x == pEnd`). */
    method SideStep(i: nat, x: real, s: nat, pEnd: real, v: real, reached: seq<bool>) returns (reached': seq<bool>)
      requires s + 1 < |reached| && i < membership.Length
      modifies membership
      ensures var active := reached[s] && !reached[s + 1];
        && reached' == reached[s + 1 := reached[s + 1] || (active && x == pEnd)]
        && membership[..] == if active then old(membership[..])[i := v] else old(membership[..])
    {
      reached' := reached;
      if reached'[s] && !reached'[s + 1] {
        if x == pEnd {
          reached' := reached'[s + 1 := true];
        }
        membership[i] := v;
      }
    }

    /** TriangleMembership: the same walk with a rising and a falling side. */
    constructor Triangle(xMin: real, xMax: real, points: seq<real>, xStep: real, maxValue: real)
      requires Domain(xMin, xMax, xStep) && |points| >= 3
      ensures Valid() && fresh(membership)
      ensures this.xMin == xMin && this.xMax == xMax && this.xStep == xStep
      ensures membership[..] == TriangleWalk(GetInputRange(), points[..3], maxValue, membership.Length).mu
    {
      var n := GridSize(xMin, xMax, xStep);
      this.xMin, this.xMax, this.xStep := xMin, xMax, xStep;
      membership := new real[n](_ => 0.0);
      new;
      assert membership[..] == seq(n, _ => 0.0);
      WalkTriangle(points[..3], maxValue);
    }

    /** The grid loop of the triangle walk, from all-zero samples: it
        stops at the first grid point past the last corner. */
    method WalkTriangle(p: seq<real>, mv: real)
      requires |p| == 3 && membership[..] == seq(membership.Length, _ => 0.0)
      modifies membership
      ensures membership[..] == TriangleWalk(GetInputRange(), p, mv, membership.Length).mu
    {
      var n := membership.Length;
      var g := GetInputRange();
      var reached := [false, false, false];
      var i := 0;
      while i < n
        invariant 0 <= i <= n
        invariant TriangleWalk(g, p, mv, i) == Walk(reached, false, membership[..])
      {
        var x := g[i];
        reached := TriangleStep(i, x, p, mv, reached);
        assert TriangleWalk(g, p, mv, i + 1) == Walk(reached, x > p[2], membership[..]);
        if x > p[2] {
          TriangleWalkStopped(g, p, mv, i + 1, n);
          break;
        }
        i := i + 1;
      }
    }

    /** The body of the triangle walk at grid point `i` (value `x`). */
    method TriangleStep(i: nat, x: real, p: seq<real>, mv: real, reached: seq<bool>)
      returns (reached': seq<bool>)
      requires |p| == 3 && |reached| == 3 && i < membership.Length
      modifies membership
      ensures Walk(reached', x > p[2], membership[..])
           == TriangleVisit(Walk(reached, false, old(membership[..])), i, x, p, mv)
    {
      reached' := reached;
      if x == p[0] {
        reached' := reached'[0 := true];
      }
      reached' := SideStep(i, x, 0, p[1], LeftLine(p[0], p[1], mv, x), reached');
      reached' := SideStep(i, x, 1, p[2], RightLine(p[1], p[2], mv, x), reached');
    }
  }

  // ---------------------------------------------------------------------------
  // A worked shape
  // ---------------------------------------------------------------------------

  /** The samples of the trapezoid `[0, 0, 50, 60]` on a grid of step 0.5
      from 0 reaching past 60 are the closed-form trapezoid at the grid points. */
  lemma {:induction false} FrontTrapezoidGrid(mu: seq<real>, n: nat, k: nat)
    requires n > 120 && k < n
    requires mu == TrapezoidWalk(GridOf(0.0, 0.5, n), [0.0, 0.0, 50.0, 60.0], 1.0, n).mu
    ensures |mu| == n && mu[k] == TrapezoidValue([0.0, 0.0, 50.0, 60.0], 1.0, k as real * 0.5)
  {
    var g, p, ks := GridOf(0.0, 0.5, n), [0.0, 0.0, 50.0, 60.0], [0, 0, 100, 120];
    GridIncreasing(0.0, 0.5, n);
    assert g[0] == 0.0 && g[100] == 50.0 && g[120] == 60.0;
    assert CornersOnGrid(g, p, ks);
    TrapezoidWalkShape(g, p, 1.0, ks);
  }

  /** Between grid points, interp reads the sample at a grid point. */
  lemma {:induction false} FrontTrapezoidAt(mu: seq<real>, k: nat)
    requires mu == TrapezoidWalk(GridOf(0.0, 0.5, 201), [0.0, 0.0, 50.0, 60.0], 1.0, 201).mu
    requires k < 201
    ensures Interp(MF(0.0, 0.5, mu), k as real * 0.5)
         == TrapezoidValue([0.0, 0.0, 50.0, 60.0], 1.0, k as real * 0.5)
  {
    FrontTrapezoidGrid(mu, 201, k);
    InterpAtGridPoint(MF(0.0, 0.5, mu), k);
  }

  /** Full membership on the flat top, half way down the falling side at
      55, and none past the last corner. */
  lemma {:induction false} FrontTrapezoidSamples(mu: seq<real>)
    requires mu == TrapezoidWalk(GridOf(0.0, 0.5, 201), [0.0, 0.0, 50.0, 60.0], 1.0, 201).mu
    ensures Interp(MF(0.0, 0.5, mu), 10.0) == 1.0
    ensures Interp(MF(0.0, 0.5, mu), 55.0) == 0.5
    ensures Interp(MF(0.0, 0.5, mu), 70.0) == 0.0
  {
    FrontTrapezoidAt(mu, 20);
    FrontTrapezoidAt(mu, 110);
    FrontTrapezoidAt(mu, 140);
  }

  /** The same trapezoid built by the constructor. */
  method FrontTrapezoid() returns (f: Membership)
    ensures f.Valid()
    ensures Interp(f.Value(), 10.0) == 1.0
    ensures Interp(f.Value(), 55.0) == 0.5
    ensures Interp(f.Value(), 70.0) == 0.0
  {
    assert (100.0 - 0.0) / 0.5 == 200.0;
    f := new Membership.Trapezoid(0.0, 100.0, [0.0, 0.0, 50.0, 60.0], 0.5, 1.0);
    assert [0.0, 0.0, 50.0, 60.0][..4] == [0.0, 0.0, 50.0, 60.0];
    FrontTrapezoidSamples(f.membership[..]);
  }
}
