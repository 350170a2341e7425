/** Zadeh-style inference (fuzzy/zadeh_fis.py): four implication operators,
    a relation tabulating one of them over the samples of the antecedent
    functions and the consequent, and max-min composition of new antecedent
    functions with that relation. */
module ZadehFis {
  import opened Wrappers
  import opened Util
  import opened Memberships
  import opened Fis

  // ---------------------------------------------------------------------------
  // Implication operators
  // ---------------------------------------------------------------------------

  datatype Implication = CorrMinOp | CorrProductOp | LukasiewiczOp | ClassicalOp

  /** corr_min: the least of the antecedent values and the consequent value. */
  function CorrMin(a: seq<real>, c: real): (r: real)
    ensures r <= c && forall k :: 0 <= k < |a| ==> r <= a[k]
    ensures r == c || r in a
  {
    var s := a + [c];
    assert forall k :: 0 <= k < |a| ==> a[k] == s[k];
    SeqMin(s)
  }

  /** corr_product: the product of the antecedent values and the
      consequent value, accumulated from 1.0. */
  method CorrProduct(a: seq<real>, c: real) returns (r: real)
    ensures r == Product(a + [c])
  {
    var vs := a + [c];
    r := 1.0;
    for i := 0 to |vs|
      invariant r == Product(vs[..i])
    {
      assert vs[..i + 1] == vs[..i] + [vs[i]];
      ProductSnoc(vs[..i], r, vs[i]);
      r := r * vs[i];
    }
    assert vs[..|vs|] == vs;
  }

  /** lukasiewicz: `min(1, 1 - min(a) + c)`. */
  function Lukasiewicz(a: seq<real>, c: real): real
    requires |a| > 0
  {
    SeqMin([1.0, 1.0 - SeqMin(a) + c])
  }

  /** classical: `max(c, 1 - min(a))`. The minimum of no antecedents is
      +inf, so with none the result is `c`. */
  function Classical(a: seq<real>, c: real): real {
    if a == [] then c else SeqMax([c, 1.0 - SeqMin(a)])
  }

  /** The implication an operator computes. */
  function Imply(op: Implication, a: seq<real>, c: real): real
    requires op == LukasiewiczOp ==> |a| > 0
  {
    match op
    case CorrMinOp => CorrMin(a, c)
    case CorrProductOp => Product(a + [c])
    case LukasiewiczOp => Lukasiewicz(a, c)
    case ClassicalOp => Classical(a, c)
  }

  /** Applies the chosen implication. */
  method Implicate(op: Implication, a: seq<real>, c: real) returns (r: real)
    requires op == LukasiewiczOp ==> |a| > 0
    ensures r == Imply(op, a, c)
  {
    match op
    case CorrMinOp => r := CorrMin(a, c);
    case CorrProductOp => r := CorrProduct(a, c);
    case LukasiewiczOp => r := Lukasiewicz(a, c);
    case ClassicalOp => r := Classical(a, c);
  }

  /** On values in [0, 1], corr_product never exceeds corr_min. */
  lemma {:induction false} CorrProductBelowCorrMin(a: seq<real>, c: real)
    requires InUnitSeq(a) && 0.0 <= c <= 1.0
    ensures 0.0 <= Product(a + [c]) <= CorrMin(a, c)
  {
    var s := a + [c];
    assert InUnitSeq(s);
    ProductBelowMin(s);
    MinFoldIsMin(1.0, s);
    var t := [1.0] + s;
    assert forall k :: 0 <= k < |s| ==> s[k] == t[k + 1];
    assert SeqMin(s) in s;
  }

  /** lukasiewicz is at most 1, and exactly 1 when the consequent value is
      at least the least antecedent value. */
  lemma {:induction false} LukasiewiczBounds(a: seq<real>, c: real)
    requires |a| > 0
    ensures Lukasiewicz(a, c) <= 1.0
    ensures Lukasiewicz(a, c) == 1.0 <==> c >= SeqMin(a)
  {
    SeqMinPair(1.0, 1.0 - SeqMin(a) + c);
  }

  /** classical is at least the consequent value and at least one minus the
      least antecedent value, and stays in [0, 1] on values in [0, 1]. */
  lemma {:induction false} ClassicalBounds(a: seq<real>, c: real)
    requires |a| > 0
    ensures Classical(a, c) >= c && Classical(a, c) >= 1.0 - SeqMin(a)
    ensures InUnitSeq(a) && 0.0 <= c <= 1.0 ==> 0.0 <= Classical(a, c) <= 1.0
  {
    SeqMaxPair(c, 1.0 - SeqMin(a));
  }

  /** Every implication keeps values in [0, 1] in [0, 1]. */
  lemma {:induction false} ImplyInUnit(op: Implication, a: seq<real>, c: real)
    requires op == LukasiewiczOp ==> |a| > 0
    requires InUnitSeq(a) && 0.0 <= c <= 1.0
    ensures 0.0 <= Imply(op, a, c) <= 1.0
  {
    match op
    case CorrMinOp =>
      CorrProductBelowCorrMin(a, c);
      assert Imply(op, a, c) == CorrMin(a, c);
    case CorrProductOp =>
      CorrProductBelowCorrMin(a, c);
      assert Imply(op, a, c) == Product(a + [c]);
    case LukasiewiczOp =>
      var m := SeqMin(a);
      assert 0.0 <= m <= 1.0 by {
        assert m in a;
      }
      SeqMinPair(1.0, 1.0 - m + c);
      assert Imply(op, a, c) == Lukasiewicz(a, c);
    case ClassicalOp =>
      if a != [] {
        ClassicalBounds(a, c);
      }
      assert Imply(op, a, c) == Classical(a, c);
  }

  // ---------------------------------------------------------------------------
  // Max-min composition
  // ---------------------------------------------------------------------------

  /** Folding the maximum over two lists one after the other. */
  lemma {:induction false} MaxFoldAppend(s: real, a: seq<real>, b: seq<real>)
    ensures MaxFold(s, a + b) == MaxFold(MaxFold(s, a), b)
  {
    if b != [] {
      var ab, init, last := a + b, b[..|b| - 1], b[|b| - 1];
      MaxFoldAppend(s, a, init);
      assert ab[..|ab| - 1] == a + init && ab[|ab| - 1] == last;
      var m := MaxFold(s, a + init);
      assert MaxFold(s, ab) == if m < last then last else m;
    } else {
      assert a + b == a;
    }
  }

  /** One step of the running maximum, as `max([m, t])` computes it. */
  lemma {:induction false} MaxFoldSnoc(s: real, ts: seq<real>, t: real)
    ensures MaxFold(s, ts + [t]) == SeqMax([MaxFold(s, ts), t])
  {
    assert (ts + [t])[..|ts|] == ts;
    SeqMaxPair(MaxFold(s, ts), t);
  }

  /** A new antecedent function's value at its own grid point `x`. */
  function Sample(p: MF, x: nat): real
    requires WellFormed(p) && x < |p.mu|
  {
    Interp(p, GridPoint(p, x))
  }

  /** The relation covers the antecedent grids and reaches past consequent index `y`. */
  predicate Reach2(r: seq<seq<real>>, n0: nat, y: nat) {
    |r| == n0 && forall i :: 0 <= i < n0 ==> y < |r[i]|
  }

  predicate Reach3(r: seq<seq<seq<real>>>, n0: nat, n1: nat, y: nat) {
    |r| == n0 && forall i :: 0 <= i < n0 ==> Reach2(r[i], n1, y)
  }

  predicate Reach4(r: seq<seq<seq<seq<real>>>>, n0: nat, n1: nat, n2: nat, y: nat) {
    |r| == n0 && forall i :: 0 <= i < n0 ==> Reach3(r[i], n1, n2, y)
  }

  /** The relation is a full `n0 x n1 x n2` table. */
  predicate Shape3(r: seq<seq<seq<real>>>, n0: nat, n1: nat, n2: nat) {
    && |r| == n0
    && (forall i :: 0 <= i < n0 ==> |r[i]| == n1)
    && (forall i, j :: 0 <= i < n0 && 0 <= j < n1 ==> |r[i][j]| == n2)
  }

  /** The relation is a full `n0 x n1 x n2 x n3` table. */
  predicate Shape4(r: seq<seq<seq<seq<real>>>>, n0: nat, n1: nat, n2: nat, n3: nat) {
    && |r| == n0
    && (forall i :: 0 <= i < n0 ==> Shape3(r[i], n1, n2, n3))
  }

  /** Dimension 1: the terms `min(a'(x), R[x][y])` in grid order. */
  function Terms1(p0: MF, r: seq<seq<real>>, y: nat): (ts: seq<real>)
    requires WellFormed(p0) && Reach2(r, |p0.mu|, y)
    ensures |ts| == |p0.mu|
  {
    seq(|p0.mu|, x requires 0 <= x < |p0.mu| => SeqMin([Sample(p0, x), r[x][y]]))
  }

  /** Dimension 2, first antecedent at `x1`: the terms over the second. */
  function Row2(p0: MF, p1: MF, r: seq<seq<seq<real>>>, y: nat, x1: nat): (ts: seq<real>)
    requires WellFormed(p0) && WellFormed(p1) && x1 < |p0.mu| && Reach3(r, |p0.mu|, |p1.mu|, y)
    ensures |ts| == |p1.mu|
  {
    seq(|p1.mu|, x2 requires 0 <= x2 < |p1.mu| => SeqMin([Sample(p0, x1), Sample(p1, x2), r[x1][x2][y]]))
  }

  /** Dimension 2: the terms for the first `n` values of the first antecedent. */
  function Terms2(p0: MF, p1: MF, r: seq<seq<seq<real>>>, y: nat, n: nat): seq<real>
    requires WellFormed(p0) && WellFormed(p1) && n <= |p0.mu| && Reach3(r, |p0.mu|, |p1.mu|, y)
  {
    if n == 0 then [] else Terms2(p0, p1, r, y, n - 1) + Row2(p0, p1, r, y, n - 1)
  }

  /** Dimension 3, first two antecedents at `x1`, `x2`: the terms over the third. */
  function Row3(p0: MF, p1: MF, p2: MF, r: seq<seq<seq<seq<real>>>>, y: nat, x1: nat, x2: nat): (ts: seq<real>)
    requires WellFormed(p0) && WellFormed(p1) && WellFormed(p2) && x1 < |p0.mu| && x2 < |p1.mu|
    requires Reach4(r, |p0.mu|, |p1.mu|, |p2.mu|, y)
    ensures |ts| == |p2.mu|
  {
    seq(|p2.mu|, x3 requires 0 <= x3 < |p2.mu| =>
      SeqMin([Sample(p0, x1), Sample(p1, x2), Sample(p2, x3), r[x1][x2][x3][y]]))
  }

  /** Dimension 3, first antecedent at `x1`: the terms for the first `n`
      values of the second. */
  function Block3(p0: MF, p1: MF, p2: MF, r: seq<seq<seq<seq<real>>>>, y: nat, x1: nat, n: nat): seq<real>
    requires WellFormed(p0) && WellFormed(p1) && WellFormed(p2) && x1 < |p0.mu| && n <= |p1.mu|
    requires Reach4(r, |p0.mu|, |p1.mu|, |p2.mu|, y)
  {
    if n == 0 then [] else Block3(p0, p1, p2, r, y, x1, n - 1) + Row3(p0, p1, p2, r, y, x1, n - 1)
  }

  /** Dimension 3: the terms for the first `n` values of the first antecedent. */
  function Terms3(p0: MF, p1: MF, p2: MF, r: seq<seq<seq<seq<real>>>>, y: nat, n: nat): seq<real>
    requires WellFormed(p0) && WellFormed(p1) && WellFormed(p2) && n <= |p0.mu|
    requires Reach4(r, |p0.mu|, |p1.mu|, |p2.mu|, y)
  {
    if n == 0 then [] else Terms3(p0, p1, p2, r, y, n - 1) + Block3(p0, p1, p2, r, y, n - 1, |p1.mu|)
  }

  /** Every term at most `c`, with `0 <= c`, keeps the composition in [0, c]. */
  lemma {:induction false} ComposedBetween(ts: seq<real>, c: real)
    requires 0.0 <= c && forall k :: 0 <= k < |ts| ==> ts[k] <= c
    ensures 0.0 <= MaxFold(0.0, ts) <= c
  {
    ZadehOrIsMax(ts);
  }

  /** Dimension 1: an input that is 1 at grid index `j` and 0 elsewhere
      composes to row `j` of a relation with cells in [0, 1]. */
  lemma {:induction false} SingletonComposesToRow(p0: MF, r: seq<seq<real>>, y: nat, j: nat)
    requires WellFormed(p0) && Reach2(r, |p0.mu|, y) && j < |p0.mu|
    requires forall x :: 0 <= x < |p0.mu| ==> p0.mu[x] == if x == j then 1.0 else 0.0
    requires forall x :: 0 <= x < |p0.mu| ==> 0.0 <= r[x][y] <= 1.0
    ensures MaxFold(0.0, Terms1(p0, r, y)) == r[j][y]
  {
    var ts := Terms1(p0, r, y);
    forall x | 0 <= x < |p0.mu|
      ensures ts[x] == if x == j then r[j][y] else 0.0
    {
      SingletonTerm(p0, r, y, j, x);
    }
    MaxOfSingleton(ts, j, r[j][y]);
  }

  /** The running maximum from 0 of terms that are `v >= 0` at `j` and 0
      elsewhere is `v`. */
  lemma {:induction false} MaxOfSingleton(ts: seq<real>, j: nat, v: real)
    requires j < |ts| && 0.0 <= v
    requires forall x :: 0 <= x < |ts| ==> ts[x] == if x == j then v else 0.0
    ensures MaxFold(0.0, ts) == v
  {
    ZadehOrIsMax(ts);
    ComposedBetween(ts, v);
    assert ts[j] <= MaxFold(0.0, ts);
  }

  lemma {:induction false} SingletonTerm(p0: MF, r: seq<seq<real>>, y: nat, j: nat, x: nat)
    requires WellFormed(p0) && Reach2(r, |p0.mu|, y) && x < |p0.mu|
    requires p0.mu[x] == if x == j then 1.0 else 0.0
    requires 0.0 <= r[x][y] <= 1.0
    ensures Terms1(p0, r, y)[x] == if x == j then r[j][y] else 0.0
  {
    InterpAtGridPoint(p0, x);
    SeqMinPair(p0.mu[x], r[x][y]);
  }

  /** Each dimension-2 term is at most its relation cell. */
  lemma {:induction false} Terms2Below(p0: MF, p1: MF, r: seq<seq<seq<real>>>, y: nat, n: nat, c: real)
    requires WellFormed(p0) && WellFormed(p1) && n <= |p0.mu| && Reach3(r, |p0.mu|, |p1.mu|, y)
    requires forall i, j :: 0 <= i < |p0.mu| && 0 <= j < |p1.mu| ==> r[i][j][y] <= c
    ensures forall k :: 0 <= k < |Terms2(p0, p1, r, y, n)| ==> Terms2(p0, p1, r, y, n)[k] <= c
  {
    if n > 0 {
      Terms2Below(p0, p1, r, y, n - 1, c);
      var row := Row2(p0, p1, r, y, n - 1);
      forall x2 | 0 <= x2 < |row|
        ensures row[x2] <= c
      {
        assert [Sample(p0, n - 1), Sample(p1, x2), r[n - 1][x2][y]][2] == r[n - 1][x2][y];
      }
    }
  }

  /** Each dimension-3 term is at most its relation cell. */
  lemma {:induction false} Block3Below(p0: MF, p1: MF, p2: MF, r: seq<seq<seq<seq<real>>>>, y: nat, x1: nat, n: nat, c: real)
    requires WellFormed(p0) && WellFormed(p1) && WellFormed(p2) && x1 < |p0.mu| && n <= |p1.mu|
    requires Reach4(r, |p0.mu|, |p1.mu|, |p2.mu|, y)
    requires forall j, k :: 0 <= j < |p1.mu| && 0 <= k < |p2.mu| ==> r[x1][j][k][y] <= c
    ensures forall k :: 0 <= k < |Block3(p0, p1, p2, r, y, x1, n)| ==> Block3(p0, p1, p2, r, y, x1, n)[k] <= c
  {
    if n > 0 {
      Block3Below(p0, p1, p2, r, y, x1, n - 1, c);
      var row := Row3(p0, p1, p2, r, y, x1, n - 1);
      forall x3 | 0 <= x3 < |row|
        ensures row[x3] <= c
      {
        assert [Sample(p0, x1), Sample(p1, n - 1), Sample(p2, x3), r[x1][n - 1][x3][y]][3] == r[x1][n - 1][x3][y];
      }
    }
  }

  lemma {:induction false} Terms3Below(p0: MF, p1: MF, p2: MF, r: seq<seq<seq<seq<real>>>>, y: nat, n: nat, c: real)
    requires WellFormed(p0) && WellFormed(p1) && WellFormed(p2) && n <= |p0.mu|
    requires Reach4(r, |p0.mu|, |p1.mu|, |p2.mu|, y)
    requires forall i, j, k :: 0 <= i < |p0.mu| && 0 <= j < |p1.mu| && 0 <= k < |p2.mu| ==> r[i][j][k][y] <= c
    ensures forall k :: 0 <= k < |Terms3(p0, p1, p2, r, y, n)| ==> Terms3(p0, p1, p2, r, y, n)[k] <= c
  {
    if n > 0 {
      Terms3Below(p0, p1, p2, r, y, n - 1, c);
      Block3Below(p0, p1, p2, r, y, n - 1, |p1.mu|, c);
    }
  }

  /** Each dimension-1 term is at most its relation cell. */
  lemma {:induction false} Terms1Below(p0: MF, r: seq<seq<real>>, y: nat, c: real)
    requires WellFormed(p0) && Reach2(r, |p0.mu|, y)
    requires forall i :: 0 <= i < |p0.mu| ==> r[i][y] <= c
    ensures forall k :: 0 <= k < |Terms1(p0, r, y)| ==> Terms1(p0, r, y)[k] <= c
  {
    forall x | 0 <= x < |p0.mu|
      ensures Terms1(p0, r, y)[x] <= c
    {
      assert [Sample(p0, x), r[x][y]][1] == r[x][y];
    }
  }

  // ---------------------------------------------------------------------------
  // The relation and the composed consequent
  // ---------------------------------------------------------------------------

  /** One antecedent: cell `[x][y]` is the implication of antecedent sample
      `x` and consequent sample `y`. */
  function Relation1(op: Implication, a0: seq<real>, c: seq<real>): (r: seq<seq<real>>)
    ensures |r| == |a0|
    ensures forall i :: 0 <= i < |a0| ==> |r[i]| == |c|
  {
    seq(|a0|, i requires 0 <= i < |a0| =>
      seq(|c|, j requires 0 <= j < |c| => Imply(op, [a0[i]], c[j])))
  }

  /** Two antecedents: cell `[x1][x2][y]`. */
  function Relation2(op: Implication, a0: seq<real>, a1: seq<real>, c: seq<real>): (r: seq<seq<seq<real>>>)
    ensures |r| == |a0|
    ensures forall i :: 0 <= i < |a0| ==> |r[i]| == |a1|
    ensures forall i, j :: 0 <= i < |a0| && 0 <= j < |a1| ==> |r[i][j]| == |c|
  {
    seq(|a0|, i requires 0 <= i < |a0| =>
      seq(|a1|, j requires 0 <= j < |a1| =>
        seq(|c|, l requires 0 <= l < |c| => Imply(op, [a0[i], a1[j]], c[l]))))
  }

  /** Three antecedents: cell `[x1][x2][x3][y]`. */
  function Relation3(op: Implication, a0: seq<real>, a1: seq<real>, a2: seq<real>, c: seq<real>): (r: seq<seq<seq<seq<real>>>>)
    ensures |r| == |a0|
    ensures forall i :: 0 <= i < |a0| ==> |r[i]| == |a1|
    ensures forall i, j :: 0 <= i < |a0| && 0 <= j < |a1| ==> |r[i][j]| == |a2|
    ensures forall i, j, k :: 0 <= i < |a0| && 0 <= j < |a1| && 0 <= k < |a2| ==> |r[i][j][k]| == |c|
  {
    seq(|a0|, i requires 0 <= i < |a0| =>
      seq(|a1|, j requires 0 <= j < |a1| =>
        seq(|a2|, k requires 0 <= k < |a2| =>
          seq(|c|, l requires 0 <= l < |c| => Imply(op, [a0[i], a1[j], a2[k]], c[l])))))
  }

  /** New antecedent functions `ps` fit a relation built from `ants`: one
      per antecedent, each sampled as often as the antecedent it replaces. */
  predicate Fits(ants: seq<MF>, ps: seq<MF>) {
    && |ps| == |ants|
    && forall k :: 0 <= k < |ants| ==>
         WellFormed(ants[k]) && WellFormed(ps[k]) && |ps[k].mu| == |ants[k].mu|
  }

  /** The composed consequent at grid index `y`: the running maximum from 0
      of `min(a'_1(x1), .., a'_d(xd), R[x1]..[xd][y])` over all index tuples
      in grid order, for d = 1, 2, 3; 0 for any other number of antecedents,
      for which no relation is built. */
  function Composed(op: Implication, ants: seq<MF>, cons: MF, ps: seq<MF>, y: nat): real
    requires Fits(ants, ps) && y < |cons.mu|
  {
    if |ants| == 1 then
      MaxFold(0.0, Terms1(ps[0], Relation1(op, ants[0].mu, cons.mu), y))
    else if |ants| == 2 then
      MaxFold(0.0, Terms2(ps[0], ps[1], Relation2(op, ants[0].mu, ants[1].mu, cons.mu), y, |ps[0].mu|))
    else if |ants| == 3 then
      MaxFold(0.0, Terms3(ps[0], ps[1], ps[2], Relation3(op, ants[0].mu, ants[1].mu, ants[2].mu, cons.mu), y, |ps[0].mu|))
    else 0.0
  }

  /** Every composed sample is at least 0; with corr_min it never exceeds
      the consequent's own sample at the same index. */
  lemma {:induction false} ComposedBounds(op: Implication, ants: seq<MF>, cons: MF, ps: seq<MF>, y: nat)
    requires Fits(ants, ps) && y < |cons.mu|
    ensures 0.0 <= Composed(op, ants, cons, ps, y)
    ensures op == CorrMinOp && 0.0 <= cons.mu[y] ==> Composed(op, ants, cons, ps, y) <= cons.mu[y]
  {
    if |ants| == 1 {
      Composed1Bounds(op, ants[0].mu, cons.mu, ps[0], y);
    } else if |ants| == 2 {
      Composed2Bounds(op, ants[0].mu, ants[1].mu, cons.mu, ps[0], ps[1], y);
    } else if |ants| == 3 {
      Composed3Bounds(op, ants[0].mu, ants[1].mu, ants[2].mu, cons.mu, ps[0], ps[1], ps[2], y);
    }
  }

  lemma {:induction false} Composed1Bounds(op: Implication, a0: seq<real>, c: seq<real>, p0: MF, y: nat)
    requires WellFormed(p0) && |p0.mu| == |a0| && y < |c|
    ensures 0.0 <= MaxFold(0.0, Terms1(p0, Relation1(op, a0, c), y))
    ensures op == CorrMinOp && 0.0 <= c[y] ==> MaxFold(0.0, Terms1(p0, Relation1(op, a0, c), y)) <= c[y]
  {
    var r := Relation1(op, a0, c);
    ZadehOrIsMax(Terms1(p0, r, y));
    if op == CorrMinOp && 0.0 <= c[y] {
      Terms1Below(p0, r, y, c[y]);
      ComposedBetween(Terms1(p0, r, y), c[y]);
    }
  }

  lemma {:induction false} Composed2Bounds(op: Implication, a0: seq<real>, a1: seq<real>, c: seq<real>, p0: MF, p1: MF, y: nat)
    requires WellFormed(p0) && WellFormed(p1) && |p0.mu| == |a0| && |p1.mu| == |a1| && y < |c|
    ensures 0.0 <= MaxFold(0.0, Terms2(p0, p1, Relation2(op, a0, a1, c), y, |p0.mu|))
    ensures op == CorrMinOp && 0.0 <= c[y] ==> MaxFold(0.0, Terms2(p0, p1, Relation2(op, a0, a1, c), y, |p0.mu|)) <= c[y]
  {
    var r := Relation2(op, a0, a1, c);
    ZadehOrIsMax(Terms2(p0, p1, r, y, |p0.mu|));
    if op == CorrMinOp && 0.0 <= c[y] {
      Terms2Below(p0, p1, r, y, |p0.mu|, c[y]);
      ComposedBetween(Terms2(p0, p1, r, y, |p0.mu|), c[y]);
    }
  }

  lemma {:induction false} Composed3Bounds(op: Implication, a0: seq<real>, a1: seq<real>, a2: seq<real>, c: seq<real>, p0: MF, p1: MF, p2: MF, y: nat)
    requires WellFormed(p0) && WellFormed(p1) && WellFormed(p2)
    requires |p0.mu| == |a0| && |p1.mu| == |a1| && |p2.mu| == |a2| && y < |c|
    ensures 0.0 <= MaxFold(0.0, Terms3(p0, p1, p2, Relation3(op, a0, a1, a2, c), y, |p0.mu|))
    ensures op == CorrMinOp && 0.0 <= c[y] ==> MaxFold(0.0, Terms3(p0, p1, p2, Relation3(op, a0, a1, a2, c), y, |p0.mu|)) <= c[y]
  {
    var r := Relation3(op, a0, a1, a2, c);
    Relation3Reaches(op, a0, a1, a2, c, y);
    ZadehOrIsMax(Terms3(p0, p1, p2, r, y, |p0.mu|));
    if op == CorrMinOp && 0.0 <= c[y] {
      Relation3Below(a0, a1, a2, c, y);
      Terms3Below(p0, p1, p2, r, y, |p0.mu|, c[y]);
      ComposedBetween(Terms3(p0, p1, p2, r, y, |p0.mu|), c[y]);
    }
  }

  lemma {:induction false} Relation3Reaches(op: Implication, a0: seq<real>, a1: seq<real>, a2: seq<real>, c: seq<real>, y: nat)
    requires y < |c|
    ensures Reach4(Relation3(op, a0, a1, a2, c), |a0|, |a1|, |a2|, y)
  {
  }

  lemma {:induction false} Relation3Shape(op: Implication, a0: seq<real>, a1: seq<real>, a2: seq<real>, c: seq<real>)
    ensures Shape4(Relation3(op, a0, a1, a2, c), |a0|, |a1|, |a2|, |c|)
  {
    var r := Relation3(op, a0, a1, a2, c);
    forall i | 0 <= i < |a0|
      ensures Shape3(r[i], |a1|, |a2|, |c|)
    {
    }
  }

  lemma {:induction false} Relation3Below(a0: seq<real>, a1: seq<real>, a2: seq<real>, c: seq<real>, y: nat)
    requires y < |c|
    ensures forall i, j, k :: 0 <= i < |a0| && 0 <= j < |a1| && 0 <= k < |a2| ==>
      Relation3(CorrMinOp, a0, a1, a2, c)[i][j][k][y] <= c[y]
  {
    var r := Relation3(CorrMinOp, a0, a1, a2, c);
    forall i, j, k | 0 <= i < |a0| && 0 <= j < |a1| && 0 <= k < |a2|
      ensures r[i][j][k][y] <= c[y]
    {
      assert r[i][j][k][y] == Imply(CorrMinOp, [a0[i], a1[j], a2[k]], c[y]);
    }
  }

  /** One antecedent: a new antecedent that is 1 at grid index `j` and 0
      elsewhere composes to row `j` of the relation, the implication of the
      antecedent's sample `j` and the consequent's sample. */
  lemma {:induction false} SingletonInfersImplication(op: Implication, ants: seq<MF>, cons: MF, ps: seq<MF>, y: nat, j: nat)
    requires Fits(ants, ps) && y < |cons.mu| && |ants| == 1 && j < |ps[0].mu|
    requires InUnit(ants[0]) && InUnit(cons)
    requires forall x :: 0 <= x < |ps[0].mu| ==> ps[0].mu[x] == if x == j then 1.0 else 0.0
    ensures Composed(op, ants, cons, ps, y) == Relation1(op, ants[0].mu, cons.mu)[j][y]
    ensures Composed(op, ants, cons, ps, y) == Imply(op, [ants[0].mu[j]], cons.mu[y])
  {
    var r := Relation1(op, ants[0].mu, cons.mu);
    forall x | 0 <= x < |ps[0].mu|
      ensures 0.0 <= r[x][y] <= 1.0
    {
      ImplyInUnit(op, [ants[0].mu[x]], cons.mu[y]);
    }
    SingletonComposesToRow(ps[0], r, y, j);
  }

  /** Generalised modus ponens with corr_min: a crisp input at a point where
      the antecedent is fully true reproduces the consequent. */
  lemma {:induction false} CrispInputReproducesConsequent(ants: seq<MF>, cons: MF, ps: seq<MF>, y: nat, j: nat)
    requires Fits(ants, ps) && y < |cons.mu| && |ants| == 1 && j < |ps[0].mu|
    requires InUnit(ants[0]) && InUnit(cons) && ants[0].mu[j] == 1.0
    requires forall x :: 0 <= x < |ps[0].mu| ==> ps[0].mu[x] == if x == j then 1.0 else 0.0
    ensures Composed(CorrMinOp, ants, cons, ps, y) == cons.mu[y]
  {
    SingletonInfersImplication(CorrMinOp, ants, cons, ps, y, j);
    SeqMinPair(1.0, cons.mu[y]);
    assert [1.0] + [cons.mu[y]] == [1.0, cons.mu[y]];
  }

  // ---------------------------------------------------------------------------
  // Composition as written: grid values used as relation indices
  // ---------------------------------------------------------------------------

  /** A grid value used as an index into an axis of length `n`: a whole
      number `v` with `-n <= v < n` selects a cell, a negative one counting
      from the end of the axis as numpy does on an integer grid; anything
      else is an indexing error. */
  function WholeIndex(v: real, n: nat): (i: Option<nat>)
    ensures i.Some? <==> v.Floor as real == v && -(n as int) <= v.Floor < n
    ensures i.Some? ==> i.value < n && i.value as real == if v < 0.0 then v + n as real else v
  {
    if v.Floor as real == v && 0 <= v.Floor < n then Some(v.Floor as nat)
    else if v.Floor as real == v && -(n as int) <= v.Floor < 0 then Some((n + v.Floor) as nat)
    else None
  }

  /** A negative whole index counts from the end of the axis. */
  lemma {:induction false} WholeIndexWraps(k: nat, n: nat)
    requires 0 < k <= n
    ensures WholeIndex(-(k as real), n) == Some(n - k)
  {
    assert (-(k as real)).Floor == -(k as int);
  }

  /** The relation cell that the grid values `xv` and `yv` select when used
      as indices, as the code as written does; None is the indexing error. */
  function CellAsWritten(r: seq<seq<real>>, xv: real, yv: real): Option<real> {
    match WholeIndex(xv, |r|)
    case None => None
    case Some(i) =>
      match WholeIndex(yv, |r[i]|)
      case None => None
      case Some(j) => Some(r[i][j])
  }

  /** Dimension 1 as written, at consequent grid value `yv`: the loop runs
      over the new antecedent's grid values and indexes the relation with
      them; it fails as soon as one of them selects no cell. */
  function ComposeAsWritten1(p0: MF, r: seq<seq<real>>, yv: real): Option<real>
    requires WellFormed(p0)
  {
    if forall x :: 0 <= x < |p0.mu| ==> CellAsWritten(r, GridPoint(p0, x), yv).Some? then
      Some(MaxFold(0.0, seq(|p0.mu|, x requires 0 <= x < |p0.mu| =>
        SeqMin([Sample(p0, x), CellAsWritten(r, GridPoint(p0, x), yv).value]))))
    else None
  }

  lemma {:induction false} WholeIndexOfNat(v: real, k: nat, n: nat)
    requires k < n && v == k as real
    ensures WholeIndex(v, n) == Some(k)
  {
    assert (k as real).Floor == k;
  }

  /** On grids whose values are their own indices (origin 0, step 1) the
      code as written computes the intended composition. */
  lemma {:induction false} ComposeAsWrittenOnIndexGrid(p0: MF, r: seq<seq<real>>, y: nat)
    requires WellFormed(p0) && p0.xMin == 0.0 && p0.xStep == 1.0
    requires Reach2(r, |p0.mu|, y)
    ensures ComposeAsWritten1(p0, r, y as real) == Some(MaxFold(0.0, Terms1(p0, r, y)))
  {
    forall x | 0 <= x < |p0.mu|
      ensures CellAsWritten(r, GridPoint(p0, x), y as real) == Some(r[x][y])
    {
      WholeIndexOfNat(GridPoint(p0, x), x, |r|);
      WholeIndexOfNat(y as real, y, |r[x]|);
    }
    var ts := seq(|p0.mu|, x requires 0 <= x < |p0.mu| =>
      SeqMin([Sample(p0, x), CellAsWritten(r, GridPoint(p0, x), y as real).value]));
    assert ts == Terms1(p0, r, y);
  }

  /** A one-point antecedent grid at 1.0 and a one-point consequent grid at
      0.0 holding 0.5: the intended composition of the antecedent with its
      corr_min relation is 0.5, while the code as written indexes row 1 of a
      one-row relation. */
  lemma {:induction false} EvaluateAsWrittenCounterexample()
    ensures Composed(CorrMinOp, [MF(1.0, 1.0, [1.0])], MF(0.0, 1.0, [0.5]), [MF(1.0, 1.0, [1.0])], 0) == 0.5
    ensures ComposeAsWritten1(MF(1.0, 1.0, [1.0]), Relation1(CorrMinOp, [1.0], [0.5]), 0.0) == None
  {
    var p := MF(1.0, 1.0, [1.0]);
    var r := Relation1(CorrMinOp, [1.0], [0.5]);
    assert r[0][0] == CorrMin([1.0], 0.5);
    SeqMinPair(1.0, 0.5);
    assert [1.0] + [0.5] == [1.0, 0.5];
    assert r[0][0] == 0.5;
    InterpAtGridPoint(p, 0);
    SeqMinPair(1.0, 0.5);
    var ts := Terms1(p, r, 0);
    assert ts[0] == 0.5;
    MaxOfSingleton(ts, 0, 0.5);
    assert GridPoint(p, 0) == 1.0;
    assert WholeIndex(1.0, 1) == None;
  }

  // ---------------------------------------------------------------------------
  // The rule generator
  // ---------------------------------------------------------------------------

  /** The functions several membership objects currently hold. */
  ghost function ValuesOf(ms: seq<Membership>): (ps: seq<MF>)
    reads set k | 0 <= k < |ms| :: ms[k].membership
    ensures |ps| == |ms| && forall k :: 0 <= k < |ms| ==> ps[k] == ms[k].Value()
  {
    if ms == [] then [] else ValuesOf(ms[..|ms| - 1]) + [ms[|ms| - 1].Value()]
  }

  /** `R_matrix`: absent for a number of antecedents other than 1, 2 or 3,
      otherwise a dense array with one axis per antecedent grid and a last
      axis over the consequent grid. */
  datatype Relation = NoRelation | Rel1(m1: array2<real>) | Rel2(m2: array3<real>) | Rel3(m3: array4<real>)

  class RuleGenerator {
    const dim: nat
    /** `[x_min, x_max, x_step]` of the consequent. */
    const consequentDomain: (real, real, real)
    const relation: Relation
    /** The implication, antecedent functions and consequent function the
        relation was built from. */
    ghost const implication: Implication
    ghost const antecedents: seq<MF>
    ghost const consequent: MF

    ghost function Repr(): set<object> {
      match relation
      case NoRelation => {}
      case Rel1(m) => {m}
      case Rel2(m) => {m}
      case Rel3(m) => {m}
    }

    /** The relation has one axis per antecedent grid and one over the
        consequent grid, and every cell holds the implication of the
        antecedent samples and the consequent sample at its indices. */
    ghost predicate Valid()
      reads Repr()
    {
      var (xMin, xMax, xStep) := consequentDomain;
      && Domain(xMin, xMax, xStep)
      && consequent.xMin == xMin && consequent.xStep == xStep
      && |consequent.mu| == GridSize(xMin, xMax, xStep)
      && dim == |antecedents|
      && (forall k :: 0 <= k < dim ==> WellFormed(antecedents[k]))
      && var c := consequent.mu;
      match relation
      case NoRelation => dim == 0 || dim > 3
      case Rel1(m) =>
        && dim == 1
        && m.Length0 == |antecedents[0].mu| && m.Length1 == |c|
        && forall i, l :: 0 <= i < m.Length0 && 0 <= l < m.Length1 ==>
             m[i, l] == Imply(implication, [antecedents[0].mu[i]], c[l])
      case Rel2(m) =>
        && dim == 2
        && m.Length0 == |antecedents[0].mu| && m.Length1 == |antecedents[1].mu| && m.Length2 == |c|
        && forall i, j, l :: 0 <= i < m.Length0 && 0 <= j < m.Length1 && 0 <= l < m.Length2 ==>
             m[i, j, l] == Imply(implication, [antecedents[0].mu[i], antecedents[1].mu[j]], c[l])
      case Rel3(m) =>
        && dim == 3
        && m.Length0 == |antecedents[0].mu| && m.Length1 == |antecedents[1].mu|
        && m.Length2 == |antecedents[2].mu| && m.Length3 == |c|
        && forall i, j, k, l :: 0 <= i < m.Length0 && 0 <= j < m.Length1 && 0 <= k < m.Length2 && 0 <= l < m.Length3 ==>
             m[i, j, k, l] == Imply(implication, [antecedents[0].mu[i], antecedents[1].mu[j], antecedents[2].mu[k]], c[l])
    }

    /** __init__: tabulates the implication over the samples of one, two or
        three antecedent functions and the consequent function; with any
        other number of antecedents no relation is built. */
    constructor (ants: seq<Membership>, cons: Membership, op: Implication)
      requires cons.Valid() && forall k :: 0 <= k < |ants| ==> ants[k].Valid()
      ensures Valid() && fresh(Repr())
      ensures dim == |ants| && consequentDomain == (cons.xMin, cons.xMax, cons.xStep)
      ensures implication == op && consequent == cons.Value()
      ensures |antecedents| == |ants| && forall k :: 0 <= k < |ants| ==> antecedents[k] == ants[k].Value()
    {
      cons.ValidDomain();
      dim := |ants|;
      consequentDomain := (cons.xMin, cons.xMax, cons.xStep);
      var c := cons.membership[..];
      if |ants| == 1 {
        var m := Relate1(op, ants[0].membership[..], c);
        relation := Rel1(m);
      } else if |ants| == 2 {
        var m := Relate2(op, ants[0].membership[..], ants[1].membership[..], c);
        relation := Rel2(m);
      } else if |ants| == 3 {
        var m := Relate3(op, ants[0].membership[..], ants[1].membership[..], ants[2].membership[..], c);
        relation := Rel3(m);
      } else {
        relation := NoRelation;
      }
      implication, antecedents, consequent := op, ValuesOf(ants), cons.Value();
    }

    /** The one-antecedent relation, filled row by row from zeros. */
    static method Relate1(op: Implication, a0: seq<real>, c: seq<real>) returns (m: array2<real>)
      ensures fresh(m) && m.Length0 == |a0| && m.Length1 == |c|
      ensures forall i, l :: 0 <= i < |a0| && 0 <= l < |c| ==> m[i, l] == Imply(op, [a0[i]], c[l])
    {
      m := new real[|a0|, |c|]((_, _) => 0.0);
      for x := 0 to |a0|
        invariant forall i, l :: 0 <= i < x && 0 <= l < |c| ==> m[i, l] == Imply(op, [a0[i]], c[l])
      {
        Relate1Row(m, op, a0, c, x);
      }
    }

    /** Fills row `x` of the one-antecedent relation. */
    static method Relate1Row(m: array2<real>, op: Implication, a0: seq<real>, c: seq<real>, x: nat)
      requires m.Length0 == |a0| && m.Length1 == |c| && x < |a0|
      modifies m
      ensures forall l :: 0 <= l < |c| ==> m[x, l] == Imply(op, [a0[x]], c[l])
      ensures forall i, l :: 0 <= i < |a0| && 0 <= l < |c| && i != x ==> m[i, l] == old(m[i, l])
    {
      for y := 0 to |c|
        invariant forall l :: 0 <= l < y ==> m[x, l] == Imply(op, [a0[x]], c[l])
        invariant forall i, l :: 0 <= i < |a0| && 0 <= l < |c| && i != x ==> m[i, l] == old(m[i, l])
      {
        m[x, y] := Implicate(op, [a0[x]], c[y]);
      }
    }

    /** The two-antecedent relation, filled block by block from zeros. */
    static method Relate2(op: Implication, a0: seq<real>, a1: seq<real>, c: seq<real>) returns (m: array3<real>)
      ensures fresh(m) && m.Length0 == |a0| && m.Length1 == |a1| && m.Length2 == |c|
      ensures forall i, j, l :: 0 <= i < |a0| && 0 <= j < |a1| && 0 <= l < |c| ==>
        m[i, j, l] == Imply(op, [a0[i], a1[j]], c[l])
    {
      m := new real[|a0|, |a1|, |c|]((_, _, _) => 0.0);
      for x1 := 0 to |a0|
        invariant forall i, j, l :: 0 <= i < x1 && 0 <= j < |a1| && 0 <= l < |c| ==>
          m[i, j, l] == Imply(op, [a0[i], a1[j]], c[l])
      {
        Relate2Block(m, op, a0, a1, c, x1);
      }
    }

    /** Fills the cells of the two-antecedent relation whose first index is `x1`. */
    static method Relate2Block(m: array3<real>, op: Implication, a0: seq<real>, a1: seq<real>, c: seq<real>, x1: nat)
      requires m.Length0 == |a0| && m.Length1 == |a1| && m.Length2 == |c| && x1 < |a0|
      modifies m
      ensures forall j, l :: 0 <= j < |a1| && 0 <= l < |c| ==> m[x1, j, l] == Imply(op, [a0[x1], a1[j]], c[l])
      ensures forall i, j, l :: 0 <= i < |a0| && 0 <= j < |a1| && 0 <= l < |c| && i != x1 ==>
        m[i, j, l] == old(m[i, j, l])
    {
      for x2 := 0 to |a1|
        invariant forall j, l :: 0 <= j < x2 && 0 <= l < |c| ==> m[x1, j, l] == Imply(op, [a0[x1], a1[j]], c[l])
        invariant forall i, j, l :: 0 <= i < |a0| && 0 <= j < |a1| && 0 <= l < |c| && i != x1 ==>
          m[i, j, l] == old(m[i, j, l])
      {
        Relate2Line(m, op, a0, a1, c, x1, x2);
      }
    }

    /** Fills the cells of the two-antecedent relation whose antecedent
        indices are `x1`, `x2`. */
    static method Relate2Line(m: array3<real>, op: Implication, a0: seq<real>, a1: seq<real>, c: seq<real>, x1: nat, x2: nat)
      requires m.Length0 == |a0| && m.Length1 == |a1| && m.Length2 == |c| && x1 < |a0| && x2 < |a1|
      modifies m
      ensures forall l :: 0 <= l < |c| ==> m[x1, x2, l] == Imply(op, [a0[x1], a1[x2]], c[l])
      ensures forall i, j, l :: 0 <= i < |a0| && 0 <= j < |a1| && 0 <= l < |c| && (i != x1 || j != x2) ==>
        m[i, j, l] == old(m[i, j, l])
    {
      for y := 0 to |c|
        invariant forall l :: 0 <= l < y ==> m[x1, x2, l] == Imply(op, [a0[x1], a1[x2]], c[l])
        invariant forall i, j, l :: 0 <= i < |a0| && 0 <= j < |a1| && 0 <= l < |c| && (i != x1 || j != x2) ==>
          m[i, j, l] == old(m[i, j, l])
      {
        m[x1, x2, y] := Implicate(op, [a0[x1], a1[x2]], c[y]);
      }
    }

    /** The three-antecedent relation, filled block by block from zeros. */
    static method Relate3(op: Implication, a0: seq<real>, a1: seq<real>, a2: seq<real>, c: seq<real>) returns (m: array4<real>)
      ensures fresh(m) && m.Length0 == |a0| && m.Length1 == |a1| && m.Length2 == |a2| && m.Length3 == |c|
      ensures forall i, j, k, l :: 0 <= i < |a0| && 0 <= j < |a1| && 0 <= k < |a2| && 0 <= l < |c| ==>
        m[i, j, k, l] == Imply(op, [a0[i], a1[j], a2[k]], c[l])
    {
      m := new real[|a0|, |a1|, |a2|, |c|]((_, _, _, _) => 0.0);
      for x1 := 0 to |a0|
        invariant forall i, j, k, l :: 0 <= i < x1 && 0 <= j < |a1| && 0 <= k < |a2| && 0 <= l < |c| ==>
          m[i, j, k, l] == Imply(op, [a0[i], a1[j], a2[k]], c[l])
      {
        Relate3Block(m, op, a0, a1, a2, c, x1);
      }
    }

    /** Fills the cells of the three-antecedent relation whose first index is `x1`. */
    static method Relate3Block(m: array4<real>, op: Implication, a0: seq<real>, a1: seq<real>, a2: seq<real>, c: seq<real>, x1: nat)
      requires m.Length0 == |a0| && m.Length1 == |a1| && m.Length2 == |a2| && m.Length3 == |c| && x1 < |a0|
      modifies m
      ensures forall j, k, l :: 0 <= j < |a1| && 0 <= k < |a2| && 0 <= l < |c| ==>
        m[x1, j, k, l] == Imply(op, [a0[x1], a1[j], a2[k]], c[l])
      ensures forall i, j, k, l :: 0 <= i < |a0| && 0 <= j < |a1| && 0 <= k < |a2| && 0 <= l < |c| && i != x1 ==>
        m[i, j, k, l] == old(m[i, j, k, l])
    {
      for x2 := 0 to |a1|
        invariant forall j, k, l :: 0 <= j < x2 && 0 <= k < |a2| && 0 <= l < |c| ==>
          m[x1, j, k, l] == Imply(op, [a0[x1], a1[j], a2[k]], c[l])
        invariant forall i, j, k, l :: 0 <= i < |a0| && 0 <= j < |a1| && 0 <= k < |a2| && 0 <= l < |c| && i != x1 ==>
          m[i, j, k, l] == old(m[i, j, k, l])
      {
        Relate3Row(m, op, a0, a1, a2, c, x1, x2);
      }
    }

    /** Fills the cells of the three-antecedent relation whose first two
        indices are `x1`, `x2`. */
    static method Relate3Row(m: array4<real>, op: Implication, a0: seq<real>, a1: seq<real>, a2: seq<real>, c: seq<real>, x1: nat, x2: nat)
      requires m.Length0 == |a0| && m.Length1 == |a1| && m.Length2 == |a2| && m.Length3 == |c|
      requires x1 < |a0| && x2 < |a1|
      modifies m
      ensures forall k, l :: 0 <= k < |a2| && 0 <= l < |c| ==>
        m[x1, x2, k, l] == Imply(op, [a0[x1], a1[x2], a2[k]], c[l])
      ensures forall i, j, k, l :: 0 <= i < |a0| && 0 <= j < |a1| && 0 <= k < |a2| && 0 <= l < |c| && (i != x1 || j != x2) ==>
        m[i, j, k, l] == old(m[i, j, k, l])
    {
      for x3 := 0 to |a2|
        invariant forall k, l :: 0 <= k < x3 && 0 <= l < |c| ==>
          m[x1, x2, k, l] == Imply(op, [a0[x1], a1[x2], a2[k]], c[l])
        invariant forall i, j, k, l :: 0 <= i < |a0| && 0 <= j < |a1| && 0 <= k < |a2| && 0 <= l < |c| && (i != x1 || j != x2) ==>
          m[i, j, k, l] == old(m[i, j, k, l])
      {
        Relate3Line(m, op, a0, a1, a2, c, x1, x2, x3);
      }
    }

    /** Fills the cells of the three-antecedent relation whose antecedent
        indices are `x1`, `x2`, `x3`. */
    static method Relate3Line(m: array4<real>, op: Implication, a0: seq<real>, a1: seq<real>, a2: seq<real>, c: seq<real>,
                              x1: nat, x2: nat, x3: nat)
      requires m.Length0 == |a0| && m.Length1 == |a1| && m.Length2 == |a2| && m.Length3 == |c|
      requires x1 < |a0| && x2 < |a1| && x3 < |a2|
      modifies m
      ensures forall l :: 0 <= l < |c| ==> m[x1, x2, x3, l] == Imply(op, [a0[x1], a1[x2], a2[x3]], c[l])
      ensures forall i, j, k, l :: 0 <= i < |a0| && 0 <= j < |a1| && 0 <= k < |a2| && 0 <= l < |c| && (i != x1 || j != x2 || k != x3) ==>
        m[i, j, k, l] == old(m[i, j, k, l])
    {
      for y := 0 to |c|
        invariant forall l :: 0 <= l < y ==> m[x1, x2, x3, l] == Imply(op, [a0[x1], a1[x2], a2[x3]], c[l])
        invariant forall i, j, k, l :: 0 <= i < |a0| && 0 <= j < |a1| && 0 <= k < |a2| && 0 <= l < |c| && (i != x1 || j != x2 || k != x3) ==>
          m[i, j, k, l] == old(m[i, j, k, l])
      {
        m[x1, x2, x3, y] := Implicate(op, [a0[x1], a1[x2], a2[x3]], c[y]);
      }
    }

    /** The new antecedent functions fit the relation: one per antecedent,
        each on the grid of the antecedent it replaces. */
    ghost predicate Accepts(aPrime: seq<Membership>)
      reads set k | 0 <= k < |aPrime| :: aPrime[k].membership
    {
      && |aPrime| == dim
      && dim == |antecedents|
      && forall k :: 0 <= k < dim ==>
           && aPrime[k].Valid()
           && aPrime[k].xMin == antecedents[k].xMin && aPrime[k].xStep == antecedents[k].xStep
           && aPrime[k].membership.Length == |antecedents[k].mu|
    }

    /** evaluate: a fresh function on the consequent's domain whose sample at
        each grid index is the max-min composition of the new antecedent
        functions with the relation; all samples stay 0 when no relation was
        built. The relation and this object are not changed. */
    method Evaluate(aPrime: seq<Membership>) returns (cp: Membership)
      requires Valid()
      requires 1 <= dim <= 3 ==> Accepts(aPrime)
      ensures fresh(cp.membership) && cp.Valid()
      ensures (cp.xMin, cp.xMax, cp.xStep) == consequentDomain
      ensures cp.membership.Length == |consequent.mu|
      ensures 1 <= dim <= 3 ==> Fits(antecedents, old(ValuesOf(aPrime)))
      ensures 1 <= dim <= 3 ==> forall y :: 0 <= y < cp.membership.Length ==>
        cp.membership[y] == Composed(implication, antecedents, consequent, old(ValuesOf(aPrime)), y)
      ensures !(1 <= dim <= 3) ==> forall y :: 0 <= y < cp.membership.Length ==> cp.membership[y] == 0.0
    {
      ghost var ps := ValuesOf(aPrime);
      if 1 <= dim <= 3 {
        AcceptedFit(aPrime);
      }
      var (xMin, xMax, xStep) := consequentDomain;
      cp := new Membership(xMin, xMax, xStep, None, false);
      match relation
      case NoRelation =>
      case Rel1(m) =>
        ComposeInto1(cp, m, aPrime[0].Value(), ps);
      case Rel2(m) =>
        ComposeInto2(cp, m, aPrime[0].Value(), aPrime[1].Value(), ps);
      case Rel3(m) =>
        ComposeInto3(cp, m, aPrime[0].Value(), aPrime[1].Value(), aPrime[2].Value(), ps);
    }

    /** Accepted new antecedent functions fit the relation. */
    lemma {:induction false} AcceptedFit(aPrime: seq<Membership>)
      requires Valid() && Accepts(aPrime)
      ensures Fits(antecedents, ValuesOf(aPrime))
    {
    }

    /** The loop over the consequent grid for one antecedent: each sample of
        `cp`, all 0 before, is set through set_membership_output. */
    method ComposeInto1(cp: Membership, m: array2<real>, p0: MF, ghost ps: seq<MF>)
      requires Valid() && relation == Rel1(m) && Fits(antecedents, ps) && ps[0] == p0
      requires cp.Valid() && cp.xMin == consequent.xMin && cp.xStep == consequent.xStep
      requires cp.membership.Length == |consequent.mu|
      modifies cp.membership
      ensures forall y :: 0 <= y < cp.membership.Length ==>
        cp.membership[y] == Composed(implication, antecedents, consequent, ps, y)
    {
      var g := cp.GetInputRange();
      var n := cp.membership.Length;
      ghost var r := Relation1(implication, antecedents[0].mu, consequent.mu);
      for y := 0 to n
        invariant forall k :: 0 <= k < y ==> cp.membership[k] == Composed(implication, antecedents, consequent, ps, k)
      {
        var maxN := Compose1At(p0, m, y, r);
        GridFloorOfPoint(cp.xMin, cp.xStep, n, y);
        cp.SetMembershipOutput(g[y], maxN);
      }
    }

    /** The loop over the consequent grid for two antecedents. */
    method ComposeInto2(cp: Membership, m: array3<real>, p0: MF, p1: MF, ghost ps: seq<MF>)
      requires Valid() && relation == Rel2(m) && Fits(antecedents, ps) && ps[0] == p0 && ps[1] == p1
      requires cp.Valid() && cp.xMin == consequent.xMin && cp.xStep == consequent.xStep
      requires cp.membership.Length == |consequent.mu|
      modifies cp.membership
      ensures forall y :: 0 <= y < cp.membership.Length ==>
        cp.membership[y] == Composed(implication, antecedents, consequent, ps, y)
    {
      var n := cp.membership.Length;
      ghost var r := Relation2(implication, antecedents[0].mu, antecedents[1].mu, consequent.mu);
      assert Shape3(r, m.Length0, m.Length1, m.Length2);
      FillComposed2(cp, m, p0, p1, r);
    }

    /** Sets every sample of `cp` to the two-antecedent composition at its index. */
    static method FillComposed2(cp: Membership, m: array3<real>, p0: MF, p1: MF, ghost r: seq<seq<seq<real>>>)
      requires cp.Valid() && WellFormed(p0) && WellFormed(p1)
      requires m.Length0 == |p0.mu| && m.Length1 == |p1.mu| && m.Length2 == cp.membership.Length
      requires Shape3(r, m.Length0, m.Length1, m.Length2)
      requires forall i, j, l :: 0 <= i < m.Length0 && 0 <= j < m.Length1 && 0 <= l < m.Length2 ==>
        m[i, j, l] == r[i][j][l]
      modifies cp.membership
      ensures forall y :: 0 <= y < cp.membership.Length ==>
        cp.membership[y] == MaxFold(0.0, Terms2(p0, p1, r, y, |p0.mu|))
    {
      var g := cp.GetInputRange();
      var n := cp.membership.Length;
      for y := 0 to n
        invariant forall k :: 0 <= k < y ==> cp.membership[k] == MaxFold(0.0, Terms2(p0, p1, r, k, |p0.mu|))
      {
        assert Reach3(r, |p0.mu|, |p1.mu|, y);
        var maxN := Compose2At(p0, p1, m, y, r);
        GridFloorOfPoint(cp.xMin, cp.xStep, n, y);
        cp.SetMembershipOutput(g[y], maxN);
      }
    }

    /** The loop over the consequent grid for three antecedents. */
    method ComposeInto3(cp: Membership, m: array4<real>, p0: MF, p1: MF, p2: MF, ghost ps: seq<MF>)
      requires Valid() && relation == Rel3(m) && Fits(antecedents, ps) && ps[0] == p0 && ps[1] == p1 && ps[2] == p2
      requires cp.Valid() && cp.xMin == consequent.xMin && cp.xStep == consequent.xStep
      requires cp.membership.Length == |consequent.mu|
      modifies cp.membership
      ensures forall y :: 0 <= y < cp.membership.Length ==>
        cp.membership[y] == Composed(implication, antecedents, consequent, ps, y)
    {
      var n := cp.membership.Length;
      ghost var r := Relation3(implication, antecedents[0].mu, antecedents[1].mu, antecedents[2].mu, consequent.mu);
      Relation3Shape(implication, antecedents[0].mu, antecedents[1].mu, antecedents[2].mu, consequent.mu);
      FillComposed3(cp, m, p0, p1, p2, r);
    }

    /** Sets every sample of `cp` to the three-antecedent composition at its index. */
    static method FillComposed3(cp: Membership, m: array4<real>, p0: MF, p1: MF, p2: MF, ghost r: seq<seq<seq<seq<real>>>>)
      requires cp.Valid() && WellFormed(p0) && WellFormed(p1) && WellFormed(p2)
      requires m.Length0 == |p0.mu| && m.Length1 == |p1.mu| && m.Length2 == |p2.mu| && m.Length3 == cp.membership.Length
      requires Shape4(r, m.Length0, m.Length1, m.Length2, m.Length3)
      requires forall i, j, k, l :: 0 <= i < m.Length0 && 0 <= j < m.Length1 && 0 <= k < m.Length2 && 0 <= l < m.Length3 ==>
        m[i, j, k, l] == r[i][j][k][l]
      modifies cp.membership
      ensures forall y :: 0 <= y < cp.membership.Length ==>
        cp.membership[y] == MaxFold(0.0, Terms3(p0, p1, p2, r, y, |p0.mu|))
    {
      var g := cp.GetInputRange();
      var n := cp.membership.Length;
      for y := 0 to n
        invariant forall k :: 0 <= k < y ==> cp.membership[k] == MaxFold(0.0, Terms3(p0, p1, p2, r, k, |p0.mu|))
      {
        assert Reach4(r, |p0.mu|, |p1.mu|, |p2.mu|, y);
        var maxN := Compose3At(p0, p1, p2, m, y, r);
        GridFloorOfPoint(cp.xMin, cp.xStep, n, y);
        cp.SetMembershipOutput(g[y], maxN);
      }
    }

    /** One step of the running maximum, `max([max_n, min(terms)])`. */
    static method MaxMinStep(maxN: real, terms: seq<real>) returns (r: real)
      requires |terms| > 0
      ensures r == SeqMax([maxN, SeqMin(terms)])
    {
      var t := ListMin(terms);
      var u := ListMax([maxN, t.r]);
      r := u.r;
    }

    /** Dimension 1, consequent index `y`: the running maximum over the
        antecedent grid. */
    static method Compose1At(p0: MF, m: array2<real>, y: nat, ghost r: seq<seq<real>>) returns (maxN: real)
      requires WellFormed(p0) && Reach2(r, |p0.mu|, y)
      requires m.Length0 == |p0.mu| && y < m.Length1
      requires forall i :: 0 <= i < |p0.mu| ==> m[i, y] == r[i][y]
      ensures maxN == MaxFold(0.0, Terms1(p0, r, y))
    {
      ghost var ts := Terms1(p0, r, y);
      maxN := 0.0;
      for x := 0 to |p0.mu|
        invariant maxN == MaxFold(0.0, ts[..x])
      {
        MaxFoldSnoc(0.0, ts[..x], ts[x]);
        assert ts[..x + 1] == ts[..x] + [ts[x]];
        maxN := MaxMinStep(maxN, [Sample(p0, x), m[x, y]]);
      }
      assert ts[..|p0.mu|] == ts;
    }

    /** Dimension 2, first antecedent at `x1`: continues the running maximum
        from `start` over the second antecedent's grid. */
    static method Row2Max(p0: MF, p1: MF, m: array3<real>, y: nat, x1: nat, start: real, ghost r: seq<seq<seq<real>>>) returns (maxN: real)
      requires WellFormed(p0) && WellFormed(p1) && x1 < |p0.mu| && Reach3(r, |p0.mu|, |p1.mu|, y)
      requires m.Length0 == |p0.mu| && m.Length1 == |p1.mu| && y < m.Length2
      requires forall j :: 0 <= j < |p1.mu| ==> m[x1, j, y] == r[x1][j][y]
      ensures maxN == MaxFold(start, Row2(p0, p1, r, y, x1))
    {
      ghost var ts := Row2(p0, p1, r, y, x1);
      maxN := start;
      for x2 := 0 to |p1.mu|
        invariant maxN == MaxFold(start, ts[..x2])
      {
        MaxFoldSnoc(start, ts[..x2], ts[x2]);
        assert ts[..x2 + 1] == ts[..x2] + [ts[x2]];
        maxN := MaxMinStep(maxN, [Sample(p0, x1), Sample(p1, x2), m[x1, x2, y]]);
      }
      assert ts[..|p1.mu|] == ts;
    }

    /** Dimension 2, consequent index `y`. */
    static method Compose2At(p0: MF, p1: MF, m: array3<real>, y: nat, ghost r: seq<seq<seq<real>>>) returns (maxN: real)
      requires WellFormed(p0) && WellFormed(p1) && Reach3(r, |p0.mu|, |p1.mu|, y)
      requires m.Length0 == |p0.mu| && m.Length1 == |p1.mu| && y < m.Length2
      requires forall i, j :: 0 <= i < |p0.mu| && 0 <= j < |p1.mu| ==> m[i, j, y] == r[i][j][y]
      ensures maxN == MaxFold(0.0, Terms2(p0, p1, r, y, |p0.mu|))
    {
      maxN := 0.0;
      for x1 := 0 to |p0.mu|
        invariant maxN == MaxFold(0.0, Terms2(p0, p1, r, y, x1))
      {
        MaxFoldAppend(0.0, Terms2(p0, p1, r, y, x1), Row2(p0, p1, r, y, x1));
        maxN := Row2Max(p0, p1, m, y, x1, maxN, r);
      }
    }

    /** Dimension 3, first two antecedents at `x1`, `x2`: continues the
        running maximum from `start` over the third antecedent's grid. */
    static method Row3Max(p0: MF, p1: MF, p2: MF, m: array4<real>, y: nat, x1: nat, x2: nat, start: real,
                          ghost r: seq<seq<seq<seq<real>>>>) returns (maxN: real)
      requires WellFormed(p0) && WellFormed(p1) && WellFormed(p2) && x1 < |p0.mu| && x2 < |p1.mu|
      requires Reach4(r, |p0.mu|, |p1.mu|, |p2.mu|, y)
      requires m.Length0 == |p0.mu| && m.Length1 == |p1.mu| && m.Length2 == |p2.mu| && y < m.Length3
      requires forall k :: 0 <= k < |p2.mu| ==> m[x1, x2, k, y] == r[x1][x2][k][y]
      ensures maxN == MaxFold(start, Row3(p0, p1, p2, r, y, x1, x2))
    {
      ghost var ts := Row3(p0, p1, p2, r, y, x1, x2);
      maxN := start;
      for x3 := 0 to |p2.mu|
        invariant maxN == MaxFold(start, ts[..x3])
      {
        MaxFoldSnoc(start, ts[..x3], ts[x3]);
        assert ts[..x3 + 1] == ts[..x3] + [ts[x3]];
        maxN := MaxMinStep(maxN, [Sample(p0, x1), Sample(p1, x2), Sample(p2, x3), m[x1, x2, x3, y]]);
      }
      assert ts[..|p2.mu|] == ts;
    }

    /** Dimension 3, first antecedent at `x1`: continues the running maximum
        from `start` over the second and third antecedents' grids. */
    static method Block3Max(p0: MF, p1: MF, p2: MF, m: array4<real>, y: nat, x1: nat, start: real,
                            ghost r: seq<seq<seq<seq<real>>>>) returns (maxN: real)
      requires WellFormed(p0) && WellFormed(p1) && WellFormed(p2) && x1 < |p0.mu|
      requires Reach4(r, |p0.mu|, |p1.mu|, |p2.mu|, y)
      requires m.Length0 == |p0.mu| && m.Length1 == |p1.mu| && m.Length2 == |p2.mu| && y < m.Length3
      requires forall j, k :: 0 <= j < |p1.mu| && 0 <= k < |p2.mu| ==> m[x1, j, k, y] == r[x1][j][k][y]
      ensures maxN == MaxFold(start, Block3(p0, p1, p2, r, y, x1, |p1.mu|))
    {
      maxN := start;
      for x2 := 0 to |p1.mu|
        invariant maxN == MaxFold(start, Block3(p0, p1, p2, r, y, x1, x2))
      {
        MaxFoldAppend(start, Block3(p0, p1, p2, r, y, x1, x2), Row3(p0, p1, p2, r, y, x1, x2));
        maxN := Row3Max(p0, p1, p2, m, y, x1, x2, maxN, r);
      }
    }

    /** Dimension 3, consequent index `y`. */
    static method Compose3At(p0: MF, p1: MF, p2: MF, m: array4<real>, y: nat, ghost r: seq<seq<seq<seq<real>>>>) returns (maxN: real)
      requires WellFormed(p0) && WellFormed(p1) && WellFormed(p2)
      requires Reach4(r, |p0.mu|, |p1.mu|, |p2.mu|, y)
      requires m.Length0 == |p0.mu| && m.Length1 == |p1.mu| && m.Length2 == |p2.mu| && y < m.Length3
      requires forall i, j, k :: 0 <= i < |p0.mu| && 0 <= j < |p1.mu| && 0 <= k < |p2.mu| ==>
        m[i, j, k, y] == r[i][j][k][y]
      ensures maxN == MaxFold(0.0, Terms3(p0, p1, p2, r, y, |p0.mu|))
    {
      maxN := 0.0;
      for x1 := 0 to |p0.mu|
        invariant maxN == MaxFold(0.0, Terms3(p0, p1, p2, r, y, x1))
      {
        MaxFoldAppend(0.0, Terms3(p0, p1, p2, r, y, x1), Block3(p0, p1, p2, r, y, x1, |p1.mu|));
        maxN := Block3Max(p0, p1, p2, m, y, x1, maxN, r);
      }
    }
  }
}
