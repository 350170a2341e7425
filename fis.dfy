/** Rules and their aggregation (fuzzy/fis.py): the AND / OR combinators
    that fold the membership grades of a crisp input, a rule pairing
    antecedent functions with a consequent function, and the strategies
    that aggregate fired rules into one working function and defuzzify it
    by its centroid. */
module Fis {
  import opened Wrappers
  import opened Util
  import opened Memberships

  // ---------------------------------------------------------------------------
  // Grades of a crisp input
  // ---------------------------------------------------------------------------

  ghost predicate AllValid(mfs: seq<Membership>) {
    forall k :: 0 <= k < |mfs| ==> mfs[k].Valid()
  }

  /** The grade of each coordinate of `values` under the function of the
      same dimension. */
  function Grades(values: seq<real>, mfs: seq<Membership>): (gs: seq<real>)
    requires |values| <= |mfs| && AllValid(mfs)
    reads set k | 0 <= k < |mfs| :: mfs[k].membership
    ensures |gs| == |values|
    ensures forall k :: 0 <= k < |values| ==> gs[k] == Interp(mfs[k].Value(), values[k])
  {
    if values == [] then []
    else Grades(values[..|values| - 1], mfs) + [Interp(mfs[|values| - 1].Value(), values[|values| - 1])]
  }

  lemma {:induction false} GradesStep(values: seq<real>, mfs: seq<Membership>, i: nat)
    requires i < |values| <= |mfs| && AllValid(mfs)
    ensures Grades(values[..i + 1], mfs) == Grades(values[..i], mfs) + [Interp(mfs[i].Value(), values[i])]
  {
    assert values[..i + 1][..i] == values[..i];
  }

  // ---------------------------------------------------------------------------
  // Folds over grades
  // ---------------------------------------------------------------------------

  /** A running value that `g` replaces when it is smaller. */
  function MinFold(start: real, gs: seq<real>): real {
    if gs == [] then start
    else
      var m := MinFold(start, gs[..|gs| - 1]);
      if m > gs[|gs| - 1] then gs[|gs| - 1] else m
  }

  /** A running value that `g` replaces when it is larger. */
  function MaxFold(start: real, gs: seq<real>): real {
    if gs == [] then start
    else
      var m := MaxFold(start, gs[..|gs| - 1]);
      if m < gs[|gs| - 1] then gs[|gs| - 1] else m
  }

  function Product(gs: seq<real>): real {
    if gs == [] then 1.0 else Product(gs[..|gs| - 1]) * gs[|gs| - 1]
  }

  /** The probabilistic sum of two grades. */
  function Prob(a: real, b: real): real {
    a + b - a * b
  }

  /** The probabilistic sum folded from the first two grades. */
  function ProbSum(gs: seq<real>): real
    requires |gs| >= 2
  {
    if |gs| == 2 then Prob(gs[0], gs[1])
    else Prob(ProbSum(gs[..|gs| - 1]), gs[|gs| - 1])
  }

  /** The min-fold is the least of the start value and the grades. */
  lemma {:induction false} MinFoldIsMin(start: real, gs: seq<real>)
    ensures MinFold(start, gs) == SeqMin([start] + gs)
  {
    if gs != [] {
      MinFoldIsMin(start, gs[..|gs| - 1]);
      assert ([start] + gs)[..|gs|] == [start] + gs[..|gs| - 1];
    }
  }

  /** The max-fold is the greatest of the start value and the grades. */
  lemma {:induction false} MaxFoldIsMax(start: real, gs: seq<real>)
    ensures MaxFold(start, gs) == SeqMax([start] + gs)
  {
    if gs != [] {
      MaxFoldIsMax(start, gs[..|gs| - 1]);
      assert ([start] + gs)[..|gs|] == [start] + gs[..|gs| - 1];
    }
  }

  /** zadeh_and: 1.0 on no input, never above any grade, and otherwise
      equal to one of them. */
  lemma {:induction false} ZadehAndIsMin(gs: seq<real>)
    ensures gs == [] ==> MinFold(1.0, gs) == 1.0
    ensures forall k :: 0 <= k < |gs| ==> MinFold(1.0, gs) <= gs[k]
    ensures MinFold(1.0, gs) <= 1.0
    ensures MinFold(1.0, gs) == 1.0 || MinFold(1.0, gs) in gs
  {
    MinFoldIsMin(1.0, gs);
    var s := [1.0] + gs;
    assert forall k :: 0 <= k < |gs| ==> gs[k] == s[k + 1];
    var m := SeqMin(s);
    assert s[0] == 1.0 && m <= s[0];
    var i :| 0 <= i < |s| && s[i] == m;
    if i > 0 {
      assert gs[i - 1] == m;
    }
  }

  /** The OR fold as written keeps the least of 0 and the grades, so on
      non-negative grades it is always 0. */
  lemma {:induction false} ZadehOrAsWrittenIsZero(gs: seq<real>)
    requires forall k :: 0 <= k < |gs| ==> 0.0 <= gs[k]
    ensures MinFold(0.0, gs) == 0.0
  {
    MinFoldIsMin(0.0, gs);
    var s := [0.0] + gs;
    var m := SeqMin(s);
    assert m <= s[0] == 0.0;
    var i :| 0 <= i < |s| && s[i] == m;
    if i > 0 {
      assert s[i] == gs[i - 1];
    }
  }

  /** One grade of 0.7: the fold as written gives 0, the maximum is 0.7. */
  lemma {:induction false} ZadehOrAsWrittenCounterexample()
    ensures MinFold(0.0, [0.7]) == 0.0
    ensures MaxFold(0.0, [0.7]) == 0.7
  {
    assert [0.7][..0] == [];
  }

  /** The corrected OR fold: never below 0 or any grade, and equal to 0 or
      to one of the grades. */
  lemma {:induction false} ZadehOrIsMax(gs: seq<real>)
    ensures forall k :: 0 <= k < |gs| ==> gs[k] <= MaxFold(0.0, gs)
    ensures 0.0 <= MaxFold(0.0, gs)
    ensures MaxFold(0.0, gs) == 0.0 || MaxFold(0.0, gs) in gs
  {
    MaxFoldIsMax(0.0, gs);
    var s := [0.0] + gs;
    assert forall k :: 0 <= k < |gs| ==> gs[k] == s[k + 1];
    var m := SeqMax(s);
    assert s[0] == 0.0 && s[0] <= m;
    var i :| 0 <= i < |s| && s[i] == m;
    if i > 0 {
      assert gs[i - 1] == m;
    }
  }

  predicate InUnitSeq(gs: seq<real>) {
    forall k :: 0 <= k < |gs| ==> 0.0 <= gs[k] <= 1.0
  }

  /** product_and on grades in [0, 1] lies in [0, 1] and never exceeds
      zadeh_and. */
  lemma {:induction false} ProductBelowMin(gs: seq<real>)
    requires InUnitSeq(gs)
    ensures 0.0 <= Product(gs) <= MinFold(1.0, gs) <= 1.0
  {
    if gs != [] {
      var init, z := gs[..|gs| - 1], gs[|gs| - 1];
      assert InUnitSeq(init) by {
        assert forall k :: 0 <= k < |init| ==> init[k] == gs[k];
      }
      ProductBelowMin(init);
      assert 0.0 <= z <= 1.0;
      var p, m := Product(init), MinFold(1.0, init);
      assert Product(gs) == p * z && MinFold(1.0, gs) == if m > z then z else m;
      MulNonNegative(p, z);
      MulLe(z, 1.0, p);
      MulLe(p, 1.0, z);
      assert p * z == z * p;
      assert 0.0 <= p <= m <= 1.0;
      assert 0.0 <= p * z;
      assert p * z <= p;
      assert p * z <= z;
      assert 0.0 <= p * z <= (if m > z then z else m) <= 1.0;
    }
  }

  /** product_or on grades in [0, 1] lies in [0, 1] and is at least every grade. */
  lemma {:induction false} ProbSumBounds(gs: seq<real>)
    requires |gs| >= 2 && InUnitSeq(gs)
    ensures 0.0 <= ProbSum(gs) <= 1.0
    ensures forall k :: 0 <= k < |gs| ==> gs[k] <= ProbSum(gs)
  {
    if |gs| == 2 {
      ProbStep(gs[0], gs[1]);
    } else {
      var init := gs[..|gs| - 1];
      assert forall k :: 0 <= k < |init| ==> gs[k] == init[k];
      ProbSumBounds(init);
      ProbStep(ProbSum(init), gs[|gs| - 1]);
    }
  }

  /** One step of the probabilistic sum stays in [0, 1] and above both operands. */
  lemma {:induction false} ProbStep(p: real, z: real)
    requires 0.0 <= p <= 1.0 && 0.0 <= z <= 1.0
    ensures 0.0 <= Prob(p, z) <= 1.0
    ensures p <= Prob(p, z) && z <= Prob(p, z)
  {
    MulNonNegative(p, 1.0 - z);
    MulNonNegative(z, 1.0 - p);
    MulNonNegative(1.0 - p, 1.0 - z);
    assert Prob(p, z) == p + z * (1.0 - p);
    assert Prob(p, z) == z + p * (1.0 - z);
    assert 1.0 - Prob(p, z) == (1.0 - p) * (1.0 - z);
  }

  lemma {:induction false} ProductSnoc(gs: seq<real>, r: real, z: real)
    requires r == Product(gs)
    ensures r * z == Product(gs + [z])
  {
    assert (gs + [z])[..|gs|] == gs;
  }

  lemma {:induction false} ProbSumSnoc(gs: seq<real>, r: real, z: real)
    requires |gs| >= 2 && r == ProbSum(gs)
    ensures Prob(r, z) == ProbSum(gs + [z])
  {
    assert (gs + [z])[..|gs|] == gs;
  }

  // ---------------------------------------------------------------------------
  // The combinators over membership functions
  // ---------------------------------------------------------------------------

  /** zadeh_and: the running minimum of the grades, from 1.0. */
  method ZadehAnd(values: seq<real>, mfs: seq<Membership>) returns (r: real)
    requires |values| <= |mfs| && AllValid(mfs)
    ensures r == MinFold(1.0, Grades(values, mfs))
  {
    r := 1.0;
    for i := 0 to |values|
      invariant r == MinFold(1.0, Grades(values[..i], mfs))
    {
      GradesStep(values, mfs, i);
      if r > Interp(mfs[i].Value(), values[i]) {
        r := Interp(mfs[i].Value(), values[i]);
      }
    }
    assert values[..|values|] == values;
  }

  /** product_and: the product of the grades, from 1.0. */
  method ProductAnd(values: seq<real>, mfs: seq<Membership>) returns (r: real)
    requires |values| <= |mfs| && AllValid(mfs)
    ensures r == Product(Grades(values, mfs))
  {
    r := 1.0;
    for i := 0 to |values|
      invariant r == Product(Grades(values[..i], mfs))
    {
      var z := Interp(mfs[i].Value(), values[i]);
      GradesStep(values, mfs, i);
      ProductSnoc(Grades(values[..i], mfs), r, z);
      r := r * z;
    }
    assert values[..|values|] == values;
  }

  /** zadeh_or as written: the running value starts at 0.0 and is replaced
      by a grade only when it is greater than that grade. */
  method ZadehOrAsWritten(values: seq<real>, mfs: seq<Membership>) returns (r: real)
    requires |values| <= |mfs| && AllValid(mfs)
    ensures r == MinFold(0.0, Grades(values, mfs))
  {
    r := 0.0;
    for i := 0 to |values|
      invariant r == MinFold(0.0, Grades(values[..i], mfs))
    {
      GradesStep(values, mfs, i);
      if r > Interp(mfs[i].Value(), values[i]) {
        r := Interp(mfs[i].Value(), values[i]);
      }
    }
    assert values[..|values|] == values;
  }

  /** zadeh_or as intended: the running maximum of the grades, from 0.0. */
  method ZadehOr(values: seq<real>, mfs: seq<Membership>) returns (r: real)
    requires |values| <= |mfs| && AllValid(mfs)
    ensures r == MaxFold(0.0, Grades(values, mfs))
  {
    r := 0.0;
    for i := 0 to |values|
      invariant r == MaxFold(0.0, Grades(values[..i], mfs))
    {
      GradesStep(values, mfs, i);
      if r < Interp(mfs[i].Value(), values[i]) {
        r := Interp(mfs[i].Value(), values[i]);
      }
    }
    assert values[..|values|] == values;
  }

  /** product_or: the probabilistic sum of at least two grades. */
  method ProductOr(values: seq<real>, mfs: seq<Membership>) returns (r: real)
    requires 2 <= |values| <= |mfs| && AllValid(mfs)
    ensures r == ProbSum(Grades(values, mfs))
  {
    var x := Interp(mfs[0].Value(), values[0]);
    var y := Interp(mfs[1].Value(), values[1]);
    GradesStep(values, mfs, 0);
    GradesStep(values, mfs, 1);
    assert values[..0] == [];
    r := Prob(x, y);
    for i := 2 to |values|
      invariant r == ProbSum(Grades(values[..i], mfs))
    {
      var z := Interp(mfs[i].Value(), values[i]);
      GradesStep(values, mfs, i);
      ProbSumSnoc(Grades(values[..i], mfs), r, z);
      r := Prob(r, z);
    }
    assert values[..|values|] == values;
  }

  /** The combinator a rule is evaluated with: `zadeh_or` as written is
      ZadehOrAsWrittenOp, and ZadehOrOp is its corrected maximum. */
  datatype Combinator = ZadehAndOp | ProductAndOp | ZadehOrAsWrittenOp | ZadehOrOp | ProductOrOp

  /** The value of a combinator on a list of grades. */
  function Combine(op: Combinator, gs: seq<real>): real
    requires op == ProductOrOp ==> |gs| >= 2
  {
    match op
    case ZadehAndOp => MinFold(1.0, gs)
    case ProductAndOp => Product(gs)
    case ZadehOrAsWrittenOp => MinFold(0.0, gs)
    case ZadehOrOp => MaxFold(0.0, gs)
    case ProductOrOp => ProbSum(gs)
  }

  /** Every combinator keeps grades in [0, 1] in [0, 1]. */
  lemma {:induction false} CombineInUnit(op: Combinator, gs: seq<real>)
    requires op == ProductOrOp ==> |gs| >= 2
    requires InUnitSeq(gs)
    ensures 0.0 <= Combine(op, gs) <= 1.0
  {
    match op
    case ZadehAndOp =>
      ProductBelowMin(gs);
      ZadehAndIsMin(gs);
    case ProductAndOp =>
      ProductBelowMin(gs);
    case ZadehOrAsWrittenOp =>
      ZadehOrAsWrittenIsZero(gs);
    case ZadehOrOp =>
      ZadehOrIsMax(gs);
    case ProductOrOp =>
      ProbSumBounds(gs);
  }

  // ---------------------------------------------------------------------------
  // Aggregation strategies
  // ---------------------------------------------------------------------------

  /** The aggregation strategies of defuzzify. */
  datatype Aggregation = MaxMin | Averaging | RootSumSquare | CenterOfMass | Summation

  /** The strategy named by `op`; None for an unrecognised name. */
  function ParseAggregation(op: string): (a: Option<Aggregation>)
    ensures a.None? <==>
      op !in {"max_min", "averaging", "root_sum_square", "center_of_mass", "sum"}
  {
    if op == "max_min" then Some(MaxMin)
    else if op == "averaging" then Some(Averaging)
    else if op == "root_sum_square" then Some(RootSumSquare)
    else if op == "center_of_mass" then Some(CenterOfMass)
    else if op == "sum" then Some(Summation)
    else None
  }

  /** np.average of the firing strengths. */
  function Mean(ss: seq<real>): real
    requires |ss| > 0
  {
    Sum(ss, |ss|) / |ss| as real
  }

  /** What a rule with consequent `c` and strength `s` offers at `x`. */
  function Term(agg: Aggregation, c: MF, s: real, avg: real, x: real): real
    requires WellFormed(c)
  {
    match agg
    case Averaging => if AlphaCutAt(c, avg, x) then avg else Interp(c, x)
    case RootSumSquare => s * Interp(c, x)
    case _ => SeqMin([Interp(c, x), s])
  }

  /** The working sample at `x` after that rule, from `cur` before it. */
  function Accumulate(agg: Aggregation, c: MF, s: real, avg: real, x: real, cur: real): real
    requires WellFormed(c)
  {
    var n := Term(agg, c, s, avg, x);
    if agg == Summation then SeqMin([1.0, SeqMax([cur, cur + n])])
    else SeqMax([cur, n])
  }

  predicate AllWellFormed(cs: seq<MF>) {
    forall k :: 0 <= k < |cs| ==> WellFormed(cs[k])
  }

  /** The working sample at `x` after the first `i` rules, from 0.0. */
  function AggregateAt(agg: Aggregation, cs: seq<MF>, ss: seq<real>, avg: real, x: real, i: nat): real
    requires i <= |cs| && i <= |ss| && AllWellFormed(cs)
  {
    if i == 0 then 0.0
    else Accumulate(agg, cs[i - 1], ss[i - 1], avg, x, AggregateAt(agg, cs, ss, avg, x, i - 1))
  }

  /** The terms of the first `i` rules at `x`. */
  function Terms(agg: Aggregation, cs: seq<MF>, ss: seq<real>, avg: real, x: real, i: nat): (ts: seq<real>)
    requires i <= |cs| && i <= |ss| && AllWellFormed(cs)
    ensures |ts| == i
  {
    if i == 0 then []
    else Terms(agg, cs, ss, avg, x, i - 1) + [Term(agg, cs[i - 1], ss[i - 1], avg, x)]
  }

  /** Averaging, root-sum-square and center-of-mass leave at every point
      the greatest of 0 and the rules' terms there. */
  lemma {:induction false} MaxAggregation(agg: Aggregation, cs: seq<MF>, ss: seq<real>, avg: real, x: real, i: nat)
    requires agg != Summation
    requires i <= |cs| && i <= |ss| && AllWellFormed(cs)
    ensures AggregateAt(agg, cs, ss, avg, x, i) == SeqMax([0.0] + Terms(agg, cs, ss, avg, x, i))
  {
    AggregateAtIsFold(agg, cs, ss, avg, x, i);
    MaxFoldIsMax(0.0, Terms(agg, cs, ss, avg, x, i));
  }

  /** Without the sum's cap, each rule replaces the working sample by the
      larger of it and the rule's term: a max-fold from 0 over the terms. */
  lemma {:induction false} AggregateAtIsFold(agg: Aggregation, cs: seq<MF>, ss: seq<real>, avg: real, x: real, i: nat)
    requires agg != Summation
    requires i <= |cs| && i <= |ss| && AllWellFormed(cs)
    ensures AggregateAt(agg, cs, ss, avg, x, i) == MaxFold(0.0, Terms(agg, cs, ss, avg, x, i))
  {
    if i > 0 {
      AggregateAtIsFold(agg, cs, ss, avg, x, i - 1);
      var t := Term(agg, cs[i - 1], ss[i - 1], avg, x);
      assert Terms(agg, cs, ss, avg, x, i)[..i - 1] == Terms(agg, cs, ss, avg, x, i - 1);
      SeqMaxPair(AggregateAt(agg, cs, ss, avg, x, i - 1), t);
    }
  }

  /** The alpha-cut test picks `min(interp, avg)`, so averaging is
      center-of-mass with every strength replaced by the mean strength. */
  lemma {:induction false} AveragingIsCenterOfMass(cs: seq<MF>, ss: seq<real>, avg: real, x: real, i: nat)
    requires i <= |cs| && i <= |ss| && AllWellFormed(cs)
    ensures AggregateAt(Averaging, cs, ss, avg, x, i)
         == AggregateAt(CenterOfMass, cs, seq(|ss|, _ => avg), avg, x, i)
  {
    if i > 0 {
      AveragingIsCenterOfMass(cs, ss, avg, x, i - 1);
      var ms := seq(|ss|, _ => avg);
      assert ms[i - 1] == avg;
      AveragingTerm(cs[i - 1], ss[i - 1], avg, x);
    }
  }

  /** One rule's averaging term is its center-of-mass term at the mean strength. */
  lemma {:induction false} AveragingTerm(c: MF, s: real, avg: real, x: real)
    requires WellFormed(c)
    ensures Term(Averaging, c, s, avg, x) == Term(CenterOfMass, c, avg, avg, x)
  {
    SeqMinPair(Interp(c, x), avg);
  }

  /** In sum, a working sample never decreases from one rule to the next
      and stays in [0, 1]. */
  lemma {:induction false} SummationMonotone(cs: seq<MF>, ss: seq<real>, avg: real, x: real, i: nat)
    requires i < |cs| && i < |ss| && AllWellFormed(cs)
    ensures 0.0 <= AggregateAt(Summation, cs, ss, avg, x, i)
    ensures AggregateAt(Summation, cs, ss, avg, x, i) <= AggregateAt(Summation, cs, ss, avg, x, i + 1) <= 1.0
  {
    if i > 0 {
      SummationMonotone(cs, ss, avg, x, i - 1);
    }
    var cur := AggregateAt(Summation, cs, ss, avg, x, i);
    var n := Term(Summation, cs[i], ss[i], avg, x);
    SeqMaxPair(cur, cur + n);
    SeqMinPair(1.0, SeqMax([cur, cur + n]));
  }

  /** The working function after the first `i` rules on grid `g`. */
  function Aggregated(agg: Aggregation, cs: seq<MF>, ss: seq<real>, avg: real, g: seq<real>, i: nat): (mu: seq<real>)
    requires i <= |cs| && i <= |ss| && AllWellFormed(cs)
    ensures |mu| == |g|
  {
    seq(|g|, k requires 0 <= k < |g| => AggregateAt(agg, cs, ss, avg, g[k], i))
  }

  /** One more rule's pass turns the working function after `i` rules into
      the working function after `i + 1`. */
  lemma {:induction false} AggregatedStep(agg: Aggregation, cs: seq<MF>, ss: seq<real>, avg: real, g: seq<real>, i: nat,
                       before: seq<real>, after: seq<real>)
    requires i < |cs| && i < |ss| && AllWellFormed(cs)
    requires before == Aggregated(agg, cs, ss, avg, g, i) && |after| == |g|
    requires forall j :: 0 <= j < |g| ==> after[j] == Accumulate(agg, cs[i], ss[i], avg, g[j], before[j])
    ensures after == Aggregated(agg, cs, ss, avg, g, i + 1)
  {
  }

  // ---------------------------------------------------------------------------
  // Rules
  // ---------------------------------------------------------------------------

  /** A rule: one antecedent function per input dimension and a consequent. */
  class Rule {
    const antecedents: seq<Membership>
    const consequent: Membership

    constructor (antecedents: seq<Membership>, consequent: Membership)
      ensures this.antecedents == antecedents && this.consequent == consequent
    {
      this.antecedents := antecedents;
      this.consequent := consequent;
    }

    /** evaluate: the firing strength, the combinator applied to the grades
        of the input under the antecedents. */
    method Evaluate(values: seq<real>, op: Combinator) returns (s: real)
      requires |values| <= |antecedents| && AllValid(antecedents)
      requires op == ProductOrOp ==> |values| >= 2
      ensures s == Combine(op, Grades(values, antecedents))
    {
      match op
      case ZadehAndOp => s := ZadehAnd(values, antecedents);
      case ProductAndOp => s := ProductAnd(values, antecedents);
      case ZadehOrAsWrittenOp => s := ZadehOrAsWritten(values, antecedents);
      case ZadehOrOp => s := ZadehOr(values, antecedents);
      case ProductOrOp => s := ProductOr(values, antecedents);
    }

    /** The step of the working grid: the first consequent's own step when
        `dx < 0`, otherwise `step`. */
    static function WorkingStep(rules: seq<Rule>, dx: real, step: real): real
      requires dx < 0.0 ==> |rules| > 0
    {
      if dx < 0.0 then rules[0].consequent.xStep else step
    }

    static ghost predicate ConsequentsValid(rules: seq<Rule>) {
      forall i :: 0 <= i < |rules| ==> rules[i].consequent.Valid()
    }

    /** The current value of every rule's consequent. */
    static ghost function Consequents(rules: seq<Rule>): (cs: seq<MF>)
      requires ConsequentsValid(rules)
      reads set i | 0 <= i < |rules| :: rules[i].consequent.membership
      ensures |cs| == |rules| && AllWellFormed(cs)
      ensures forall i :: 0 <= i < |rules| ==> cs[i] == rules[i].consequent.Value()
    {
      if rules == [] then []
      else Consequents(rules[..|rules| - 1]) + [rules[|rules| - 1].consequent.Value()]
    }

    /** The four strategies that build a working function on the first
        consequent's domain with step `step`, all samples 0, and raise its
        samples rule by rule, grid point by grid point. */
    static method Aggregate(rules: seq<Rule>, strengths: seq<real>, agg: Aggregation, step: real)
      returns (w: Membership)
      requires agg != MaxMin && |rules| > 0 && |strengths| == |rules| && ConsequentsValid(rules)
      requires Domain(rules[0].consequent.xMin, rules[0].consequent.xMax, step)
      ensures w.Valid() && fresh(w.membership)
      ensures w.xMin == rules[0].consequent.xMin && w.xMax == rules[0].consequent.xMax && w.xStep == step
      ensures w.Value().mu == Aggregated(agg, Consequents(rules), strengths,
        if agg == Averaging then Mean(strengths) else 0.0, w.GetInputRange(), |rules|)
    {
      var avg := 0.0;
      if agg == Averaging {
        avg := Mean(strengths);
      }
      ghost var cs := Consequents(rules);
      w := new Membership(rules[0].consequent.xMin, rules[0].consequent.xMax, step, None, false);
      assert forall k :: 0 <= k < |rules| ==> rules[k].consequent.membership != w.membership;
      assert w.membership[..] == Aggregated(agg, cs, strengths, avg, w.GetInputRange(), 0);
      ApplyRules(w, rules, cs, strengths, avg, agg);
    }

    /** The rules' passes, one after the other, over a working function
        that starts from all samples 0. */
    static method ApplyRules(w: Membership, rules: seq<Rule>, ghost cs: seq<MF>, strengths: seq<real>,
                             avg: real, agg: Aggregation)
      requires agg != MaxMin && w.Valid() && |strengths| == |rules| && ConsequentsValid(rules)
      requires forall k :: 0 <= k < |rules| ==> rules[k].consequent.membership != w.membership
      requires cs == Consequents(rules)
      requires w.membership[..] == Aggregated(agg, cs, strengths, avg, w.GetInputRange(), 0)
      modifies w.membership
      ensures Consequents(rules) == cs
      ensures w.membership[..] == Aggregated(agg, cs, strengths, avg, w.GetInputRange(), |rules|)
    {
      var g := w.GetInputRange();
      for i := 0 to |rules|
        invariant Consequents(rules) == cs
        invariant w.membership[..] == Aggregated(agg, cs, strengths, avg, g, i)
      {
        AggregateRule(w, rules[i].consequent, cs, strengths, avg, agg, g, i);
      }
    }

    /** The pass of rule `i` turns the working function after `i` rules
        into the working function after `i + 1`. */
    static method AggregateRule(w: Membership, c: Membership, ghost cs: seq<MF>, strengths: seq<real>,
                                avg: real, agg: Aggregation, ghost g: seq<real>, i: nat)
      requires agg != MaxMin && w.Valid() && c.Valid() && w.membership != c.membership
      requires i < |cs| && i < |strengths| && AllWellFormed(cs) && cs[i] == c.Value()
      requires g == w.GetInputRange() && w.membership[..] == Aggregated(agg, cs, strengths, avg, g, i)
      modifies w.membership
      ensures w.membership[..] == Aggregated(agg, cs, strengths, avg, g, i + 1)
    {
      ghost var before := w.membership[..];
      ApplyRule(w, c, strengths[i], avg, agg);
      AggregatedStep(agg, cs, strengths, avg, g, i, before, w.membership[..]);
    }

    /** One rule's pass over the working grid: every working sample becomes
        what the strategy makes of it and of the rule's offer there. */
    static method ApplyRule(w: Membership, c: Membership, s: real, avg: real, agg: Aggregation)
      requires agg != MaxMin && w.Valid() && c.Valid() && w.membership != c.membership
      modifies w.membership
      ensures forall j :: 0 <= j < w.membership.Length ==>
        w.membership[j] == Accumulate(agg, c.Value(), s, avg, w.GetInputRange()[j], old(w.membership[j]))
    {
      var g := w.GetInputRange();
      var n := w.membership.Length;
      for k := 0 to n
        invariant forall j :: 0 <= j < k ==>
          w.membership[j] == Accumulate(agg, c.Value(), s, avg, g[j], old(w.membership[j]))
        invariant forall j :: k <= j < n ==> w.membership[j] == old(w.membership[j])
      {
        var x := g[k];
        InterpAtGridPoint(w.Value(), k);
        GridFloorOfPoint(w.xMin, w.xStep, n, k);
        var v := AccumulateStep(agg, c, s, avg, x, Interp(w.Value(), x));
        w.SetMembershipOutput(x, v);
      }
    }

    /** The value one strategy writes for one rule at one grid point, from
        the working sample `cur` there. */
    static method AccumulateStep(agg: Aggregation, c: Membership, s: real, avg: real, x: real, cur: real)
      returns (v: real)
      requires agg != MaxMin && c.Valid()
      ensures v == Accumulate(agg, c.Value(), s, avg, x, cur)
    {
      var t := RuleTerm(agg, c, s, avg, x);
      if agg == Summation {
        var m := ListMax([cur, cur + t]);
        var top := ListMin([1.0, m.r]);
        v := top.r;
      } else {
        var m := ListMax([cur, t]);
        v := m.r;
      }
    }

    /** The term `n` one strategy computes for one rule at one grid point. */
    static method RuleTerm(agg: Aggregation, c: Membership, s: real, avg: real, x: real) returns (t: real)
      requires c.Valid()
      ensures t == Term(agg, c.Value(), s, avg, x)
    {
      match agg {
        case Averaging =>
          t := if AlphaCutAt(c.Value(), avg, x) then avg else Interp(c.Value(), x);
        case RootSumSquare =>
          t := s * Interp(c.Value(), x);
        case _ =>
          var lo := ListMin([Interp(c.Value(), x), s]);
          t := lo.r;
      }
    }

    /** defuzzify: None for an unrecognised strategy; for max_min the
        consequent of the first strongest rule with its own centroid; for
        the others the aggregated working function with its centroid. */
    static method Defuzzify(rules: seq<Rule>, strengths: seq<real>, op: string, dx: real, step: real)
      returns (r: Option<(Membership, Option<real>)>)
      requires |strengths| == |rules| && ConsequentsValid(rules)
      requires |rules| > 0 || (dx >= 0.0 && ParseAggregation(op).None?)
      requires ParseAggregation(op).Some? && ParseAggregation(op) != Some(MaxMin) ==>
        Domain(rules[0].consequent.xMin, rules[0].consequent.xMax, WorkingStep(rules, dx, step))
      ensures r.None? <==> ParseAggregation(op).None?
      ensures ParseAggregation(op) == Some(MaxMin) ==>
        r == Some((rules[FirstArgMax(strengths)].consequent,
                   CentroidOf(rules[FirstArgMax(strengths)].consequent.Value(), dx)))
      ensures r.Some? && ParseAggregation(op) != Some(MaxMin) ==>
        var agg, w := ParseAggregation(op).value, r.value.0;
        && w.Valid() && fresh(w.membership)
        && w.xMin == rules[0].consequent.xMin && w.xMax == rules[0].consequent.xMax
        && w.xStep == WorkingStep(rules, dx, step)
        && w.Value().mu == Aggregated(agg, Consequents(rules), strengths,
             if agg == Averaging then Mean(strengths) else 0.0, w.GetInputRange(), |rules|)
        && r.value.1 == CentroidOf(w.Value(), dx)
    {
      var agg := ParseAggregation(op);
      if agg.None? {
        return None;
      }
      if agg.value == MaxMin {
        var idx := MaxArrayIdx(strengths);
        var c := rules[idx].consequent;
        var centroid := c.Centroid(dx);
        return Some((c, centroid));
      }
      var w := Aggregate(rules, strengths, agg.value, WorkingStep(rules, dx, step));
      var centroid := w.Centroid(dx);
      r := Some((w, centroid));
    }
  }
}
