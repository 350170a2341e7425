# Fuzzy inference engine — Dafny model

This project models the fuzzy-inference engine in `fuzzy/`. It has four layers:

- **Numeric helpers** (`util.dfy`, module `Util`):
  - the binary search for the greatest grid value at or below a target;
  - the clamp into a range;
  - list maximum and minimum, with their `-inf` / `+inf` starting values;
  - the first index of the maximum and of the minimum.
- **Discretised membership functions** (`memberships.dfy`, module `Memberships`).
  - A function samples `[x_min, x_max]` on the grid `x_min + k * x_step`.
  - The class `Membership` keeps the samples in an array. `SetMembershipOutput` overwrites them one cell at a time.
  - The pure specification works on the value `MF(xMin, xStep, mu)`: point evaluation by linear interpolation, alpha-cuts, the standard complement, the discrete and the resampled centroid, and the triangle and trapezoid shapes.
- **Rules and aggregation** (`fis.dfy`, module `Fis`):
  - the AND/OR combinators over the grades of a crisp input;
  - `Rule.evaluate`;
  - the five aggregation strategies of `defuzzify`, which build a working membership function and take its centroid.
- **Zadeh-style inference** (`zadeh_fis.dfy`, module `ZadehFis`):
  - the four implication operators;
  - the relation `R_matrix`, tabulated over the samples of one to three antecedent functions and the consequent;
  - max-min composition of new antecedent functions with that relation.

`wrappers.dfy` holds the `Option` type.

**Grids are modelled by index.**
- Grid point `k` is `xMin + k * xStep`.
- The step is required to divide the domain (`Memberships.Domain`), so the grid has `(xMax - xMin) / xStep + 1` points and ends at `xMax`.
- The exact float-equality lookups the source uses to find a grid point's index (`np.where(x_qual == get_closest_value(...))`) become the index that `GetClosestValue` returns next to the value.
- Python's `-inf`/`+inf` starting values are the datatype `Util.ExtReal`.
- A centroid with zero total weight is `None`, where the source divides by zero.

## Model

| member | source | states |
|---|---|---|
| Util.FloorIndex | fuzzy/util.py:3-30 | the index of the last element at or below the target (the first when none is): every later element is above the target |
| Util.FloorIndexUnique | fuzzy/util.py:3-30 | on a strictly increasing array, an index whose element is at or below the target and whose successor is above it is the floor index |
| Util.FloorIndexOfElement | fuzzy/util.py:24-25 | on a strictly increasing array, an element's own index is its floor |
| Util.GetClosestValue | fuzzy/util.py:4-30 | the result is an element of the array and comes with its index; a target at or above the last element gives the last element; a target at or below the first (and below the last) gives the first; on a strictly increasing array the index is the floor index |
| Util.IntoRange | fuzzy/util.py:33-34 | for lo <= hi the result lies in [lo, hi]; it is x exactly when x is in [lo, hi]; it is hi when x >= hi |
| Util.IntoRangeIdempotent | fuzzy/util.py:33-34 | clamping twice equals clamping once |
| Util.SeqMax | fuzzy/util.py:37-43 | the maximum of a non-empty list is an element and is at least every element |
| Util.SeqMin | fuzzy/util.py:56-62 | the minimum of a non-empty list is an element and is at most every element |
| Util.ListMax | fuzzy/util.py:37-43 | `max` is -inf exactly for the empty list, otherwise the list's maximum |
| Util.ListMin | fuzzy/util.py:56-62 | `min` is +inf exactly for the empty list, otherwise the list's minimum |
| Util.FirstArgMax | fuzzy/util.py:45-53 | the index holds a value at least every element and strictly above every earlier one (the lowest index of the maximum); 0 for the empty list |
| Util.FirstArgMin | fuzzy/util.py:64-72 | the mirror image: the lowest index of the minimum; 0 for the empty list |
| Util.MaxArrayIdx | fuzzy/util.py:45-53 | the strict `>` scan returns the first index of the maximum, which holds the list's maximum |
| Util.MinArrayIdx | fuzzy/util.py:64-72 | the strict `<` scan returns the first index of the minimum |
| Util.SeqMaxPair | fuzzy/util.py:37-43 | `max([a, b])` is b when b > a, otherwise a |
| Util.SeqMinPair | fuzzy/util.py:56-62 | `min([a, b])` is b when b < a, otherwise a |
| Memberships.GridIncreasing | fuzzy/memberships.py:11 | with a positive step the grid is strictly increasing |
| Memberships.GridSize | fuzzy/memberships.py:11 | a domain that is a whole number of steps has at least one grid point, and its last grid point is x_max |
| Memberships.GridFloorOfPoint | fuzzy/memberships.py:47-51 | looking up a grid point on its own grid finds its own index |
| Memberships.Interp | fuzzy/memberships.py:18-30 | interp is 0 outside [x_min, x_max], and lies in [0, 1] when the samples do |
| Memberships.InterpAtGridPoint | fuzzy/memberships.py:24-27 | on a grid point interp returns the stored sample exactly |
| Memberships.InterpBetweenSamples | fuzzy/memberships.py:24-30 | between grid points i and i+1 interp is the straight line through the two samples, so it lies between them |
| Memberships.InterpNonNegative | fuzzy/memberships.py:18-30 | on non-negative samples interp is never negative: 0 outside the domain, a sample, or a line between two samples |
| Memberships.InterpInDomain | fuzzy/memberships.py:18-30 | inside the domain interp is the sample at the floor grid point, or the line to the next sample |
| Memberships.LeftLineAtCorners | fuzzy/memberships.py:138-141 | the rising side is 0 at the first corner and max_value at the second; equal corners give the constant max_value |
| Memberships.RightLineAtCorners | fuzzy/memberships.py:143-146 | the falling side is max_value at its first corner and 0 at the last; equal corners give the constant max_value |
| Memberships.AlphaCutMembers | fuzzy/memberships.py:32-39 | a value is in the cut exactly when it is a grid point whose sample is at least alpha |
| Memberships.AlphaCutAscending | fuzzy/memberships.py:32-39 | the cut is in ascending grid order |
| Memberships.AlphaCutForms | fuzzy/memberships.py:32-42 | on a grid point, the point form `interp(x) >= alpha` agrees with membership in the list form |
| Memberships.ComplementInvolutive | fuzzy/memberships.py:53-57 | complementing twice (w = 1) gives back the original function |
| Memberships.ComplementInterp | fuzzy/memberships.py:53-57 | the complement keeps samples in [0, 1] and equals 1 - interp everywhere in the domain |
| Memberships.CentroidInDomain | fuzzy/memberships.py:79-95 | with non-negative samples (including shapes whose max_value exceeds 1), a centroid, when the total weight is not zero, lies in [x_min, x_max] for both the discrete and the resampled form |
| Memberships.TrapezoidWalkStopped | fuzzy/memberships.py:167-168 | once the trapezoid walk has broken out of its loop, later grid points change nothing |
| Memberships.TriangleWalkStopped | fuzzy/memberships.py:128-129 | the same for the triangle walk |
| Memberships.TrapezoidVisitOnGrid | fuzzy/memberships.py:148-168 | with ascending corners on the grid, one step marks the corners met at that point and writes the trapezoid's value there from the first corner on |
| Memberships.TrapezoidWalkOnGrid | fuzzy/memberships.py:148-168 | after i grid points, the walk has stopped exactly when it passed the last corner; the corner flags are set exactly for corners passed; samples written so far hold the trapezoid and the rest stay 0 |
| Memberships.TrapezoidWalkShape | fuzzy/memberships.py:131-168 | with ascending corners on the grid, the trapezoid constructor samples the closed-form trapezoid at every grid point: 0 outside, the two sides, the flat top at max_value |
| Memberships.TriangleVisitOnGrid | fuzzy/memberships.py:114-129 | one step of the triangle walk with corners on the grid writes the triangle's value from the first corner on |
| Memberships.TriangleWalkOnGrid | fuzzy/memberships.py:114-129 | after i grid points the triangle walk holds the triangle on the points passed and 0 elsewhere |
| Memberships.TriangleWalkShape | fuzzy/memberships.py:97-129 | with ascending corners on the grid, the triangle constructor samples the closed-form triangle at every grid point |
| Memberships.FrontTrapezoidGrid | fuzzy/game.py:240 | the trapezoid [0, 0, 50, 60] on a 0.5-step grid from 0 holds the closed-form trapezoid at every grid point |
| Memberships.FrontTrapezoidSamples | fuzzy/game.py:240 | that trapezoid evaluates to 1 at 10, 0.5 at 55 and 0 at 70 |
| Memberships.FrontTrapezoid | fuzzy/game.py:240 | the trapezoid built by the constructor on [0, 100] evaluates to 1 at 10, 0.5 at 55 and 0 at 70 |
| Memberships.Membership.ValidDomain | fuzzy/memberships.py:7-12 | a valid object's domain is a whole number of steps and its array has one sample per grid point |
| Memberships.Membership.constructor | fuzzy/memberships.py:7-16 | one sample per grid point, all 0, or the generator's value at each grid point clamped into [0, 1]; the samples lie in [0, 1] |
| Memberships.Membership.FillClamped | fuzzy/memberships.py:14-16 | the initialisation loop sets every sample to the generator's value at its grid point clamped into [0, 1] |
| Memberships.Membership.SetMembershipOutput | fuzzy/memberships.py:47-51 | only the sample at the greatest grid point at or below x changes, to the given value |
| Memberships.Membership.AlphaCut | fuzzy/memberships.py:32-39 | the loop returns the grid points, in order, whose sample is at least alpha |
| Memberships.Membership.YagerComplement | fuzzy/memberships.py:53-57 | a new function on the same domain and step holding 1 - v for each sample v |
| Memberships.Membership.Centroid | fuzzy/memberships.py:79-95 | the discrete (dx <= 0) or resampled (dx > 0) weighted mean, None when the total weight is zero |
| Memberships.Membership.GridMoments | fuzzy/memberships.py:83-86 | the loop accumulates the weighted sum of the grid points and the total of the samples |
| Memberships.Membership.SampledMoments | fuzzy/memberships.py:88-93 | the loop accumulates x * interp(x) * dx and interp(x) * dx over x_min + k * dx below x_max |
| Memberships.Membership.Trapezoid | fuzzy/memberships.py:131-168 | the samples are exactly those of the trapezoid walk over the grid |
| Memberships.Membership.WalkTrapezoid | fuzzy/memberships.py:148-168 | from all-zero samples, the grid loop leaves exactly the samples of the trapezoid walk, breaking at the first point past the last corner |
| Memberships.Membership.TrapezoidStep | fuzzy/memberships.py:148-168 | one loop iteration performs one step of the trapezoid walk |
| Memberships.Membership.Triangle | fuzzy/memberships.py:97-129 | the samples are exactly those of the triangle walk over the grid |
| Memberships.Membership.WalkTriangle | fuzzy/memberships.py:114-129 | the same for the triangle walk |
| Memberships.Membership.SideStep | fuzzy/memberships.py:152-155 | one side of the walk writes its value and marks its end corner only while its start corner is marked and its end corner is not; otherwise nothing changes |
| Memberships.Membership.TriangleStep | fuzzy/memberships.py:114-129 | one loop iteration performs one step of the triangle walk |
| Fis.Grades | fuzzy/fis.py:9-11 | one grade per input coordinate, the interp of the function of that dimension |
| Fis.MinFoldIsMin | fuzzy/fis.py:7-12 | the running minimum is the least of its start value and the grades |
| Fis.MaxFoldIsMax | fuzzy/fis.py:20-25 | the running maximum is the greatest of its start value and the grades |
| Fis.ZadehAndIsMin | fuzzy/fis.py:7-12 | zadeh_and is 1.0 for no input, never above any grade or 1.0, and otherwise one of the grades |
| Fis.ZadehOrAsWrittenIsZero | fuzzy/fis.py:20-25 | zadeh_or as written returns 0 whenever every grade is non-negative |
| Fis.ZadehOrAsWrittenCounterexample | fuzzy/fis.py:20-25 | on the single grade 0.7 the fold as written gives 0 and the maximum is 0.7 |
| Fis.ZadehOrIsMax | fuzzy/fis.py:20-25 | the corrected OR fold is at least 0 and every grade, and is 0 or one of the grades |
| Fis.ProductBelowMin | fuzzy/fis.py:14-18 | product_and on grades in [0, 1] lies in [0, 1] and never exceeds zadeh_and |
| Fis.ProbSumBounds | fuzzy/fis.py:27-34 | product_or on two or more grades in [0, 1] lies in [0, 1] and is at least every grade |
| Fis.ZadehAnd | fuzzy/fis.py:7-12 | the loop computes the running minimum of the grades from 1.0 |
| Fis.ProductAnd | fuzzy/fis.py:14-18 | the loop computes the product of the grades from 1.0 |
| Fis.ZadehOrAsWritten | fuzzy/fis.py:20-25 | the loop as written computes the running minimum of the grades from 0.0 |
| Fis.ZadehOr | fuzzy/fis.py:20-25 | the corrected loop computes the running maximum of the grades from 0.0 |
| Fis.ProductOr | fuzzy/fis.py:27-34 | the loop folds a + b - a * b from the first two grades |
| Fis.CombineInUnit | fuzzy/fis.py:7-34 | every combinator, `zadeh_or` as written (always 0 there) and its corrected form included, keeps grades in [0, 1] in [0, 1] |
| Fis.ParseAggregation | fuzzy/fis.py:56-103 | the strategy is absent exactly when the name is none of the five strategy names |
| Fis.MaxAggregation | fuzzy/fis.py:61-90 | for averaging, root_sum_square and center_of_mass each working sample is the greatest of 0 and the rules' terms at that point |
| Fis.AggregateAtIsFold | fuzzy/fis.py:61-90 | without the sum's cap, each rule replaces the working sample by the larger of it and the rule's term, so the working sample is a max-fold from 0 over the terms |
| Fis.AveragingIsCenterOfMass | fuzzy/fis.py:61-70 | averaging equals center_of_mass with every strength replaced by the mean strength |
| Fis.AveragingTerm | fuzzy/fis.py:67 | one rule's averaging term is min(interp(x), avg), the center_of_mass term at strength avg |
| Fis.SummationMonotone | fuzzy/fis.py:92-100 | in sum, each working sample is non-negative, never decreases from one rule to the next, and never exceeds 1 |
| Fis.AggregatedStep | fuzzy/fis.py:65-98 | one rule's pass over the grid turns the working function after i rules into the one after i + 1 |
| Fis.Rule.constructor | fuzzy/fis.py:38-40 | the rule keeps its antecedent functions and its consequent |
| Fis.Rule.Evaluate | fuzzy/fis.py:43-44 | the firing strength is the chosen combinator applied to the grades of the input; `zadeh_or` as written is one of the combinators, and its corrected maximum is another |
| Fis.Rule.Aggregate | fuzzy/fis.py:61-100 | a fresh working function on the first consequent's domain whose samples are the aggregated function of the strategy |
| Fis.Rule.ApplyRules | fuzzy/fis.py:65-98 | the passes of all rules, in order, leave the working function equal to the aggregated function after the last rule, and leave every consequent unchanged |
| Fis.Rule.AggregateRule | fuzzy/fis.py:65-98 | the pass of rule i turns the aggregated function after i rules into the one after i + 1 |
| Fis.Rule.ApplyRule | fuzzy/fis.py:65-98 | one rule's pass sets each working sample to the strategy's accumulation of its old value |
| Fis.Rule.AccumulateStep | fuzzy/fis.py:67-98 | the value each strategy writes at one grid point |
| Fis.Rule.RuleTerm | fuzzy/fis.py:67-97 | the term n each strategy computes for one rule at one grid point: avg or interp(x) under the alpha-cut test, strength times interp(x), or min(interp(x), strength) |
| Fis.Rule.Defuzzify | fuzzy/fis.py:52-103 | None exactly for an unknown strategy name; max_min returns the consequent of the first strongest rule and its own centroid; the other strategies return the aggregated working function and its centroid, on the first consequent's step when dx < 0 |
| ZadehFis.CorrMin | fuzzy/zadeh_fis.py:7-8 | corr_min is at most the consequent value and every antecedent value, and is one of them |
| ZadehFis.CorrProduct | fuzzy/zadeh_fis.py:10-15 | the loop computes the product of the antecedent values and the consequent value |
| ZadehFis.CorrProductBelowCorrMin | fuzzy/zadeh_fis.py:7-15 | on values in [0, 1], 0 <= corr_product <= corr_min |
| ZadehFis.LukasiewiczBounds | fuzzy/zadeh_fis.py:17-18 | lukasiewicz is at most 1, and equals 1 exactly when the consequent is at least the least antecedent |
| ZadehFis.ClassicalBounds | fuzzy/zadeh_fis.py:20-21 | classical is at least the consequent and at least 1 - min(antecedents), and lies in [0, 1] on values in [0, 1] |
| ZadehFis.ImplyInUnit | fuzzy/zadeh_fis.py:7-21 | every implication keeps values in [0, 1] in [0, 1] |
| ZadehFis.Implicate | fuzzy/zadeh_fis.py:7-21 | applies the chosen implication formula |
| ZadehFis.MaxFoldAppend | fuzzy/zadeh_fis.py:77-81 | the running maximum over two index ranges in turn is the running maximum over both |
| ZadehFis.ComposedBetween | fuzzy/zadeh_fis.py:69-73 | when every term is at most c >= 0, the composed sample lies in [0, c] |
| ZadehFis.SingletonComposesToRow | fuzzy/zadeh_fis.py:69-73 | an input that is 1 at grid index j and 0 elsewhere composes to row j of a relation with cells in [0, 1] |
| ZadehFis.Terms1Below | fuzzy/zadeh_fis.py:71-72 | each one-antecedent term is at most its relation cell |
| ZadehFis.Terms2Below | fuzzy/zadeh_fis.py:77-81 | each two-antecedent term is at most its relation cell |
| ZadehFis.Terms3Below | fuzzy/zadeh_fis.py:86-92 | each three-antecedent term is at most its relation cell |
| ZadehFis.ComposedBounds | fuzzy/zadeh_fis.py:64-95 | every composed sample is at least 0; with corr_min it is at most the consequent's own sample at the same index |
| ZadehFis.SingletonInfersImplication | fuzzy/zadeh_fis.py:69-73 | with one antecedent, an input that is 1 at grid index j and 0 elsewhere yields row j of the relation: the implication of the antecedent's sample j and the consequent's sample |
| ZadehFis.CrispInputReproducesConsequent | fuzzy/zadeh_fis.py:69-73 | with corr_min, a crisp input at a point where the antecedent is 1 reproduces the consequent exactly |
| ZadehFis.WholeIndex | fuzzy/zadeh_fis.py:72 | a grid value selects a cell exactly when it is a whole number v with -n <= v < n on an axis of length n; a negative one selects cell v + n, counting from the end |
| ZadehFis.WholeIndexWraps | fuzzy/zadeh_fis.py:72 | the index -k on an axis of length n >= k selects cell n - k |
| ZadehFis.ComposeAsWrittenOnIndexGrid | fuzzy/zadeh_fis.py:69-73 | on a grid with origin 0 and step 1, where every value is its own index, the composition as written equals the intended composition |
| ZadehFis.EvaluateAsWrittenCounterexample | fuzzy/zadeh_fis.py:69-73 | an antecedent grid with the single point 1.0: the intended composition is 0.5, while the code as written indexes past the relation |
| ZadehFis.RuleGenerator.constructor | fuzzy/zadeh_fis.py:26-61 | for 1 to 3 antecedents, the relation has one axis per antecedent grid plus one over the consequent grid, and each cell is the implication of the samples at its indices; otherwise no relation |
| ZadehFis.RuleGenerator.Relate1 | fuzzy/zadeh_fis.py:30-36 | the one-antecedent relation: shape and every cell |
| ZadehFis.RuleGenerator.Relate1Row | fuzzy/zadeh_fis.py:35-36 | fills one row and leaves the others unchanged |
| ZadehFis.RuleGenerator.Relate2 | fuzzy/zadeh_fis.py:37-47 | the two-antecedent relation: shape and every cell |
| ZadehFis.RuleGenerator.Relate2Block | fuzzy/zadeh_fis.py:43-47 | fills the cells with one first index and leaves the others unchanged |
| ZadehFis.RuleGenerator.Relate2Line | fuzzy/zadeh_fis.py:44-47 | fills the cells with one pair of antecedent indices and leaves the others unchanged |
| ZadehFis.RuleGenerator.Relate3 | fuzzy/zadeh_fis.py:48-61 | the three-antecedent relation: shape and every cell |
| ZadehFis.RuleGenerator.Relate3Block | fuzzy/zadeh_fis.py:55-61 | fills the cells with one first index and leaves the others unchanged |
| ZadehFis.RuleGenerator.Relate3Row | fuzzy/zadeh_fis.py:56-61 | fills the cells with one first and second index and leaves the others unchanged |
| ZadehFis.RuleGenerator.Relate3Line | fuzzy/zadeh_fis.py:57-61 | fills the cells with one triple of antecedent indices and leaves the others unchanged |
| ZadehFis.RuleGenerator.Evaluate | fuzzy/zadeh_fis.py:64-95 | a fresh function on the consequent's domain and step whose samples are the intended max-min composition; all 0 when no relation was built; the relation is not changed |
| ZadehFis.RuleGenerator.ComposeInto1 | fuzzy/zadeh_fis.py:69-73 | the loop over the consequent grid writes the composed sample at every index |
| ZadehFis.RuleGenerator.ComposeInto2 | fuzzy/zadeh_fis.py:74-82 | the same for two antecedents |
| ZadehFis.RuleGenerator.FillComposed2 | fuzzy/zadeh_fis.py:74-82 | given a table equal to the relation, the loop sets every sample to the running maximum of the two-antecedent terms at its index |
| ZadehFis.RuleGenerator.ComposeInto3 | fuzzy/zadeh_fis.py:83-93 | the same for three antecedents |
| ZadehFis.RuleGenerator.FillComposed3 | fuzzy/zadeh_fis.py:83-93 | the same for the three-antecedent terms |
| ZadehFis.RuleGenerator.MaxMinStep | fuzzy/zadeh_fis.py:72 | one update `max([max_n, min(terms)])` |
| ZadehFis.RuleGenerator.Compose1At | fuzzy/zadeh_fis.py:70-72 | the running max_n at one consequent index is the running maximum of the one-antecedent terms from 0 |
| ZadehFis.RuleGenerator.Row2Max | fuzzy/zadeh_fis.py:78-81 | the inner loop continues the running maximum over the second antecedent's grid |
| ZadehFis.RuleGenerator.Compose2At | fuzzy/zadeh_fis.py:76-81 | the running max_n at one consequent index is the running maximum of the two-antecedent terms from 0 |
| ZadehFis.RuleGenerator.Row3Max | fuzzy/zadeh_fis.py:88-92 | the innermost loop continues the running maximum over the third antecedent's grid |
| ZadehFis.RuleGenerator.Block3Max | fuzzy/zadeh_fis.py:87-92 | the middle loop continues it over the second and third antecedents' grids |
| ZadehFis.RuleGenerator.Compose3At | fuzzy/zadeh_fis.py:85-92 | the running max_n at one consequent index is the running maximum of the three-antecedent terms from 0 |

## Left out

- `GaussianMembership` (fuzzy/memberships.py:170-183) is left out because it needs `exp`. Any membership function can still be used through its sample array.
- `yager_compliment` with w ≠ 1 is left out because it needs real powers. Only the standard complement (w = 1) is modelled.
- `Membership.graph`, `Membership.test` and the whole of `fuzzy/game.py` are left out. They are plotting, printing and the pygame front end. The one use kept is the trapezoid at fuzzy/game.py:240, as a worked example.
- Float artefacts are not modelled:
  - grids are exact; the step must divide the domain, so the grid is `(x_max - x_min) / x_step + 1` points with no `np.arange` overshoot;
  - arithmetic is on exact reals.
- Memberships.Membership.Centroid: the resampled (dx > 0) form samples `x_min + k * dx` for k below `ceil((x_max - x_min) / dx)`. This is the exact count of `np.arange(x_min, x_max, dx)`, not its float-rounded length.
- Memberships.Membership.Centroid: a zero total weight gives `None`, where the source divides by zero.
- Fis.Rule.Defuzzify: the `print` of an unknown strategy name is left out; only the `None` result is modelled.
- Fis.Rule.Defuzzify requires at least one rule unless the strategy name is unknown and dx >= 0. With no rules the source fails on `rules[0]`.
- Fis.Rule.Defuzzify requires the working step to divide the first consequent's domain (`Domain`), like every `Membership` built here.
- Fis.ProductOr requires at least two grades, and so do `Combine` and `Rule.Evaluate` with product_or. With fewer, the source fails with an IndexError on `grades[1]`; that failure is not modelled.
- Fis.Grades requires no more input values than functions, and so do the combinators and `Rule.Evaluate`. With more, the source fails with an IndexError on the function list; that failure is not modelled.
- Fis.Rule.Evaluate also accepts the corrected OR (`ZadehOrOp`), which the source does not have. The source's `zadeh_or` is `ZadehOrAsWrittenOp`, which always gives 0 on grades in [0, 1].
- ZadehFis.Lukasiewicz requires at least one antecedent value. With none, the source's `min([])` is +inf and the result is -inf. Every use in the relation has at least one value.
- ZadehFis.RuleGenerator.Evaluate models the intended index-based composition. It requires one new antecedent per relation axis, each on the grid of the antecedent it replaces. The source does not check this count.
- ZadehFis.ComposeAsWritten1: the composition as written is modelled for one antecedent only, and leniently. A grid value is accepted as an index when it is a whole number v with -n <= v < n, a negative one counting from the end as numpy does on an integer grid. On a float grid numpy rejects every index, whole or not; the model accepts the whole ones.
- The relation keeps the implication, antecedent and consequent it was built from as ghost fields. The source keeps only the array.
- Aliasing between the new antecedent objects and the rule generator's arrays cannot arise: they have different array types, and the consequent it builds is fresh.

## Findings

| source | as written | input that shows it | evidently intended | confidence | as-written member | corrected member |
|---|---|---|---|---|---|---|
| fuzzy/fis.py:20-25 | `zadeh_or` starts from 0.0 and replaces the running value only when it is greater than the grade, so it returns `min(0, grades)`: always 0 on grades in [0, 1] | one dimension whose grade is 0.7: returns 0.0 | the maximum of 0 and the grades, 0.7 here | not executed | Fis.ZadehOrAsWritten, Fis.ZadehOrAsWrittenCounterexample | Fis.ZadehOr, Fis.ZadehOrIsMax |
| fuzzy/zadeh_fis.py:69-92 | `evaluate` loops over the grid values from `get_input_range()` and uses them directly as indices into `R_matrix` | one antecedent on the single-point grid {1.0}, consequent sample 0.5 at 0.0, corr_min: `R_matrix[1.0][0.0]` is past the one-row relation | index the relation by the grid index of each value: the composition is 0.5 here | not executed | ZadehFis.ComposeAsWritten1, ZadehFis.EvaluateAsWrittenCounterexample | ZadehFis.RuleGenerator.Evaluate, ZadehFis.SingletonInfersImplication |
