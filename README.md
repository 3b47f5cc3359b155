# Curve engine of athena, in Dafny

athena is a small Streamlit application with two pages: a B-Spline page and
a Bezier page. This project models the evaluation engine behind the two
pages and proves properties of it. Numbers are Dafny `real`, an idealisation
of numpy floats. A point is a `seq<real>` with one entry per coordinate.

- **B-Spline page** (`src/b_spline.py`):
  - **Knot vectors** (module `Knots`). The Uniform vector and the Uniform
    Open vector are built the way the page builds them; the Uniform Open one
    by a method that fills an array and then does the two slice assignments.
    A Custom vector, once parsed, passes only a length check.
  - **Sample domain** (`Knots.Domain`): the 101 samples `linspace(knots[k], knots[n+1], 101)`.
  - **Basis functions** (module `CoxDeBoor`): the Cox–de Boor recursion of
    `get_basis_func`, with its zero-width guards.
  - **Curve evaluation** (module `BSpline`):
    - `calc_bspline` is a method with the two nested loops. It is proved
      against the rational point Σ wᵢNᵢVᵢ / Σ wᵢNᵢ and the boundary override.
    - The page's flow from settings to curve is the method `EvaluateBSpline`.
    - A zero denominator (NaN in numpy) is the value `Undefined`.
  - **Knot text** (module `KnotText`): `get_knot_vec_str`.
- **Bezier page** (`src/bezier.py`, module `Bezier`):
  - `BasisMatrices` is the `M_B` table exactly as written.
  - The 101 samples are t = j/100.
  - `calc_bezier` is a method whose loop prepends one power column per pass.
    It is proved against the function `CurvePoint`: the power row times the
    matrix times the control points.

The main results:

- On a non-decreasing knot vector the Cox–de Boor functions are
  non-negative and vanish outside their support. The order matters: the page
  accepts an unordered Custom vector, and on one such vector a basis
  function is negative (`BSpline.UnorderedCustomNegativeBasis`).
- They sum to 1 on `[knots[k], knots[n+1])` for every non-decreasing knot vector.
- Hence, on a non-decreasing knot vector, positive weights give a defined
  point at every t in `[knots[k], knots[n+1])`, and the default weights give
  the plain B-Spline there. The last sample, t = knots[n+1], lies outside
  that interval. On the Uniform Open vector its point is undefined whatever
  the weights, until the override replaces it. A Custom vector has no
  override, so its last point can stay undefined.
- Scaling all the weights by the same non-zero constant leaves the curve unchanged.
- The Bezier page's curve starts at the last control point, V[n], for every
  degree. For degrees 1, 2 and 4 it ends at the first, V[0]. For degree 3,
  the page's default of four control points, it ends at V[0] + 2·V[3].
- The page's cubic matrix is not the Bernstein matrix: see Findings.

Two behaviours of the code worth knowing:

- A Bernstein Bezier curve starts at V[0]; this page's curve starts at V[n]
  (`Bezier.StartsAtLastControlPoint`), that is, it is traversed in reverse.
- The page checks only the length of a Custom vector; a decreasing one is
  accepted (`Knots.CustomOrderNotChecked`).

## Model

| member | source | states |
|---|---|---|
| Sampling.Linspace | src/b_spline.py:67 | `num` values; the first is `start`, the last is `stop` (when num ≥ 2); consecutive values differ by (stop − start)/(num − 1) |
| Sampling.LinspaceBounds | src/b_spline.py:67 | for start ≤ stop every value lies in [start, stop]; every value but the last lies strictly below stop when start < stop |
| Knots.UniformKnots | src/b_spline.py:55-56 | the Uniform vector has m + 1 = n + k + 2 entries, `knots[j] == j`, and is strictly increasing |
| Knots.ClampedIsNonDecreasing | src/b_spline.py:57-60 | a clamped vector (k + 1 copies of k, middle entries equal to their index, k + 1 copies of n + 1) is non-decreasing |
| Knots.OpenKnotsClamped | src/b_spline.py:57-60 | for k ≤ n + 1 the Uniform Open vector is clamped and non-decreasing |
| Knots.BuildUniformOpen | src/b_spline.py:57-60 | the array filled with 0..m, then `knots[:k] = knots[k]` and `knots[n+2:] = knots[n+1]`, is the Uniform Open vector; for k ≤ n + 1 it is clamped and non-decreasing |
| Knots.CheckCustom | src/b_spline.py:45-52 | a parsed Custom vector is accepted exactly when it parsed and has m + 1 entries, and is then kept unchanged; otherwise the error is InvalidKnotVector |
| Knots.CustomOrderNotChecked | src/b_spline.py:45-52 | a decreasing vector of the right length is accepted: no order check |
| Knots.KnotVectorFor | src/b_spline.py:41-60 | every vector the page settles on has m + 1 entries; the only error is a Custom vector that did not parse or has the wrong length |
| Knots.BuildKnots | src/b_spline.py:41-60 | the page's knot construction, including the in-place Uniform Open builder, yields `KnotVectorFor` |
| Knots.Domain | src/b_spline.py:67 | 101 samples from knots[k] to knots[n+1], evenly spaced |
| Knots.DomainInSpan | src/b_spline.py:67 | on a non-decreasing vector every sample lies in [knots[k], knots[n+1]], and all but the last lie below knots[n+1] when the span is not empty |
| CoxDeBoor.BaseCase | src/b_spline.py:103-107 | N(i,0)(t) is 1 exactly when knots[i] ≤ t < knots[i+1] and 0 otherwise |
| CoxDeBoor.LocalSupport | src/b_spline.py:101-121 | on a non-decreasing vector N(i,k)(t) = 0 when t < knots[i] or t ≥ knots[i+k+1] |
| CoxDeBoor.ZeroWidthSpan | src/b_spline.py:111-119 | on a non-decreasing vector a basis function whose whole span has zero width is 0 |
| CoxDeBoor.NonNegative | src/b_spline.py:101-121 | on a non-decreasing vector N(i,k)(t) ≥ 0 |
| CoxDeBoor.TermsMeet | src/b_spline.py:111-121 | on a non-decreasing vector the second term of N(j−1,d) and the first term of N(j,d) add up to N(j,d−1) |
| CoxDeBoor.SpanPartition | src/b_spline.py:101-121 | on a non-decreasing vector, for t in [knots[j], knots[j+1]), the d + 1 functions of degree d that reach the span sum to 1 |
| BSpline.UnorderedCustomNegativeBasis | src/b_spline.py:45-52 | the unordered vector [0, 1, −5, −4, 7, 8] passes the Custom check for n = 2, k = 2, and N(0,2)(1/2) = −1/20 on it |
| CoxDeBoor.PartitionOfUnity | src/b_spline.py:101-121 | on a non-decreasing vector, for knots[k] ≤ t < knots[n+1], N(0,k)(t) + … + N(n,k)(t) = 1 |
| BSpline.RationalPoint | src/b_spline.py:127-133 | the point is defined exactly when Σ wᵢNᵢ ≠ 0; it has the dimension of the control points; each coordinate times Σ wᵢNᵢ is the coordinate of Σ wᵢNᵢVᵢ |
| BSpline.CalcBSpline | src/b_spline.py:124-143 | \|T\| rows; every row strictly between the first and the last is the rational point at its sample; Uniform sets the ends to (V[0]+V[1])/2 and (V[n]+V[n−1])/2; Uniform Open sets them to V[0] and V[n]; Custom keeps every rational point |
| BSpline.WeightScaling | src/b_spline.py:127-133 | multiplying every weight by the same non-zero constant leaves every point (defined or not) unchanged |
| BSpline.UnitWeightsPlainBSpline | src/b_spline.py:127-133 | with all weights 1 and t in [knots[k], knots[n+1]) the denominator is 1 and the point is the plain sum Σ NᵢVᵢ |
| BSpline.PositiveWeightsDefined | src/b_spline.py:127-133 | with positive weights and a non-decreasing vector every t in [knots[k], knots[n+1]) gives a defined point |
| BSpline.OpenLastSampleUndefined | src/b_spline.py:133-141 | on the Uniform Open vector the last sample is outside every support, so its computed point is undefined before the override replaces it |
| BSpline.CustomLastSampleMayBeUndefined | src/b_spline.py:124-143 | the accepted, non-decreasing Custom vector [0, 0, 1, 1] (n = 1, k = 1) leaves the last sample undefined, and Custom has no override |
| BSpline.EvaluateBSpline | src/b_spline.py:37-87 | an invalid Custom vector stops the page with an error; otherwise 101 points, interior points are the rational points over the domain, the ends follow the knot category |
| BSpline.DefaultWeightsDenominatorOne | src/b_spline.py:33 | with the default weights and 1 ≤ k ≤ n, every Uniform or Uniform Open sample but the last has denominator 1 |
| KnotText.LastIndexOf | src/b_spline.py:96 | the position found holds the pattern and no later position does; no position is found only when the pattern occurs nowhere |
| KnotText.ReplaceLast | src/b_spline.py:96 | `rep.join(s.rsplit(pat, 1))` for a non-empty pat: unchanged when pat does not occur; otherwise the text before the last occurrence, then rep, then the text after that occurrence |
| KnotText.ListingIsJoin | src/b_spline.py:95 | the items each followed by ", " are the items joined by ", " plus one trailing ", " |
| KnotText.KnotVecStrShape | src/b_spline.py:93-97 | a non-empty knot list renders as "[" + knots joined by ", " + "]"; an empty one renders as "[" |
| Bezier.TablesShape | src/bezier.py:10-15 | the table has entries exactly for 2 to 5 control points (degrees 1 to 4), each a square matrix of that size |
| Bezier.PowerRow | src/bezier.py:51-53 | the row [t^n, …, t, 1]; the loop invariant of `CalcBezier` proves that T starts as the column of ones and gains one prepended power column per pass, so after i passes row j is the power row of degree i of sample j (`PowerRowPrepend` gives the step) |
| Bezier.SamplesAreHundredths | src/bezier.py:7 | sample j is j/100 |
| Bezier.CalcBezier | src/bezier.py:50-54 | an error exactly for degrees outside 1..4; otherwise 101 rows of the control points' dimension, row j the curve point at sample j; row 0 is V[n]; row 100 is V[0] for degrees 1, 2, 4 and V[0] + 2V[3] for degree 3 |
| Bezier.WeightsAtZero | src/bezier.py:51-54 | at t = 0 the weights are the last row of the matrix |
| Bezier.StartsAtLastControlPoint | src/bezier.py:10-15 | every supported degree gives V[n] at t = 0 |
| Bezier.BernsteinWeights | src/bezier.py:10-15 | for degrees 1, 2, 4 the weight of V[i] is C(n,i)·t^(n−i)·(1−t)^i |
| Bezier.WeightsSumToOne | src/bezier.py:10-15 | for degrees 1, 2, 4 the weights sum to 1 at every t |
| Bezier.EndsAtFirstControlPoint | src/bezier.py:10-15 | for degrees 1, 2, 4 the curve gives V[0] at t = 1 |
| Bezier.CubicWeightsAsWritten | src/bezier.py:13 | for degree 3 the first three weights are Bernstein but the weight of V[3] is t³ + 3t² − 3t + 1, and the weights sum to 2t³ + 1 |
| Bezier.CubicEndAsWritten | src/bezier.py:13 | for degree 3 the curve gives V[0] + 2·V[3] at t = 1 |
| Bezier.CubicCounterexample | src/bezier.py:13 | the polygon (0,0), (1,2), (3,2), (4,0) gives (4,0) at t = 0, (3,1.5) at t = 1/2 and (8,0), not a control point, at t = 1 |
| Bezier.CorrectedBernsteinWeights | src/bezier.py:13 | with −1 at row 0, column 3 every degree 1..4 has the weights C(n,i)·t^(n−i)·(1−t)^i |
| Bezier.CorrectedWeightsSumToOne | src/bezier.py:13 | with the corrected table the weights of every degree sum to 1 |
| Bezier.CorrectedEndpoints | src/bezier.py:13 | with the corrected table every degree gives V[n] at t = 0 and V[0] at t = 1 |
| Bezier.CorrectedCubicExample | src/bezier.py:13 | with the corrected table the same polygon gives (4,0), (2,1.5) and (0,0) at t = 0, 1/2, 1 |

## Left out

- The Streamlit user interface is not modelled: page title, sidebar
  widgets, control-point and weight inputs, `app.py` and its page dispatch.
  The settings arrive as parameters.
- Plotting (`show_bspline`, `show_bezier`): Plotly and pandas rendering only.
- Parsing the Custom knot text with `ast.literal_eval` is a library call.
  Its outcome is a parameter: `None` when the text does not parse, otherwise
  the parsed numbers.
- Rendering a number as text (`f"{i}"`) in `get_knot_vec_str`: the knots
  reach `KnotText.KnotVecStr` already rendered.
- Floating point: rounding, NaN and infinity are not modelled.
  - Numbers are exact reals.
  - A row divided by a zero denominator is the single value `Undefined`.
    numpy would give NaN or infinite coordinates.
- numpy shapes and broadcasting: matrices are sequences of rows. The unused
  module-level `V` of `src/bezier.py:8` is left out.
- CalcBSpline: the row for one sample is accumulated in a local vector and
  stored once, not added into `pts[t_i]` in place. The stored values are the
  same.
- CalcBSpline: requires at least two control points for Uniform, and at
  least one sample for Uniform and Uniform Open. The override indexes `V[-2]`,
  `pts[0]` and `pts[-1]`, and the page always provides 2 to 10 control points
  and 101 samples.
- EvaluateBSpline: requires at least two control points, as the page's
  selector guarantees. It does not require 1 ≤ k ≤ n.
- Bezier.BernsteinWeights: the closed forms are proved degree by degree for
  the four degrees in the table, not by a general binomial argument.
- CalcBezier uses the page's table as written, so the model computes what
  the page computes. The corrected table is used by the lemmas that state
  the intended behaviour.

## Findings

| source | as written | input that shows it | evidently intended | confidence | as-written member | corrected member |
|---|---|---|---|---|---|---|
| src/bezier.py:13 | row 0 of the four-point matrix is [1, −3, 3, 1], so the weight of V[3] is t³ + 3t² − 3t + 1 | control points (0,0), (1,2), (3,2), (4,0): the curve ends at (8,0) at t = 1 and passes (3, 1.5) at t = 1/2 | row 0 is [1, −3, 3, −1], the weight of V[3] is (1−t)³, the weights sum to 1 and the curve ends at V[0] = (0,0) | high (proved; not executed) | Bezier.CubicCounterexample | Bezier.CorrectedEndpoints |
