/**
 * The Bezier page's evaluator: a constant table of basis matrices keyed by
 * the number of control points, the 101 parameter samples t = j/100, and
 * calc_bezier, which builds the power rows [t^n, ..., t, 1], multiplies
 * them by the basis matrix and then by the control-point matrix.
 *
 * The table is the page's own, including the +1 at row 0, column 3 of the
 * four-point matrix; CorrectedBasisMatrices is the evidently intended one.
 */
module Bezier {
  import opened Wrappers
  import opened Vectors
  import opened Sampling

  type Matrix = seq<seq<real>>

  datatype BezierError = UnsupportedDegree

  /** A size-by-size matrix. */
  predicate Square(M: Matrix, size: nat)
  {
    |M| == size && forall r :: 0 <= r < size ==> |M[r]| == size
  }

  /** Basis matrices keyed by the number of control points, as the page defines them. */
  const BasisMatrices: map<nat, Matrix> := map[
    2 := [[1.0, -1.0],
          [0.0, 1.0]],
    3 := [[1.0, -2.0, 1.0],
          [0.0, 2.0, -2.0],
          [0.0, 0.0, 1.0]],
    4 := [[1.0, -3.0, 3.0, 1.0],
          [0.0, 3.0, -6.0, 3.0],
          [0.0, 0.0, 3.0, -3.0],
          [0.0, 0.0, 0.0, 1.0]],
    5 := [[1.0, -4.0, 6.0, -4.0, 1.0],
          [0.0, 4.0, -12.0, 12.0, -4.0],
          [0.0, 0.0, 6.0, -12.0, 6.0],
          [0.0, 0.0, 0.0, 4.0, -4.0],
          [0.0, 0.0, 0.0, 0.0, 1.0]]
  ]

  /** The same table with row 0, column 3 of the four-point matrix set to -1. */
  const CorrectedBasisMatrices: map<nat, Matrix> :=
    BasisMatrices[4 := [[1.0, -3.0, 3.0, -1.0],
                        [0.0, 3.0, -6.0, 3.0],
                        [0.0, 0.0, 3.0, -3.0],
                        [0.0, 0.0, 0.0, 1.0]]]

  /** A table whose entry for p control points is a p-by-p matrix. */
  predicate WellShaped(table: map<nat, Matrix>)
  {
    forall p :: p in table ==> Square(table[p], p)
  }

  /**
   * Both tables are defined exactly for 2 to 5 control points, that is for
   * degrees 1 to 4, and every entry has the right shape.
   */
  lemma TablesShape(n: nat)
    ensures n + 1 in BasisMatrices <==> 1 <= n <= 4
    ensures n + 1 in CorrectedBasisMatrices <==> 1 <= n <= 4
    ensures WellShaped(BasisMatrices) && WellShaped(CorrectedBasisMatrices)
  {
  }

  function Pow(x: real, e: nat): real
  {
    if e == 0 then 1.0 else x * Pow(x, e - 1)
  }

  lemma PowSmall(x: real)
    ensures Pow(x, 0) == 1.0 && Pow(x, 1) == x && Pow(x, 2) == x * x
    ensures Pow(x, 3) == x * x * x && Pow(x, 4) == x * x * x * x
  {
  }

  /** The power row [t^n, t^(n-1), ..., t, 1]. */
  function PowerRow(t: real, n: nat): (row: seq<real>)
    ensures |row| == n + 1 && row[n] == 1.0
    ensures forall r :: 0 <= r <= n ==> row[r] == Pow(t, n - r)
  {
    seq(n + 1, r requires 0 <= r <= n => Pow(t, n - r))
  }

  /** The sum of a[r] * b[r] over the first count entries. */
  function DotPrefix(a: seq<real>, b: seq<real>, count: nat): real
    requires count <= |a| && count <= |b|
  {
    if count == 0 then 0.0 else DotPrefix(a, b, count - 1) + a[count - 1] * b[count - 1]
  }

  function Dot(a: seq<real>, b: seq<real>): real
    requires |a| == |b|
  {
    DotPrefix(a, b, |a|)
  }

  function Column(M: Matrix, c: nat): (col: seq<real>)
    requires forall r :: 0 <= r < |M| ==> c < |M[r]|
    ensures |col| == |M| && forall r :: 0 <= r < |M| ==> col[r] == M[r][c]
  {
    seq(|M|, r requires 0 <= r < |M| => M[r][c])
  }

  /** The matrix product A * B. */
  function MatMul(A: Matrix, B: Matrix): (C: Matrix)
    requires |B| > 0 && (forall r :: 0 <= r < |B| ==> |B[r]| == |B[0]|)
    requires forall r :: 0 <= r < |A| ==> |A[r]| == |B|
    ensures |C| == |A| && forall r :: 0 <= r < |A| ==> |C[r]| == |B[0]|
  {
    seq(|A|, r requires 0 <= r < |A| =>
      seq(|B[0]|, c requires 0 <= c < |B[0]| => Dot(A[r], Column(B, c))))
  }

  /** The weight each control point gets at t: the power row times M. */
  function Weights(M: Matrix, n: nat, t: real): (w: seq<real>)
    requires Square(M, n + 1)
    ensures |w| == n + 1
  {
    seq(n + 1, i requires 0 <= i <= n => Dot(PowerRow(t, n), Column(M, i)))
  }

  /** The curve point at t: the weights times the control-point matrix. */
  function CurvePoint(M: Matrix, n: nat, V: seq<Vec>, t: real): (p: Vec)
    requires Square(M, n + 1) && IsPolygon(V) && |V| == n + 1
    ensures |p| == |V[0]|
  {
    var w := Weights(M, n, t);
    seq(|V[0]|, d requires 0 <= d < |V[0]| => Dot(w, Column(V, d)))
  }

  /** The page's parameter samples: 101 values evenly spaced over [0, 1]. */
  function Samples(): (t: seq<real>)
    ensures |t| == 101
  {
    Linspace(0.0, 1.0, 101)
  }

  /** The j-th sample is j/100, so the first is 0 and the last is 1. */
  lemma {:induction false} SamplesAreHundredths(j: nat)
    requires j <= 100
    ensures Samples()[j] == j as real / 100.0
  {
    if j > 0 {
      SamplesAreHundredths(j - 1);
      assert Samples()[j] - Samples()[j - 1] == 1.0 / 100.0;
    }
  }

  lemma PowerRowPrepend(t: real, i: nat)
    requires 1 <= i
    ensures PowerRow(t, i) == [Pow(t, i)] + PowerRow(t, i - 1)
  {
  }

  /**
   * calc_bezier: T starts as the column of ones and each pass prepends the
   * column t^i, so after the loop row j of T is the power row of sample j;
   * the table lookup then fails for a degree outside 1..4.
   */
  method CalcBezier(n: nat, V: seq<Vec>) returns (r: Result<Matrix, BezierError>)
    requires IsPolygon(V) && |V| == n + 1
    ensures r.Err? <==> !(1 <= n <= 4)
    ensures r.Ok? ==> |r.value| == 101 && forall j :: 0 <= j < 101 ==> |r.value[j]| == |V[0]|
    ensures r.Ok? ==> forall j :: 0 <= j < 101 ==>
              r.value[j] == CurvePoint(BasisMatrices[n + 1], n, V, Samples()[j])
    ensures r.Ok? ==> r.value[0] == V[n]
    ensures r.Ok? && n != 3 ==> r.value[100] == V[0]
    ensures r.Ok? && n == 3 ==> forall d :: 0 <= d < |V[0]| ==> r.value[100][d] == V[0][d] + 2.0 * V[3][d]
  {
    var t := Samples();
    var T: Matrix := seq(101, _ => [1.0]);
    var i := 1;
    while i <= n
      invariant 1 <= i <= n + 1
      invariant |T| == 101
      invariant forall j :: 0 <= j < 101 ==> T[j] == PowerRow(t[j], i - 1)
    {
      forall j | 0 <= j < 101
        ensures [Pow(t[j], i)] + T[j] == PowerRow(t[j], i)
      {
        PowerRowPrepend(t[j], i);
      }
      T := seq(101, j requires 0 <= j < 101 => [Pow(t[j], i)] + T[j]);
      i := i + 1;
    }
    TablesShape(n);
    if n + 1 !in BasisMatrices {
      return Err(UnsupportedDegree);
    }
    var M := BasisMatrices[n + 1];
    var W := MatMul(T, M);
    forall j | 0 <= j < 101
      ensures W[j] == Weights(M, n, t[j])
    {
    }
    r := Ok(MatMul(W, V));
    StartsAtLastControlPoint(n, V);
    if n == 3 {
      CubicEndAsWritten(V);
    } else {
      EndsAtFirstControlPoint(n, V);
    }
  }

  /**
   * A dot product with a vector that is 1 at position p and 0 elsewhere
   * picks out b[p].
   */
  lemma {:induction false} DotPrefixUnit(w: seq<real>, b: seq<real>, p: nat, count: nat)
    requires |w| == |b| && p < |w| && count <= |w|
    requires w[p] == 1.0 && forall r :: 0 <= r < |w| && r != p ==> w[r] == 0.0
    ensures DotPrefix(w, b, count) == if p < count then b[p] else 0.0
  {
    if count > 0 {
      DotPrefixUnit(w, b, p, count - 1);
    }
  }

  lemma DotUnit(w: seq<real>, b: seq<real>, p: nat)
    requires |w| == |b| && p < |w|
    requires w[p] == 1.0 && forall r :: 0 <= r < |w| && r != p ==> w[r] == 0.0
    ensures Dot(w, b) == b[p]
  {
    DotPrefixUnit(w, b, p, |w|);
  }

  /** When the weights are 1 at p and 0 elsewhere the curve point is V[p]. */
  lemma CurveAtUnitWeights(M: Matrix, n: nat, V: seq<Vec>, t: real, p: nat)
    requires Square(M, n + 1) && IsPolygon(V) && |V| == n + 1 && p <= n
    requires Weights(M, n, t)[p] == 1.0
    requires forall i :: 0 <= i <= n && i != p ==> Weights(M, n, t)[i] == 0.0
    ensures CurvePoint(M, n, V, t) == V[p]
  {
    forall d | 0 <= d < |V[0]|
      ensures CurvePoint(M, n, V, t)[d] == V[p][d]
    {
      DotUnit(Weights(M, n, t), Column(V, d), p);
    }
  }

  /** At t = 0 the weights are the last row of the matrix. */
  lemma WeightsAtZero(M: Matrix, n: nat)
    requires Square(M, n + 1)
    ensures forall i :: 0 <= i <= n ==> Weights(M, n, 0.0)[i] == M[n][i]
  {
    var row := PowerRow(0.0, n);
    forall r | 0 <= r <= n && r != n
      ensures row[r] == 0.0
    {
      assert Pow(0.0, n - r) == 0.0 * Pow(0.0, n - r - 1);
    }
    forall i | 0 <= i <= n
      ensures Weights(M, n, 0.0)[i] == M[n][i]
    {
      DotUnit(row, Column(M, i), n);
    }
  }

  /**
   * Every supported degree starts at the LAST control point: the last row
   * of every matrix in the table is [0, ..., 0, 1].
   */
  lemma StartsAtLastControlPoint(n: nat, V: seq<Vec>)
    requires 1 <= n <= 4 && IsPolygon(V) && |V| == n + 1
    ensures CurvePoint(BasisMatrices[n + 1], n, V, 0.0) == V[n]
  {
    TablesShape(n);
    var M := BasisMatrices[n + 1];
    WeightsAtZero(M, n);
    CurveAtUnitWeights(M, n, V, 0.0, n);
  }

  function Binomial(n: nat, i: nat): nat
  {
    if i == 0 || i >= n then (if i <= n then 1 else 0)
    else Binomial(n - 1, i - 1) + Binomial(n - 1, i)
  }

  /** The reversed Bernstein weight of control point i: C(n,i) t^(n-i) (1-t)^i. */
  function ReversedBernstein(n: nat, i: nat, t: real): real
    requires i <= n
  {
    Binomial(n, i) as real * Pow(t, n - i) * Pow(1.0 - t, i)
  }

  function Sum(s: seq<real>): real
  {
    if |s| == 0 then 0.0 else Sum(s[..|s| - 1]) + s[|s| - 1]
  }

  lemma SumOfFour(s: seq<real>)
    requires |s| == 4
    ensures Sum(s) == s[0] + s[1] + s[2] + s[3]
  {
    assert s[..3][..2] == s[..2] && s[..2][..1] == s[..1] && s[..1][..0] == [];
    assert Sum(s[..1]) == s[0];
    assert Sum(s[..2]) == s[0] + s[1];
    assert Sum(s[..3]) == s[0] + s[1] + s[2];
  }

  lemma DotOfTwo(a: seq<real>, b: seq<real>)
    requires |a| == |b| == 2
    ensures Dot(a, b) == a[0] * b[0] + a[1] * b[1]
  {
    assert DotPrefix(a, b, 1) == a[0] * b[0];
  }

  lemma DotOfThree(a: seq<real>, b: seq<real>)
    requires |a| == |b| == 3
    ensures Dot(a, b) == a[0] * b[0] + a[1] * b[1] + a[2] * b[2]
  {
    assert DotPrefix(a, b, 1) == a[0] * b[0];
    assert DotPrefix(a, b, 2) == a[0] * b[0] + a[1] * b[1];
  }

  lemma DotOfFour(a: seq<real>, b: seq<real>)
    requires |a| == |b| == 4
    ensures Dot(a, b) == a[0] * b[0] + a[1] * b[1] + a[2] * b[2] + a[3] * b[3]
  {
    assert DotPrefix(a, b, 1) == a[0] * b[0];
    assert DotPrefix(a, b, 2) == a[0] * b[0] + a[1] * b[1];
    assert DotPrefix(a, b, 3) == a[0] * b[0] + a[1] * b[1] + a[2] * b[2];
  }

  lemma DotOfFive(a: seq<real>, b: seq<real>)
    requires |a| == |b| == 5
    ensures Dot(a, b) == a[0] * b[0] + a[1] * b[1] + a[2] * b[2] + a[3] * b[3] + a[4] * b[4]
  {
    assert DotPrefix(a, b, 1) == a[0] * b[0];
    assert DotPrefix(a, b, 2) == a[0] * b[0] + a[1] * b[1];
    assert DotPrefix(a, b, 3) == a[0] * b[0] + a[1] * b[1] + a[2] * b[2];
    assert DotPrefix(a, b, 4) == a[0] * b[0] + a[1] * b[1] + a[2] * b[2] + a[3] * b[3];
  }

  lemma SumOfTwo(s: seq<real>)
    requires |s| == 2
    ensures Sum(s) == s[0] + s[1]
  {
    assert s[..1][..0] == [];
    assert Sum(s[..1]) == s[0];
  }

  lemma SumOfThree(s: seq<real>)
    requires |s| == 3
    ensures Sum(s) == s[0] + s[1] + s[2]
  {
    SumOfTwo(s[..2]);
  }

  lemma SumOfFive(s: seq<real>)
    requires |s| == 5
    ensures Sum(s) == s[0] + s[1] + s[2] + s[3] + s[4]
  {
    SumOfFour(s[..4]);
  }

  /** Weights of degree 1 as polynomials in t, for any 2-by-2 matrix. */
  lemma WeightsDegree1(M: Matrix, t: real)
    requires Square(M, 2)
    ensures forall i :: 0 <= i < 2 ==> Weights(M, 1, t)[i] == t * M[0][i] + M[1][i]
  {
    forall i | 0 <= i < 2
      ensures Weights(M, 1, t)[i] == t * M[0][i] + M[1][i]
    {
      DotOfTwo(PowerRow(t, 1), Column(M, i));
      PowSmall(t);
    }
  }

  lemma WeightsDegree2(M: Matrix, t: real)
    requires Square(M, 3)
    ensures forall i :: 0 <= i < 3 ==> Weights(M, 2, t)[i] == t * t * M[0][i] + t * M[1][i] + M[2][i]
  {
    forall i | 0 <= i < 3
      ensures Weights(M, 2, t)[i] == t * t * M[0][i] + t * M[1][i] + M[2][i]
    {
      DotOfThree(PowerRow(t, 2), Column(M, i));
      PowSmall(t);
    }
  }

  lemma WeightsDegree3(M: Matrix, t: real)
    requires Square(M, 4)
    ensures forall i :: 0 <= i < 4 ==>
              Weights(M, 3, t)[i] == t * t * t * M[0][i] + t * t * M[1][i] + t * M[2][i] + M[3][i]
  {
    forall i | 0 <= i < 4
      ensures Weights(M, 3, t)[i] == t * t * t * M[0][i] + t * t * M[1][i] + t * M[2][i] + M[3][i]
    {
      DotOfFour(PowerRow(t, 3), Column(M, i));
      PowSmall(t);
    }
  }

  lemma WeightsDegree4(M: Matrix, t: real)
    requires Square(M, 5)
    ensures forall i :: 0 <= i < 5 ==>
              Weights(M, 4, t)[i] == t * t * t * t * M[0][i] + t * t * t * M[1][i] + t * t * M[2][i] + t * M[3][i] + M[4][i]
  {
    forall i | 0 <= i < 5
      ensures Weights(M, 4, t)[i] == t * t * t * t * M[0][i] + t * t * t * M[1][i] + t * t * M[2][i] + t * M[3][i] + M[4][i]
    {
      DotOfFive(PowerRow(t, 4), Column(M, i));
      PowSmall(t);
    }
  }

  /**
   * For degrees 1, 2 and 4 the weight of V[i] is C(n,i) t^(n-i) (1-t)^i:
   * the Bernstein polynomials with t reversed.
   */
  lemma BernsteinWeights(n: nat, t: real, i: nat)
    requires n == 1 || n == 2 || n == 4
    requires i <= n
    ensures Weights(BasisMatrices[n + 1], n, t)[i] == ReversedBernstein(n, i, t)
  {
    PowSmall(t);
    PowSmall(1.0 - t);
    if n == 1 {
      WeightsDegree1(BasisMatrices[2], t);
    } else if n == 2 {
      WeightsDegree2(BasisMatrices[3], t);
      assert Binomial(2, 1) == 2;
      if i == 0 {
      } else if i == 1 {
      } else {
      }
    } else {
      WeightsDegree4(BasisMatrices[5], t);
      assert Binomial(4, 1) == 4 && Binomial(4, 2) == 6 && Binomial(4, 3) == 4;
      if i == 0 {
      } else if i == 1 {
      } else if i == 2 {
      } else if i == 3 {
      } else {
      }
    }
  }

  /** For degrees 1, 2 and 4 the weights sum to 1 at every t. */
  lemma WeightsSumToOne(n: nat, t: real)
    requires n == 1 || n == 2 || n == 4
    ensures Sum(Weights(BasisMatrices[n + 1], n, t)) == 1.0
  {
    if n == 1 {
      WeightsDegree1(BasisMatrices[2], t);
      SumOfTwo(Weights(BasisMatrices[2], 1, t));
    } else if n == 2 {
      WeightsDegree2(BasisMatrices[3], t);
      SumOfThree(Weights(BasisMatrices[3], 2, t));
    } else {
      WeightsDegree4(BasisMatrices[5], t);
      SumOfFive(Weights(BasisMatrices[5], 4, t));
    }
  }

  /** For degrees 1, 2 and 4 the curve ends at the FIRST control point. */
  lemma EndsAtFirstControlPoint(n: nat, V: seq<Vec>)
    requires n == 1 || n == 2 || n == 4
    requires IsPolygon(V) && |V| == n + 1
    ensures CurvePoint(BasisMatrices[n + 1], n, V, 1.0) == V[0]
  {
    if n == 1 {
      WeightsDegree1(BasisMatrices[2], 1.0);
    } else if n == 2 {
      WeightsDegree2(BasisMatrices[3], 1.0);
    } else {
      WeightsDegree4(BasisMatrices[5], 1.0);
    }
    CurveAtUnitWeights(BasisMatrices[n + 1], n, V, 1.0, 0);
  }

  /**
   * Degree 3 as written: the first three weights are Bernstein, but the
   * weight of V[3] is t^3 + 3t^2 - 3t + 1 instead of (1-t)^3, so the
   * weights sum to 2t^3 + 1.
   */
  lemma CubicWeightsAsWritten(t: real)
    ensures forall i :: 0 <= i < 3 ==> Weights(BasisMatrices[4], 3, t)[i] == ReversedBernstein(3, i, t)
    ensures Weights(BasisMatrices[4], 3, t)[3] == t * t * t + 3.0 * t * t - 3.0 * t + 1.0
    ensures Sum(Weights(BasisMatrices[4], 3, t)) == 2.0 * t * t * t + 1.0
  {
    var M := BasisMatrices[4];
    WeightsDegree3(M, t);
    SumOfFour(Weights(M, 3, t));
    PowSmall(t);
    PowSmall(1.0 - t);
    assert Binomial(3, 1) == 3 && Binomial(3, 2) == 3;
    forall i | 0 <= i < 3
      ensures Weights(M, 3, t)[i] == ReversedBernstein(3, i, t)
    {
      if i == 0 {
      } else if i == 1 {
      } else {
      }
    }
  }

  /** Degree 3 as written ends at V[0] + 2 V[3] rather than at V[0]. */
  lemma CubicEndAsWritten(V: seq<Vec>)
    requires IsPolygon(V) && |V| == 4
    ensures forall d :: 0 <= d < |V[0]| ==>
              CurvePoint(BasisMatrices[4], 3, V, 1.0)[d] == V[0][d] + 2.0 * V[3][d]
  {
    var M := BasisMatrices[4];
    WeightsDegree3(M, 1.0);
    var w := Weights(M, 3, 1.0);
    assert w == [1.0, 0.0, 0.0, 2.0];
    forall d | 0 <= d < |V[0]|
      ensures CurvePoint(M, 3, V, 1.0)[d] == V[0][d] + 2.0 * V[3][d]
    {
      DotOfFour(w, Column(V, d));
    }
  }

  /** A cubic curve point as the weighted sum of the four control points. */
  lemma CubicPointExpand(M: Matrix, V: seq<Vec>, t: real, d: nat)
    requires Square(M, 4) && IsPolygon(V) && |V| == 4 && d < |V[0]|
    ensures var w := Weights(M, 3, t);
            CurvePoint(M, 3, V, t)[d] == w[0] * V[0][d] + w[1] * V[1][d] + w[2] * V[2][d] + w[3] * V[3][d]
  {
    DotOfFour(Weights(M, 3, t), Column(V, d));
  }

  /**
   * The control polygon (0,0), (1,2), (3,2), (4,0) with four points: the
   * page's curve starts at (4,0), passes (3,1.5) at t = 1/2 and ends at
   * (8,0), a point that is not a control point at all.
   */
  lemma CubicCounterexample()
    ensures var V := [[0.0, 0.0], [1.0, 2.0], [3.0, 2.0], [4.0, 0.0]];
            && CurvePoint(BasisMatrices[4], 3, V, 0.0) == [4.0, 0.0]
            && CurvePoint(BasisMatrices[4], 3, V, 0.5) == [3.0, 1.5]
            && CurvePoint(BasisMatrices[4], 3, V, 1.0) == [8.0, 0.0]
            && CurvePoint(BasisMatrices[4], 3, V, 1.0) !in V
  {
    var V := [[0.0, 0.0], [1.0, 2.0], [3.0, 2.0], [4.0, 0.0]];
    StartsAtLastControlPoint(3, V);
    CubicEndAsWritten(V);
    WeightsDegree3(BasisMatrices[4], 0.5);
    CubicPointExpand(BasisMatrices[4], V, 0.5, 0);
    CubicPointExpand(BasisMatrices[4], V, 0.5, 1);
  }

  /**
   * The same polygon with the corrected table: (4,0) at t = 0, (2,1.5) at
   * t = 1/2 and (0,0) at t = 1.
   */
  lemma CorrectedCubicExample()
    ensures var V := [[0.0, 0.0], [1.0, 2.0], [3.0, 2.0], [4.0, 0.0]];
            && CurvePoint(CorrectedBasisMatrices[4], 3, V, 0.0) == [4.0, 0.0]
            && CurvePoint(CorrectedBasisMatrices[4], 3, V, 0.5) == [2.0, 1.5]
            && CurvePoint(CorrectedBasisMatrices[4], 3, V, 1.0) == [0.0, 0.0]
  {
    var V := [[0.0, 0.0], [1.0, 2.0], [3.0, 2.0], [4.0, 0.0]];
    CorrectedEndpoints(3, V);
    WeightsDegree3(CorrectedBasisMatrices[4], 0.5);
    CubicPointExpand(CorrectedBasisMatrices[4], V, 0.5, 0);
    CubicPointExpand(CorrectedBasisMatrices[4], V, 0.5, 1);
  }

  /**
   * With the corrected table every supported degree has the reversed
   * Bernstein weights.
   */
  lemma CorrectedBernsteinWeights(n: nat, t: real, i: nat)
    requires 1 <= n <= 4 && i <= n
    ensures Weights(CorrectedBasisMatrices[n + 1], n, t)[i] == ReversedBernstein(n, i, t)
  {
    if n == 3 {
      WeightsDegree3(CorrectedBasisMatrices[4], t);
      PowSmall(t);
      PowSmall(1.0 - t);
      assert Binomial(3, 1) == 3 && Binomial(3, 2) == 3;
      if i == 0 {
      } else if i == 1 {
      } else if i == 2 {
      } else {
      }
    } else {
      assert CorrectedBasisMatrices[n + 1] == BasisMatrices[n + 1];
      BernsteinWeights(n, t, i);
    }
  }

  /** With the corrected table the weights of every degree sum to 1. */
  lemma CorrectedWeightsSumToOne(n: nat, t: real)
    requires 1 <= n <= 4
    ensures Sum(Weights(CorrectedBasisMatrices[n + 1], n, t)) == 1.0
  {
    if n == 3 {
      WeightsDegree3(CorrectedBasisMatrices[4], t);
      SumOfFour(Weights(CorrectedBasisMatrices[4], 3, t));
    } else {
      assert CorrectedBasisMatrices[n + 1] == BasisMatrices[n + 1];
      WeightsSumToOne(n, t);
    }
  }

  /**
   * With the corrected table every degree runs from V[n] at t = 0 to V[0]
   * at t = 1.
   */
  lemma CorrectedEndpoints(n: nat, V: seq<Vec>)
    requires 1 <= n <= 4 && IsPolygon(V) && |V| == n + 1
    ensures CurvePoint(CorrectedBasisMatrices[n + 1], n, V, 0.0) == V[n]
    ensures CurvePoint(CorrectedBasisMatrices[n + 1], n, V, 1.0) == V[0]
  {
    if n == 3 {
      var M := CorrectedBasisMatrices[4];
      WeightsAtZero(M, 3);
      CurveAtUnitWeights(M, 3, V, 0.0, 3);
      WeightsDegree3(M, 1.0);
      CurveAtUnitWeights(M, 3, V, 1.0, 0);
    } else {
      assert CorrectedBasisMatrices[n + 1] == BasisMatrices[n + 1];
      StartsAtLastControlPoint(n, V);
      EndsAtFirstControlPoint(n, V);
    }
  }
}
