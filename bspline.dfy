/**
 * calc_bspline: the rational (NURBS) weighted sum of the control points at
 * every sample, followed by the boundary override of the chosen knot
 * category, and the page's flow from knot vector to curve.
 */
module BSpline {

  import opened Wrappers
  import opened Vectors
  import opened Knots
  import opened CoxDeBoor

  /**
   * One row of pts. Undefined stands for the row numpy leaves after dividing
   * by a zero denominator (NaN or infinite coordinates).
   */
  datatype Eval = Point(coords: Vec) | Undefined

  /** N(0,k)(t)*w[0] + ... + N(count-1,k)(t)*w[count-1] */
  function Denominator(k: nat, knots: seq<real>, w: seq<real>, t: real, count: nat): real
    requires count <= |w| && count + k < |knots|
  {
    if count == 0 then 0.0
    else Denominator(k, knots, w, t, count - 1) + Basis(count - 1, k, knots, t) * w[count - 1]
  }

  /** Coordinate d of V[0]*N(0,k)(t)*w[0] + ... + V[count-1]*N(count-1,k)(t)*w[count-1] */
  function WeightedCoord(k: nat, knots: seq<real>, V: seq<Vec>, w: seq<real>, t: real, d: nat, count: nat): real
    requires IsPolygon(V) && |w| == |V| && count <= |V| && count + k < |knots| && d < |V[0]|
  {
    if count == 0 then 0.0
    else WeightedCoord(k, knots, V, w, t, d, count - 1) + V[count - 1][d] * (Basis(count - 1, k, knots, t) * w[count - 1])
  }

  /** The weighted sum of all control points, V[0]*N(0,k)(t)*w[0] + ... + V[n]*N(n,k)(t)*w[n]. */
  function Numerator(k: nat, knots: seq<real>, V: seq<Vec>, w: seq<real>, t: real): (r: Vec)
    requires IsPolygon(V) && |w| == |V| && |V| + k < |knots|
    ensures |r| == |V[0]|
  {
    seq(|V[0]|, d requires 0 <= d < |V[0]| => WeightedCoord(k, knots, V, w, t, d, |V|))
  }

  /**
   * The curve point at t before any override: the weighted sum divided by the
   * sum of the weights, Undefined when that sum is 0.
   */
  function RationalPoint(k: nat, knots: seq<real>, V: seq<Vec>, w: seq<real>, t: real): (r: Eval)
    requires IsPolygon(V) && |w| == |V| && |V| + k < |knots|
    ensures r.Point? <==> Denominator(k, knots, w, t, |V|) != 0.0
    ensures r.Point? ==> |r.coords| == |V[0]|
    ensures r.Point? ==> forall d :: 0 <= d < |V[0]| ==>
              r.coords[d] * Denominator(k, knots, w, t, |V|) == Numerator(k, knots, V, w, t)[d]
  {
    var denom := Denominator(k, knots, w, t, |V|);
    if denom == 0.0 then Undefined else Point(Divide(Numerator(k, knots, V, w, t), denom))
  }

  /**
   * calc_bspline(k, T, V, knots, knot_type, w). The knot vector must cover
   * every index the basis functions read (|knots| >= n + k + 2 for the n + 1
   * control points). The override writes pts[0] and pts[-1], so Uniform and
   * Uniform Open need at least one sample, and Uniform reads V[1] and V[-2].
   */
  method CalcBSpline(k: nat, T: seq<real>, V: seq<Vec>, knots: seq<real>, kind: KnotType, w: seq<real>)
    returns (pts: seq<Eval>)
    requires kind != Custom ==> |T| >= 1
    requires IsPolygon(V) && |w| == |V| && |V| + k < |knots|
    requires kind == Uniform ==> |V| >= 2
    ensures |pts| == |T|
    ensures forall j :: 0 < j < |T| - 1 ==> pts[j] == RationalPoint(k, knots, V, w, T[j])
    ensures kind == Uniform ==>
              && (|T| > 1 ==> pts[0] == Point(Midpoint(V[0], V[1])))
              && pts[|T| - 1] == Point(Midpoint(V[|V| - 1], V[|V| - 2]))
    ensures kind == UniformOpen ==>
              && (|T| > 1 ==> pts[0] == Point(V[0]))
              && pts[|T| - 1] == Point(V[|V| - 1])
    ensures kind == Custom ==> forall j :: 0 <= j < |T| ==> pts[j] == RationalPoint(k, knots, V, w, T[j])
  {
    var dim := |V[0]|;
    var a := new Eval[|T|](_ => Point(Zero(dim)));
    var ti := 0;
    while ti < |T|
      invariant 0 <= ti <= |T|
      invariant forall j :: 0 <= j < ti ==> a[j] == RationalPoint(k, knots, V, w, T[j])
    {
      var t := T[ti];
      var row := Zero(dim);
      var denom := 0.0;
      var i := 0;
      while i < |V|
        invariant 0 <= i <= |V|
        invariant |row| == dim
        invariant forall d :: 0 <= d < dim ==> row[d] == WeightedCoord(k, knots, V, w, t, d, i)
        invariant denom == Denominator(k, knots, w, t, i)
      {
        var nik := Basis(i, k, knots, t);
        row := Add(row, Scale(V[i], nik * w[i]));
        denom := denom + nik * w[i];
        i := i + 1;
      }
      assert row == Numerator(k, knots, V, w, t);
      a[ti] := if denom == 0.0 then Undefined else Point(Divide(row, denom));
      ti := ti + 1;
    }
    // The override of the two end rows; Custom keeps them.
    var last := |T| - 1;
    if kind == Uniform {
      a[0] := Point(Midpoint(V[0], V[1]));
      a[last] := Point(Midpoint(V[|V| - 1], V[|V| - 2]));
    } else if kind == UniformOpen {
      a[0] := Point(V[0]);
      a[last] := Point(V[|V| - 1]);
    }
    pts := a[..];
  }

  /** Every weight multiplied by the same constant c. */
  function ScaleWeights(w: seq<real>, c: real): (r: seq<real>)
    ensures |r| == |w|
  {
    seq(|w|, i requires 0 <= i < |w| => w[i] * c)
  }

  lemma {:induction false} DenominatorScales(k: nat, knots: seq<real>, w: seq<real>, t: real, count: nat, c: real)
    requires count <= |w| && count + k < |knots|
    ensures Denominator(k, knots, ScaleWeights(w, c), t, count) == Denominator(k, knots, w, t, count) * c
  {
    if count > 0 {
      DenominatorScales(k, knots, w, t, count - 1, c);
      var b := Basis(count - 1, k, knots, t);
      assert b * (w[count - 1] * c) == (b * w[count - 1]) * c;
    }
  }

  lemma {:induction false} WeightedCoordScales(k: nat, knots: seq<real>, V: seq<Vec>, w: seq<real>, t: real, d: nat, count: nat, c: real)
    requires IsPolygon(V) && |w| == |V| && count <= |V| && count + k < |knots| && d < |V[0]|
    ensures WeightedCoord(k, knots, V, ScaleWeights(w, c), t, d, count) == WeightedCoord(k, knots, V, w, t, d, count) * c
  {
    if count > 0 {
      WeightedCoordScales(k, knots, V, w, t, d, count - 1, c);
      var b := Basis(count - 1, k, knots, t);
      var x := V[count - 1][d];
      assert x * (b * (w[count - 1] * c)) == (x * (b * w[count - 1])) * c;
    }
  }

  /**
   * Multiplying every weight by the same non-zero constant changes no curve
   * point: defined points stay equal and undefined ones stay undefined.
   */
  lemma WeightScaling(k: nat, knots: seq<real>, V: seq<Vec>, w: seq<real>, t: real, c: real)
    requires IsPolygon(V) && |w| == |V| && |V| + k < |knots| && c != 0.0
    ensures RationalPoint(k, knots, V, ScaleWeights(w, c), t) == RationalPoint(k, knots, V, w, t)
  {
    var w' := ScaleWeights(w, c);
    var den := Denominator(k, knots, w, t, |V|);
    DenominatorScales(k, knots, w, t, |V|, c);
    assert Denominator(k, knots, w', t, |V|) == den * c;
    if den != 0.0 {
      var p := RationalPoint(k, knots, V, w, t).coords;
      var p' := RationalPoint(k, knots, V, w', t).coords;
      forall d | 0 <= d < |V[0]|
        ensures p'[d] == p[d]
      {
        WeightedCoordScales(k, knots, V, w, t, d, |V|, c);
        CancelFactor(WeightedCoord(k, knots, V, w, t, d, |V|), den, c);
      }
    }
  }

  lemma CancelFactor(x: real, y: real, c: real)
    requires y != 0.0 && c != 0.0
    ensures (x * c) / (y * c) == x / y
  {
    var q := x / y;
    assert q * y == x;
    assert (q * (y * c)) == x * c;
  }

  function Ones(count: nat): (r: seq<real>)
    ensures |r| == count
  {
    seq(count, _ => 1.0)
  }

  lemma {:induction false} UnitDenominatorPrefix(k: nat, knots: seq<real>, t: real, count: nat, size: nat)
    requires count <= size && size + k < |knots|
    ensures Denominator(k, knots, Ones(size), t, count) == BasisSum(0, count, k, knots, t)
  {
    if count > 0 {
      UnitDenominatorPrefix(k, knots, t, count - 1, size);
    }
  }

  /**
   * With the default weights (all 1) and a non-decreasing knot vector, a
   * parameter in [knots[k], knots[n+1]) has denominator 1: the rational
   * curve is the plain B-Spline sum of V[i]*N(i,k)(t).
   */
  lemma UnitWeightsPlainBSpline(k: nat, knots: seq<real>, V: seq<Vec>, t: real)
    requires IsPolygon(V) && |V| + k < |knots| && NonDecreasing(knots)
    requires knots[k] <= t < knots[|V|]
    ensures Denominator(k, knots, Ones(|V|), t, |V|) == 1.0
    ensures RationalPoint(k, knots, V, Ones(|V|), t) == Point(Numerator(k, knots, V, Ones(|V|), t))
  {
    UnitDenominatorPrefix(k, knots, t, |V|, |V|);
    PartitionOfUnity(|V| - 1, k, knots, t);
  }

  lemma {:induction false} DenominatorVanishes(k: nat, knots: seq<real>, w: seq<real>, t: real, count: nat)
    requires count <= |w| && count + k < |knots| && NonDecreasing(knots)
    requires forall i :: 0 <= i < |w| ==> w[i] > 0.0
    ensures Denominator(k, knots, w, t, count) >= 0.0
    ensures Denominator(k, knots, w, t, count) == 0.0 ==> BasisSum(0, count, k, knots, t) == 0.0
  {
    if count > 0 {
      DenominatorVanishes(k, knots, w, t, count - 1);
      NonNegative(count - 1, k, knots, t);
      ZeroProduct(Basis(count - 1, k, knots, t), w[count - 1]);
    }
  }

  lemma ZeroProduct(b: real, x: real)
    requires b >= 0.0 && x > 0.0
    ensures b * x >= 0.0
    ensures b * x == 0.0 ==> b == 0.0
  {
  }

  /**
   * With positive weights and a non-decreasing knot vector, every parameter
   * in [knots[k], knots[n+1]) gives a defined point.
   */
  lemma PositiveWeightsDefined(k: nat, knots: seq<real>, V: seq<Vec>, w: seq<real>, t: real)
    requires IsPolygon(V) && |w| == |V| && |V| + k < |knots| && NonDecreasing(knots)
    requires forall i :: 0 <= i < |w| ==> w[i] > 0.0
    requires knots[k] <= t < knots[|V|]
    ensures RationalPoint(k, knots, V, w, t).Point?
  {
    DenominatorVanishes(k, knots, w, t, |V|);
    PartitionOfUnity(|V| - 1, k, knots, t);
  }

  lemma {:induction false} DenominatorOutsideSupport(k: nat, knots: seq<real>, w: seq<real>, t: real, count: nat)
    requires count <= |w| && count + k < |knots| && NonDecreasing(knots)
    requires forall i :: 0 <= i < count ==> Outside(i, k, knots, t)
    ensures Denominator(k, knots, w, t, count) == 0.0
  {
    if count > 0 {
      DenominatorOutsideSupport(k, knots, w, t, count - 1);
      assert Outside(count - 1, k, knots, t);
      LocalSupport(count - 1, k, knots, t);
    }
  }

  /**
   * On the Uniform Open vector the last sample, t = knots[n+1], is beyond the
   * support of every basis function, so the computed point is undefined
   * before the boundary override replaces it.
   */
  lemma OpenLastSampleUndefined(n: nat, k: nat, V: seq<Vec>, w: seq<real>)
    requires k <= n + 1 && IsPolygon(V) && |V| == n + 1 && |w| == n + 1
    ensures RationalPoint(k, OpenKnots(n, k), V, w, Domain(OpenKnots(n, k), n, k)[100]) == Undefined
  {
    var knots := OpenKnots(n, k);
    OpenKnotsClamped(n, k);
    var t := Domain(knots, n, k)[100];
    assert t == (n + 1) as real;
    forall i | 0 <= i < n + 1
      ensures Outside(i, k, knots, t)
    {
      assert knots[i + k + 1] <= (n + 1) as real;
    }
    DenominatorOutsideSupport(k, knots, w, t, n + 1);
  }

  /**
   * A Custom vector gets no override, so its last point can stay undefined:
   * the clamped vector [0, 0, 1, 1] with two control points (n = 1, k = 1)
   * is accepted, and its last sample t = 1 is outside every support.
   */
  lemma CustomLastSampleMayBeUndefined(V: seq<Vec>, w: seq<real>)
    requires IsPolygon(V) && |V| == 2 && |w| == 2
    ensures var knots := [0.0, 0.0, 1.0, 1.0];
            && CheckCustom(1, 1, Some(knots)) == Ok(knots)
            && NonDecreasing(knots)
            && RationalPoint(1, knots, V, w, Domain(knots, 1, 1)[100]) == Undefined
  {
    var knots := [0.0, 0.0, 1.0, 1.0];
    var t := Domain(knots, 1, 1)[100];
    assert t == 1.0;
    assert Outside(0, 1, knots, t) && Outside(1, 1, knots, t);
    DenominatorOutsideSupport(1, knots, w, t, 2);
  }

  /**
   * The B-Spline page from the settings to the curve: build or check the
   * knot vector (an invalid Custom vector stops here and no curve is
   * computed), sample the domain, evaluate.
   */
  method EvaluateBSpline(n: nat, k: nat, kind: KnotType, parsed: Option<seq<real>>, V: seq<Vec>, w: seq<real>)
    returns (r: Result<seq<Eval>, KnotError>)
    requires 1 <= n && IsPolygon(V) && |V| == n + 1 && |w| == n + 1
    ensures r.Err? <==> KnotVectorFor(n, k, kind, parsed).Err?
    ensures r.Ok? ==> |r.value| == 101
    ensures r.Ok? ==>
              var knots := KnotVectorFor(n, k, kind, parsed).value;
              forall j :: 0 < j < 100 ==> r.value[j] == RationalPoint(k, knots, V, w, Domain(knots, n, k)[j])
    ensures r.Ok? && kind == Uniform ==>
              r.value[0] == Point(Midpoint(V[0], V[1])) && r.value[100] == Point(Midpoint(V[n], V[n - 1]))
    ensures r.Ok? && kind == UniformOpen ==>
              r.value[0] == Point(V[0]) && r.value[100] == Point(V[n])
    ensures r.Ok? && kind == Custom ==>
              var knots := parsed.value;
              forall j :: 0 <= j < 101 ==> r.value[j] == RationalPoint(k, knots, V, w, Domain(knots, n, k)[j])
  {
    var built := BuildKnots(n, k, kind, parsed);
    if built.Err? {
      return Err(built.error);
    }
    var knots := built.value;
    var T := Domain(knots, n, k);
    var pts := CalcBSpline(k, T, V, knots, kind, w);
    r := Ok(pts);
  }

  /**
   * With the default weights, every sample of a Uniform or Uniform Open curve
   * except the last (which the override replaces) has denominator 1.
   */
  lemma DefaultWeightsDenominatorOne(n: nat, k: nat, kind: KnotType, j: nat)
    requires 1 <= k <= n && kind != Custom && j < 100
    ensures var knots := KnotVectorFor(n, k, kind, None).value;
            Denominator(k, knots, Ones(n + 1), Domain(knots, n, k)[j], n + 1) == 1.0
  {
    var knots := KnotVectorFor(n, k, kind, None).value;
    if kind == UniformOpen {
      OpenKnotsClamped(n, k);
    }
    assert knots[k] == k as real && knots[n + 1] == (n + 1) as real;
    assert NonDecreasing(knots);
    DomainInSpan(knots, n, k, j);
    UnitDenominatorPrefix(k, knots, Domain(knots, n, k)[j], n + 1, n + 1);
    PartitionOfUnity(n, k, knots, Domain(knots, n, k)[j]);
  }

  /**
   * The Custom check does not look at the order, and without order the
   * basis functions can be negative: on [0, 1, -5, -4, 7, 8] (n = 2, k = 2)
   * the zero-width guard does not fire for the backwards span [0, -5].
   */
  lemma UnorderedCustomNegativeBasis()
    ensures var knots := [0.0, 1.0, -5.0, -4.0, 7.0, 8.0];
            && CheckCustom(2, 2, Some(knots)) == Ok(knots)
            && Basis(0, 2, knots, 0.5) == -0.05
  {
    var knots := [0.0, 1.0, -5.0, -4.0, 7.0, 8.0];
    assert Basis(0, 1, knots, 0.5) == 0.5;
    assert Basis(1, 1, knots, 0.5) == 0.0;
  }
}
