/**
 * Knot vectors of the B-Spline page: the Uniform and Uniform Open builders,
 * the length check applied to a Custom vector, and the sample domain.
 * Here n is the number of control points minus one and k the degree, so a
 * knot vector has m + 1 = n + k + 2 entries.
 */
module Knots {

  import opened Wrappers
  import opened Sampling

  datatype KnotType = Uniform | UniformOpen | Custom

  /** The one error the page reports ("Invalid Knot Vector!") before giving up. */
  datatype KnotError = InvalidKnotVector

  predicate NonDecreasing(s: seq<real>)
  {
    forall a, b :: 0 <= a <= b < |s| ==> s[a] <= s[b]
  }

  /** m + 1, where m = (n + 1) + k */
  function KnotCount(n: nat, k: nat): nat
  {
    n + k + 2
  }

  /** The Uniform vector [0, 1, ..., m]. */
  function UniformKnots(n: nat, k: nat): (r: seq<real>)
    ensures |r| == KnotCount(n, k)
    ensures forall j :: 0 <= j < |r| ==> r[j] == j as real
    ensures forall a, b :: 0 <= a < b < |r| ==> r[a] < r[b]
  {
    seq(KnotCount(n, k), j => j as real)
  }

  function Max(a: nat, b: nat): nat
  {
    if a < b then b else a
  }

  /**
   * Reference definition of the Uniform Open vector: [0, ..., m] after the
   * entries below index k are set to k and then the entries from n + 2 on are
   * set to (the new) entry n + 1.
   */
  function OpenKnots(n: nat, k: nat): seq<real>
  {
    seq(KnotCount(n, k), (j: nat) => (if j >= n + 2 then Max(n + 1, k) else Max(j, k)) as real)
  }

  /**
   * When k <= n + 1 (the page only offers k <= n) the Uniform Open vector is
   * clamped: k + 1 copies of k, the middle indices, then k + 1 copies of n + 1.
   */
  predicate Clamped(knots: seq<real>, n: nat, k: nat)
  {
    && |knots| == KnotCount(n, k)
    && (forall j :: 0 <= j <= k ==> knots[j] == k as real)
    && (forall j :: k < j < n + 1 ==> knots[j] == j as real)
    && (forall j :: n + 1 <= j < |knots| ==> knots[j] == (n + 1) as real)
  }

  lemma ClampedIsNonDecreasing(knots: seq<real>, n: nat, k: nat)
    requires k <= n + 1 && Clamped(knots, n, k)
    ensures NonDecreasing(knots)
  {
    forall a, b | 0 <= a <= b < |knots|
      ensures knots[a] <= knots[b]
    {
      assert k as real <= knots[a] <= (n + 1) as real;
      assert k as real <= knots[b] <= (n + 1) as real;
    }
  }

  lemma OpenKnotsClamped(n: nat, k: nat)
    requires k <= n + 1
    ensures Clamped(OpenKnots(n, k), n, k)
    ensures NonDecreasing(OpenKnots(n, k))
  {
    ClampedIsNonDecreasing(OpenKnots(n, k), n, k);
  }

  /**
   * The Uniform Open builder as the page runs it: fill [0, ..., m], then the
   * two slice assignments knots[:k] = knots[k] and knots[n+2:] = knots[n+1].
   */
  method BuildUniformOpen(n: nat, k: nat) returns (knots: seq<real>)
    ensures knots == OpenKnots(n, k)
    ensures k <= n + 1 ==> Clamped(knots, n, k) && NonDecreasing(knots)
  {
    var m := n + 1 + k;
    var a := new real[m + 1];
    var j := 0;
    while j <= m
      invariant 0 <= j <= m + 1
      invariant forall q :: 0 <= q < j ==> a[q] == q as real
    {
      a[j] := j as real;
      j := j + 1;
    }
    var low := a[k];
    j := 0;
    while j < k
      invariant 0 <= j <= k
      invariant forall q :: 0 <= q < j ==> a[q] == k as real
      invariant forall q :: j <= q <= m ==> a[q] == q as real
    {
      a[j] := low;
      j := j + 1;
    }
    var high := a[n + 1];
    assert high == Max(n + 1, k) as real;
    j := n + 2;
    while j <= m
      invariant n + 2 <= j <= m + 1
      invariant forall q :: 0 <= q < n + 2 ==> a[q] == Max(q, k) as real
      invariant forall q :: n + 2 <= q < j ==> a[q] == high
      invariant forall q :: j <= q <= m ==> a[q] == Max(q, k) as real
    {
      a[j] := high;
      j := j + 1;
    }
    knots := a[..];
    if k <= n + 1 {
      OpenKnotsClamped(n, k);
    }
  }

  /**
   * The check applied to a Custom vector once its text has been parsed
   * (None: the text did not parse). Only the length is checked; the order of
   * the entries is not.
   */
  function CheckCustom(n: nat, k: nat, parsed: Option<seq<real>>): (r: Result<seq<real>, KnotError>)
    ensures r.Ok? <==> parsed.Some? && |parsed.value| == KnotCount(n, k)
    ensures r.Ok? ==> r.value == parsed.value
  {
    match parsed
    case None => Err(InvalidKnotVector)
    case Some(knots) =>
      if |knots| != KnotCount(n, k) then Err(InvalidKnotVector) else Ok(knots)
  }

  /** A decreasing Custom vector of the right length is accepted. */
  lemma CustomOrderNotChecked()
    ensures var knots := [3.0, 2.0, 1.0, 0.0];
            CheckCustom(1, 1, Some(knots)) == Ok(knots) && !NonDecreasing(knots)
  {
    var knots := [3.0, 2.0, 1.0, 0.0];
    assert knots[0] > knots[1];
  }

  /** The knot vector the page settles on for the chosen category, or its error. */
  function KnotVectorFor(n: nat, k: nat, kind: KnotType, parsed: Option<seq<real>>): (r: Result<seq<real>, KnotError>)
    ensures r.Ok? ==> |r.value| == KnotCount(n, k)
    ensures r.Err? <==> kind == Custom && !(parsed.Some? && |parsed.value| == KnotCount(n, k))
  {
    match kind
    case Uniform => Ok(UniformKnots(n, k))
    case UniformOpen => Ok(OpenKnots(n, k))
    case Custom => CheckCustom(n, k, parsed)
  }

  /**
   * The knot vector the page builds for the chosen category; the Uniform
   * Open vector comes from the in-place builder.
   */
  method BuildKnots(n: nat, k: nat, kind: KnotType, parsed: Option<seq<real>>)
    returns (r: Result<seq<real>, KnotError>)
    ensures r == KnotVectorFor(n, k, kind, parsed)
  {
    match kind
    case Custom =>
      r := CheckCustom(n, k, parsed);
    case Uniform =>
      r := Ok(UniformKnots(n, k));
    case UniformOpen =>
      var knots := BuildUniformOpen(n, k);
      r := Ok(knots);
  }

  /**
   * The 101 sample parameters, evenly spaced from knots[k] to knots[n + 1].
   */
  function Domain(knots: seq<real>, n: nat, k: nat): (T: seq<real>)
    requires k < |knots| && n + 1 < |knots|
    ensures |T| == 101 && T[0] == knots[k] && T[100] == knots[n + 1]
    ensures forall j :: 0 <= j < 100 ==> T[j + 1] - T[j] == (knots[n + 1] - knots[k]) / 100.0
  {
    Linspace(knots[k], knots[n + 1], 101)
  }

  /**
   * On a non-decreasing vector with k <= n + 1 every sample lies in
   * [knots[k], knots[n + 1]], and every sample but the last lies below
   * knots[n + 1] when that span is not empty.
   */
  lemma DomainInSpan(knots: seq<real>, n: nat, k: nat, j: nat)
    requires n + 1 < |knots| && k <= n + 1 && NonDecreasing(knots) && j < 101
    ensures knots[k] <= Domain(knots, n, k)[j] <= knots[n + 1]
    ensures j < 100 && knots[k] < knots[n + 1] ==> Domain(knots, n, k)[j] < knots[n + 1]
  {
    LinspaceBounds(knots[k], knots[n + 1], 101, j);
  }
}
