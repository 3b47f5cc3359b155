/**
 * The Cox-de Boor basis functions N(i,k)(t) of get_basis_func, with the
 * zero-width-span guards of the source, and what they satisfy on a
 * non-decreasing knot vector: local support, non-negativity and partition
 * of unity.
 */
module CoxDeBoor {

  import opened Knots

  /**
   * N(i,k)(t). Degree 0 is the indicator of [knots[i], knots[i+1]); above it
   * N(i,k) is the sum of the two terms of the recursion.
   */
  function Basis(i: nat, k: nat, knots: seq<real>, t: real): real
    requires i + k + 1 < |knots|
    decreases k, 1
  {
    if k == 0 then
      if knots[i] <= t < knots[i + 1] then 1.0 else 0.0
    else
      Term1(i, k, knots, t) + Term2(i, k, knots, t)
  }

  /** term1 of N(i,k): (t - knots[i]) / (knots[i+k] - knots[i]) * N(i,k-1)(t), or 0 when that span has zero width. */
  function Term1(i: nat, k: nat, knots: seq<real>, t: real): real
    requires 1 <= k && i + k + 1 < |knots|
    decreases k, 0
  {
    if knots[i + k] == knots[i] then 0.0
    else (t - knots[i]) / (knots[i + k] - knots[i]) * Basis(i, k - 1, knots, t)
  }

  /** term2 of N(i,k): (knots[i+k+1] - t) / (knots[i+k+1] - knots[i+1]) * N(i+1,k-1)(t), or 0 when that span has zero width. */
  function Term2(i: nat, k: nat, knots: seq<real>, t: real): real
    requires 1 <= k && i + k + 1 < |knots|
    decreases k, 0
  {
    if knots[i + k + 1] == knots[i + 1] then 0.0
    else (knots[i + k + 1] - t) / (knots[i + k + 1] - knots[i + 1]) * Basis(i + 1, k - 1, knots, t)
  }

  /** Degree 0 is 1 exactly on [knots[i], knots[i+1]) and 0 elsewhere. */
  lemma BaseCase(i: nat, knots: seq<real>, t: real)
    requires i + 1 < |knots|
    ensures Basis(i, 0, knots, t) == 1.0 <==> knots[i] <= t < knots[i + 1]
    ensures Basis(i, 0, knots, t) == 0.0 <==> !(knots[i] <= t < knots[i + 1])
  {
  }

  /** N(i,k) vanishes outside [knots[i], knots[i+k+1]). */
  lemma {:induction false} LocalSupport(i: nat, k: nat, knots: seq<real>, t: real)
    requires i + k + 1 < |knots| && NonDecreasing(knots)
    requires t < knots[i] || knots[i + k + 1] <= t
    ensures Basis(i, k, knots, t) == 0.0
    decreases k
  {
    if k > 0 {
      LocalSupport(i, k - 1, knots, t);
      LocalSupport(i + 1, k - 1, knots, t);
      assert Term1(i, k, knots, t) == 0.0;
      assert Term2(i, k, knots, t) == 0.0;
    }
  }

  /**
   * A span of zero width carries no basis function: the guards of the
   * recursion only drop terms that are 0 anyway.
   */
  lemma ZeroWidthSpan(i: nat, k: nat, knots: seq<real>, t: real)
    requires i + k + 1 < |knots| && NonDecreasing(knots)
    requires knots[i] == knots[i + k + 1]
    ensures Basis(i, k, knots, t) == 0.0
  {
    LocalSupport(i, k, knots, t);
  }

  /** N(i,k)(t) >= 0 on a non-decreasing knot vector. */
  lemma {:induction false} NonNegative(i: nat, k: nat, knots: seq<real>, t: real)
    requires i + k + 1 < |knots| && NonDecreasing(knots)
    ensures Basis(i, k, knots, t) >= 0.0
    decreases k
  {
    if k > 0 {
      NonNegative(i, k - 1, knots, t);
      NonNegative(i + 1, k - 1, knots, t);
      Term1NonNegative(i, k, knots, t);
      Term2NonNegative(i, k, knots, t);
    }
  }

  /** The first term is >= 0 once the lower-degree function it scales is. */
  lemma Term1NonNegative(i: nat, k: nat, knots: seq<real>, t: real)
    requires 1 <= k && i + k + 1 < |knots| && NonDecreasing(knots)
    requires Basis(i, k - 1, knots, t) >= 0.0
    ensures Term1(i, k, knots, t) >= 0.0
  {
    if knots[i + k] != knots[i] {
      if t < knots[i] {
        LocalSupport(i, k - 1, knots, t);
      } else {
        RatioTimesNonNegative(t - knots[i], knots[i + k] - knots[i], Basis(i, k - 1, knots, t));
      }
    }
  }

  /** The second term is >= 0 once the lower-degree function it scales is. */
  lemma Term2NonNegative(i: nat, k: nat, knots: seq<real>, t: real)
    requires 1 <= k && i + k + 1 < |knots| && NonDecreasing(knots)
    requires Basis(i + 1, k - 1, knots, t) >= 0.0
    ensures Term2(i, k, knots, t) >= 0.0
  {
    if knots[i + k + 1] != knots[i + 1] {
      if knots[i + k + 1] <= t {
        LocalSupport(i + 1, k - 1, knots, t);
      } else {
        RatioTimesNonNegative(knots[i + k + 1] - t, knots[i + k + 1] - knots[i + 1], Basis(i + 1, k - 1, knots, t));
      }
    }
  }

  lemma RatioTimesNonNegative(x: real, y: real, z: real)
    requires x >= 0.0 && y > 0.0 && z >= 0.0
    ensures x / y * z >= 0.0
  {
    assert x / y >= 0.0;
  }

  /**
   * Where N(j,d-1) meets its two neighbours of degree d, the second term of
   * N(j-1,d) and the first term of N(j,d) add up to N(j,d-1).
   */
  lemma TermsMeet(j: nat, d: nat, knots: seq<real>, t: real)
    requires 1 <= d && 1 <= j && j + d + 1 < |knots| && NonDecreasing(knots)
    ensures Term2(j - 1, d, knots, t) + Term1(j, d, knots, t) == Basis(j, d - 1, knots, t)
  {
    var b := Basis(j, d - 1, knots, t);
    if knots[j + d] == knots[j] {
      LocalSupport(j, d - 1, knots, t);
    } else {
      var r := (t - knots[j]) / (knots[j + d] - knots[j]);
      Complement(knots[j], knots[j + d], t);
      assert Term2(j - 1, d, knots, t) == (1.0 - r) * b;
      assert Term1(j, d, knots, t) == r * b;
      assert (1.0 - r) * b + r * b == b;
    }
  }

  lemma Complement(a: real, b: real, t: real)
    requires a != b
    ensures (b - t) / (b - a) == 1.0 - (t - a) / (b - a)
  {
    var d := b - a;
    var q1 := (b - t) / d;
    var q2 := 1.0 - (t - a) / d;
    assert q1 * d == b - t;
    assert ((t - a) / d) * d == t - a;
    assert q2 * d == d - (t - a);
    Cancel(q1, q2, d);
  }

  lemma Cancel(x: real, y: real, d: real)
    requires d != 0.0 && x * d == y * d
    ensures x == y
  {
    assert (x - y) * d == 0.0;
  }

  /** N(lo,k)(t) + ... + N(hi-1,k)(t) */
  function BasisSum(lo: nat, hi: nat, k: nat, knots: seq<real>, t: real): real
    requires lo <= hi && hi + k < |knots|
    decreases hi - lo
  {
    if lo == hi then 0.0 else BasisSum(lo, hi - 1, k, knots, t) + Basis(hi - 1, k, knots, t)
  }

  lemma {:induction false} SumSplit(lo: nat, mid: nat, hi: nat, k: nat, knots: seq<real>, t: real)
    requires lo <= mid <= hi && hi + k < |knots|
    ensures BasisSum(lo, hi, k, knots, t) == BasisSum(lo, mid, k, knots, t) + BasisSum(mid, hi, k, knots, t)
    decreases hi - mid
  {
    if mid < hi {
      SumSplit(lo, mid, hi - 1, k, knots, t);
    }
  }

  /** t lies outside the support [knots[i], knots[i+k+1]) of N(i,k). */
  predicate Outside(i: nat, k: nat, knots: seq<real>, t: real)
    requires i + k + 1 < |knots|
  {
    t < knots[i] || knots[i + k + 1] <= t
  }

  lemma {:induction false} SumOutsideSupport(lo: nat, hi: nat, k: nat, knots: seq<real>, t: real)
    requires lo <= hi && hi + k < |knots| && NonDecreasing(knots)
    requires forall i :: lo <= i < hi ==> Outside(i, k, knots, t)
    ensures BasisSum(lo, hi, k, knots, t) == 0.0
    decreases hi - lo
  {
    if lo < hi {
      SumOutsideSupport(lo, hi - 1, k, knots, t);
      assert Outside(hi - 1, k, knots, t);
      LocalSupport(hi - 1, k, knots, t);
    }
  }

  /**
   * A sum of degree-d functions is the first term of its first function, the
   * degree-(d-1) functions strictly inside, and the second term of its last
   * function: the neighbouring terms telescope.
   */
  lemma {:induction false} Telescope(lo: nat, hi: nat, d: nat, knots: seq<real>, t: real)
    requires 1 <= d && lo < hi && hi + d < |knots| && NonDecreasing(knots)
    ensures BasisSum(lo, hi, d, knots, t)
         == Term1(lo, d, knots, t) + BasisSum(lo + 1, hi, d - 1, knots, t) + Term2(hi - 1, d, knots, t)
    decreases hi - lo
  {
    if lo + 1 < hi {
      Telescope(lo, hi - 1, d, knots, t);
      TermsMeet(hi - 1, d, knots, t);
    }
  }

  /** On the knot span [knots[j], knots[j+1]) the d + 1 functions of degree d that reach it sum to 1. */
  lemma {:induction false} SpanPartition(j: nat, d: nat, knots: seq<real>, t: real)
    requires d <= j && j + d + 1 < |knots| && NonDecreasing(knots)
    requires knots[j] <= t < knots[j + 1]
    ensures BasisSum(j - d, j + 1, d, knots, t) == 1.0
    decreases d
  {
    if d > 0 {
      Telescope(j - d, j + 1, d, knots, t);
      LocalSupport(j - d, d - 1, knots, t);
      LocalSupport(j + 1, d - 1, knots, t);
      assert Term1(j - d, d, knots, t) == 0.0;
      assert Term2(j, d, knots, t) == 0.0;
      SpanPartition(j, d - 1, knots, t);
    }
  }

  /** A parameter in [knots[lo], knots[hi]) lies in some span [knots[j], knots[j+1]) with lo <= j < hi. */
  lemma {:induction false} FindSpan(lo: nat, hi: nat, knots: seq<real>, t: real) returns (j: nat)
    requires lo < hi < |knots| && knots[lo] <= t < knots[hi]
    ensures lo <= j < hi && knots[j] <= t < knots[j + 1]
    decreases hi - lo
  {
    if t < knots[lo + 1] {
      j := lo;
    } else {
      j := FindSpan(lo + 1, hi, knots, t);
    }
  }

  /**
   * Partition of unity: on a non-decreasing vector, for t in
   * [knots[k], knots[n+1]), N(0,k)(t) + ... + N(n,k)(t) == 1.
   */
  lemma PartitionOfUnity(n: nat, k: nat, knots: seq<real>, t: real)
    requires n + k + 1 < |knots| && NonDecreasing(knots)
    requires knots[k] <= t < knots[n + 1]
    ensures BasisSum(0, n + 1, k, knots, t) == 1.0
  {
    assert k <= n;
    var j := FindSpan(k, n + 1, knots, t);
    SpanPartition(j, k, knots, t);
    SumSplit(0, j - k, n + 1, k, knots, t);
    SumSplit(j - k, j + 1, n + 1, k, knots, t);
    forall i | 0 <= i < j - k
      ensures Outside(i, k, knots, t)
    {
      assert knots[i + k + 1] <= knots[j];
    }
    SumOutsideSupport(0, j - k, k, knots, t);
    forall i | j + 1 <= i < n + 1
      ensures Outside(i, k, knots, t)
    {
      assert knots[j + 1] <= knots[i];
    }
    SumOutsideSupport(j + 1, n + 1, k, knots, t);
  }
}
