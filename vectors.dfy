/**
 * Control points and curve points: fixed-length rows of reals, the rows of
 * the numpy matrices V and pts.
 */
module Vectors {

  type Vec = seq<real>

  function Zero(dim: nat): (r: Vec)
    ensures |r| == dim
  {
    seq(dim, _ => 0.0)
  }

  function Add(a: Vec, b: Vec): (r: Vec)
    requires |a| == |b|
    ensures |r| == |a|
  {
    seq(|a|, d requires 0 <= d < |a| => a[d] + b[d])
  }

  /** a * c, coordinate by coordinate */
  function Scale(a: Vec, c: real): (r: Vec)
    ensures |r| == |a|
  {
    seq(|a|, d requires 0 <= d < |a| => a[d] * c)
  }

  /** a / c, coordinate by coordinate (numpy's in-place row division) */
  function Divide(a: Vec, c: real): (r: Vec)
    requires c != 0.0
    ensures |r| == |a|
  {
    seq(|a|, d requires 0 <= d < |a| => a[d] / c)
  }

  /** (a + b) / 2 */
  function Midpoint(a: Vec, b: Vec): (r: Vec)
    requires |a| == |b|
    ensures |r| == |a|
  {
    Divide(Add(a, b), 2.0)
  }

  /** A control polygon: at least one point, every point of the same dimension. */
  predicate IsPolygon(V: seq<Vec>)
  {
    |V| > 0 && forall i :: 0 <= i < |V| ==> |V[i]| == |V[0]|
  }
}
