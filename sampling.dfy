/** The parameter sampler shared by both curve pages: numpy.linspace. */
module Sampling {

  /**
   * numpy.linspace(start, stop, num) with the end point included: num evenly
   * spaced values, the first start and (for num >= 2) the last stop.
   */
  function Linspace(start: real, stop: real, num: nat): (r: seq<real>)
    ensures |r| == num
    ensures num >= 1 ==> r[0] == start
    ensures num >= 2 ==> r[num - 1] == stop
    ensures num >= 2 ==> forall j :: 0 <= j < num - 1 ==>
              r[j + 1] - r[j] == (stop - start) / (num - 1) as real
  {
    if num <= 1 then seq(num, _ => start)
    else
      var step := (stop - start) / (num - 1) as real;
      seq(num, j => start + j as real * step)
  }

  /** For start <= stop every sample lies in [start, stop] and all but the last lie below stop. */
  lemma LinspaceBounds(start: real, stop: real, num: nat, j: nat)
    requires start <= stop && 2 <= num && j < num
    ensures start <= Linspace(start, stop, num)[j] <= stop
    ensures j < num - 1 && start < stop ==> Linspace(start, stop, num)[j] < stop
  {
    var last := (num - 1) as real;
    var step := (stop - start) / last;
    assert Linspace(start, stop, num)[j] == start + j as real * step;
    StepBounds(start, stop, j as real, last);
  }

  /** With step = (stop - start) / last, the j-th offset stays within [0, stop - start]. */
  lemma StepBounds(start: real, stop: real, j: real, last: real)
    requires start <= stop && 0.0 <= j <= last && last > 0.0
    ensures 0.0 <= j * ((stop - start) / last) <= stop - start
    ensures j < last && start < stop ==> j * ((stop - start) / last) < stop - start
  {
    var step := (stop - start) / last;
    assert last * step == stop - start;
    MulMonotone(0.0, j, step);
    MulMonotone(j, last, step);
    if j < last && start < stop {
      MulStrict(j, last, step);
    }
  }

  lemma MulMonotone(x: real, y: real, c: real)
    requires x <= y && c >= 0.0
    ensures x * c <= y * c
  {
    assert y * c - x * c == (y - x) * c;
  }

  lemma MulStrict(x: real, y: real, c: real)
    requires x < y && c > 0.0
    ensures x * c < y * c
  {
    assert y * c - x * c == (y - x) * c;
  }
}
