/**
 * One-dimensional piecewise-linear interpolation with numpy's `interp`
 * semantics: below the first abscissa the `left` value, above the last the
 * `right` value, and otherwise the straight line through the two samples that
 * bracket the query.
 */
module Interpolation {

  predicate StrictlyIncreasing(xs: seq<real>)
  {
    forall i, j :: 0 <= i < j < |xs| ==> xs[i] < xs[j]
  }

  /** The straight line through (x0, f0) and (x1, f1), evaluated at t. */
  function Lerp(x0: real, f0: real, x1: real, f1: real, t: real): real
    requires x0 < x1
  {
    f0 + (f1 - f0) / (x1 - x0) * (t - x0)
  }

  /** The line hits both of its end points. */
  lemma LerpEndpoints(x0: real, f0: real, x1: real, f1: real)
    requires x0 < x1
    ensures Lerp(x0, f0, x1, f1, x0) == f0
    ensures Lerp(x0, f0, x1, f1, x1) == f1
  {
    assert (f1 - f0) / (x1 - x0) * (x1 - x0) == f1 - f0;
  }

  /** Between its end points the line stays between the two end values. */
  lemma LerpBetween(x0: real, f0: real, x1: real, f1: real, t: real)
    requires x0 < x1 && x0 <= t <= x1
    ensures f0 <= f1 ==> f0 <= Lerp(x0, f0, x1, f1, t) <= f1
    ensures f1 <= f0 ==> f1 <= Lerp(x0, f0, x1, f1, t) <= f0
  {
    var d := x1 - x0;
    var w := (t - x0) / d;
    assert w * d == t - x0;
    assert 0.0 <= w <= 1.0;
    assert Lerp(x0, f0, x1, f1, t) == f0 + (f1 - f0) * w;
    if f0 <= f1 {
      FractionOf(f1 - f0, w);
    } else {
      FractionOf(f0 - f1, w);
    }
  }

  /** A fraction w in [0, 1] of a non-negative a lies in [0, a]. */
  lemma FractionOf(a: real, w: real)
    requires a >= 0.0 && 0.0 <= w <= 1.0
    ensures 0.0 <= a * w <= a
    ensures -a <= -a * w <= 0.0
  {
    assert a * (1.0 - w) >= 0.0;
  }

  /** Interpolation inside [xs[0], xs[|xs|-1]]: walk to the bracketing segment. */
  function Inside(t: real, xs: seq<real>, fs: seq<real>): real
    requires |xs| == |fs| >= 1 && StrictlyIncreasing(xs)
    requires xs[0] <= t <= xs[|xs| - 1]
    decreases |xs|
  {
    if |xs| == 1 then fs[0]
    else if t <= xs[1] then Lerp(xs[0], fs[0], xs[1], fs[1], t)
    else Inside(t, xs[1..], fs[1..])
  }

  /**
   * numpy `interp(t, xs, fs, left, right)` over strictly increasing abscissae:
   * outside the sampled range the given `left` / `right` value.
   */
  function Interp(t: real, xs: seq<real>, fs: seq<real>, left: real, right: real): (r: real)
    requires |xs| == |fs| >= 1 && StrictlyIncreasing(xs)
    ensures t < xs[0] ==> r == left
    ensures t > xs[|xs| - 1] ==> r == right
  {
    if t < xs[0] then left
    else if t > xs[|xs| - 1] then right
    else Inside(t, xs, fs)
  }

  /** At a sample abscissa the interpolant returns that sample's value exactly. */
  lemma {:induction false} InterpAtSample(xs: seq<real>, fs: seq<real>, left: real, right: real, k: nat)
    requires |xs| == |fs| >= 1 && StrictlyIncreasing(xs) && k < |xs|
    ensures Interp(xs[k], xs, fs, left, right) == fs[k]
  {
    InsideAtSample(xs, fs, k);
  }

  lemma {:induction false} InsideAtSample(xs: seq<real>, fs: seq<real>, k: nat)
    requires |xs| == |fs| >= 1 && StrictlyIncreasing(xs) && k < |xs|
    ensures xs[0] <= xs[k] <= xs[|xs| - 1]
    ensures Inside(xs[k], xs, fs) == fs[k]
    decreases |xs|
  {
    if |xs| > 1 {
      if k == 0 {
        LerpEndpoints(xs[0], fs[0], xs[1], fs[1]);
      } else if k == 1 {
        LerpEndpoints(xs[0], fs[0], xs[1], fs[1]);
      } else {
        InsideAtSample(xs[1..], fs[1..], k - 1);
      }
    }
  }

  /**
   * Between two consecutive samples the interpolant is the straight line
   * through them.
   */
  lemma {:induction false} InterpOnSegment(xs: seq<real>, fs: seq<real>, left: real, right: real, k: nat, t: real)
    requires |xs| == |fs| >= 2 && StrictlyIncreasing(xs) && k + 1 < |xs|
    requires xs[k] <= t <= xs[k + 1]
    ensures Interp(t, xs, fs, left, right) == Lerp(xs[k], fs[k], xs[k + 1], fs[k + 1], t)
  {
    InsideOnSegment(xs, fs, k, t);
  }

  lemma {:induction false} InsideOnSegment(xs: seq<real>, fs: seq<real>, k: nat, t: real)
    requires |xs| == |fs| >= 2 && StrictlyIncreasing(xs) && k + 1 < |xs|
    requires xs[k] <= t <= xs[k + 1]
    ensures xs[0] <= t <= xs[|xs| - 1]
    ensures Inside(t, xs, fs) == Lerp(xs[k], fs[k], xs[k + 1], fs[k + 1], t)
    decreases |xs|
  {
    if k > 0 {
      if k == 1 && t == xs[1] {
        // The walk stops on the first segment, whose end value is also where the second begins.
        LerpEndpoints(xs[0], fs[0], xs[1], fs[1]);
        LerpEndpoints(xs[1], fs[1], xs[2], fs[2]);
      } else {
        InsideOnSegment(xs[1..], fs[1..], k - 1, t);
      }
    }
  }

  /** A two-point interpolation at a query strictly inside the pair is their line. */
  lemma InterpPair(x0: real, f0: real, x1: real, f1: real, t: real)
    requires x0 < t < x1
    ensures StrictlyIncreasing([x0, x1])
    ensures Interp(t, [x0, x1], [f0, f1], f0, f1) == Lerp(x0, f0, x1, f1, t)
  {
  }
}
