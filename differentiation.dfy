/**
 * The differentiator behind `first_derivative`: second-order finite differences
 * taken over the sample INDEX (central in the interior, one-sided at both ends),
 * and the derivative dy/dx as the elementwise ratio of the index-gradient of y to
 * the index-gradient of x. `FirstDerivative` is the corrected form, with
 * second-order ends for x too; `FirstDerivativeAsWritten` takes x's gradient with
 * numpy's default first-order ends, as the source does.
 */
module Differentiation {
  import opened Outcomes

  /** Why a derivative could not be formed. */
  datatype DerivativeError =
    | ShortSignal      // fewer than three samples: no second-order stencil fits
    | LengthMismatch   // x and y differ in length
    | Undefined        // a zero gradient of x: the ratio is infinite or not a number

  /** Second-order difference of v at index i, for unit index spacing. */
  function GradientAt(v: seq<real>, i: nat): real
    requires |v| >= 3 && i < |v|
  {
    var n := |v|;
    if i == 0 then -(3.0 * v[0] - 4.0 * v[1] + v[2]) / 2.0
    else if i == n - 1 then (3.0 * v[n - 1] - 4.0 * v[n - 2] + v[n - 3]) / 2.0
    else (v[i + 1] - v[i - 1]) / 2.0
  }

  /** The index-gradient of a whole signal. */
  function Gradient(v: seq<real>): (g: seq<real>)
    requires |v| >= 3
    ensures |g| == |v|
    ensures forall i :: 0 <= i < |v| ==> g[i] == GradientAt(v, i)
  {
    seq(|v|, i requires 0 <= i < |v| => GradientAt(v, i))
  }

  /** True when the index-gradient of x vanishes nowhere. */
  predicate NonZeroSpacing(x: seq<real>)
    requires |x| >= 3
  {
    forall i :: 0 <= i < |x| ==> GradientAt(x, i) != 0.0
  }

  /**
   * dy/dx at every sample. It exists exactly when both signals have the same
   * length of at least three and x has no zero gradient; then each entry times
   * the gradient of x is the gradient of y.
   */
  function FirstDerivative(x: seq<real>, y: seq<real>): (r: Result<seq<real>, DerivativeError>)
    ensures r.Ok? <==> |x| >= 3 && |y| == |x| && NonZeroSpacing(x)
    ensures |x| < 3 ==> r == Err(ShortSignal)
    ensures |x| >= 3 && |y| != |x| ==> r == Err(LengthMismatch)
    ensures r.Ok? ==> |r.value| == |x|
    ensures r.Ok? ==> forall i :: 0 <= i < |x| ==> r.value[i] * GradientAt(x, i) == GradientAt(y, i)
  {
    if |x| < 3 then Err(ShortSignal)
    else if |y| != |x| then Err(LengthMismatch)
    else if !NonZeroSpacing(x) then Err(Undefined)
    else
      var gx, gy := Gradient(x), Gradient(y);
      Ok(seq(|x|, i requires 0 <= i < |x| => gy[i] / gx[i]))
  }

  /** y is the straight line m*x + c sampled at x. */
  predicate OnLine(x: seq<real>, y: seq<real>, m: real, c: real)
  {
    |y| == |x| && forall i :: 0 <= i < |x| ==> y[i] == m * x[i] + c
  }

  /** The stencils are linear and annihilate constants: the gradient of m*x + c is m times that of x. */
  lemma GradientOfLine(x: seq<real>, y: seq<real>, m: real, c: real, i: nat)
    requires |x| >= 3 && i < |x| && OnLine(x, y, m, c)
    ensures GradientAt(y, i) == m * GradientAt(x, i)
  {
    var n := |x|;
    if i == 0 {
      assert -(3.0 * y[0] - 4.0 * y[1] + y[2]) == m * -(3.0 * x[0] - 4.0 * x[1] + x[2]);
    } else if i == n - 1 {
      assert 3.0 * y[n - 1] - 4.0 * y[n - 2] + y[n - 3] == m * (3.0 * x[n - 1] - 4.0 * x[n - 2] + x[n - 3]);
    } else {
      assert y[i + 1] - y[i - 1] == m * (x[i + 1] - x[i - 1]);
    }
  }

  /**
   * A straight line is differentiated exactly, at interior and boundary points
   * alike and whatever the (non-uniform) sampling of x.
   */
  lemma DerivativeOfLine(x: seq<real>, y: seq<real>, m: real, c: real)
    requires |x| >= 3 && NonZeroSpacing(x) && OnLine(x, y, m, c)
    ensures FirstDerivative(x, y).Ok?
    ensures forall i :: 0 <= i < |x| ==> FirstDerivative(x, y).value[i] == m
  {
    var d := FirstDerivative(x, y).value;
    forall i | 0 <= i < |x|
      ensures d[i] == m
    {
      GradientOfLine(x, y, m, c, i);
      var gx := GradientAt(x, i);
      assert d[i] * gx == m * gx;
      assert (d[i] - m) * gx == 0.0;
    }
  }

  /** v is the quadratic a*i*i + b*i + c of its own index. */
  predicate QuadraticInIndex(v: seq<real>, a: real, b: real, c: real)
  {
    forall i :: 0 <= i < |v| ==> v[i] == a * (i as real) * (i as real) + b * (i as real) + c
  }

  /**
   * Second-order accuracy: every stencil, the one-sided ones included, is exact
   * on quadratics, giving the true slope 2*a*i + b.
   */
  lemma GradientExactOnQuadratic(v: seq<real>, a: real, b: real, c: real, i: nat)
    requires |v| >= 3 && i < |v| && QuadraticInIndex(v, a, b, c)
    ensures GradientAt(v, i) == 2.0 * a * (i as real) + b
  {
    var n := |v|;
    if i == 0 {
      assert v[0] == c && v[1] == a + b + c && v[2] == 4.0 * a + 2.0 * b + c;
    } else if i == n - 1 {
      var l := (n - 1) as real;
      assert v[n - 1] == a * l * l + b * l + c;
      assert v[n - 2] == a * (l - 1.0) * (l - 1.0) + b * (l - 1.0) + c;
      assert v[n - 3] == a * (l - 2.0) * (l - 2.0) + b * (l - 2.0) + c;
    } else {
      var k := i as real;
      assert v[i + 1] == a * (k + 1.0) * (k + 1.0) + b * (k + 1.0) + c;
      assert v[i - 1] == a * (k - 1.0) * (k - 1.0) + b * (k - 1.0) + c;
    }
  }

  /**
   * numpy's default gradient (first-order at both ends, central inside): the
   * one the source takes of x.
   */
  function FirstOrderEndsAt(v: seq<real>, i: nat): real
    requires |v| >= 2 && i < |v|
  {
    var n := |v|;
    if i == 0 then v[1] - v[0]
    else if i == n - 1 then v[n - 1] - v[n - 2]
    else (v[i + 1] - v[i - 1]) / 2.0
  }

  predicate NonZeroSpacingAsWritten(x: seq<real>)
    requires |x| >= 3
  {
    forall i :: 0 <= i < |x| ==> FirstOrderEndsAt(x, i) != 0.0
  }

  /**
   * The derivative as written: the second-order gradient of y divided by the
   * default (first-order-ended) gradient of x.
   */
  function FirstDerivativeAsWritten(x: seq<real>, y: seq<real>): (r: Result<seq<real>, DerivativeError>)
    ensures r.Ok? <==> |x| >= 3 && |y| == |x| && NonZeroSpacingAsWritten(x)
    ensures |x| < 3 ==> r == Err(ShortSignal)
    ensures |x| >= 3 && |y| != |x| ==> r == Err(LengthMismatch)
    ensures r.Ok? ==> |r.value| == |x|
    ensures r.Ok? ==> forall i :: 0 <= i < |x| ==> r.value[i] * FirstOrderEndsAt(x, i) == GradientAt(y, i)
  {
    if |x| < 3 then Err(ShortSignal)
    else if |y| != |x| then Err(LengthMismatch)
    else if !NonZeroSpacingAsWritten(x) then Err(Undefined)
    else Ok(seq(|x|, i requires 0 <= i < |x| => GradientAt(y, i) / FirstOrderEndsAt(x, i)))
  }

  /**
   * Where the first two and the last two gaps of x are equal, the first-order
   * ends coincide with the second-order ones, and so do the two derivatives.
   */
  lemma AsWrittenAgreesOnEvenEnds(x: seq<real>, y: seq<real>)
    requires |x| >= 3 && x[1] - x[0] == x[2] - x[1]
    requires x[|x| - 1] - x[|x| - 2] == x[|x| - 2] - x[|x| - 3]
    ensures forall i :: 0 <= i < |x| ==> FirstOrderEndsAt(x, i) == GradientAt(x, i)
    ensures FirstDerivativeAsWritten(x, y) == FirstDerivative(x, y)
  {
    var n := |x|;
    assert FirstOrderEndsAt(x, 0) == GradientAt(x, 0);
    assert FirstOrderEndsAt(x, n - 1) == GradientAt(x, n - 1);
    assert forall i :: 0 <= i < n ==> FirstOrderEndsAt(x, i) == GradientAt(x, i);
    if |y| == n && NonZeroSpacing(x) {
      var a, b := FirstDerivativeAsWritten(x, y).value, FirstDerivative(x, y).value;
      forall i | 0 <= i < n
        ensures a[i] == b[i]
      {
        var g := GradientAt(x, i);
        assert a[i] * g == b[i] * g;
        assert (a[i] - b[i]) * g == 0.0;
      }
      assert a == b;
    }
  }

  /**
   * On x = y = [0, 1, 3] the derivative of y = x is 1 everywhere. As written,
   * the ends come out as 0.5 and 1.25; the second-order ends give 1 throughout.
   */
  lemma LineEndsSkewedAsWritten()
    ensures FirstDerivativeAsWritten([0.0, 1.0, 3.0], [0.0, 1.0, 3.0]) == Ok([0.5, 1.0, 1.25])
    ensures FirstDerivative([0.0, 1.0, 3.0], [0.0, 1.0, 3.0]) == Ok([1.0, 1.0, 1.0])
  {
    var x := [0.0, 1.0, 3.0];
    assert FirstOrderEndsAt(x, 0) == 1.0 && FirstOrderEndsAt(x, 1) == 1.5 && FirstOrderEndsAt(x, 2) == 2.0;
    assert GradientAt(x, 0) == 0.5 && GradientAt(x, 1) == 1.5 && GradientAt(x, 2) == 2.5;
    assert FirstDerivativeAsWritten(x, x).value == [0.5, 1.0, 1.25];
    DerivativeOfLine(x, x, 1.0, 0.0);
    assert FirstDerivative(x, x).value == [1.0, 1.0, 1.0];
  }
}
