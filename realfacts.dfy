/** Small facts of real arithmetic, each stated over plain reals so that the
    solver proves it without the surrounding sequences in view. */
module RealFacts {

  lemma MulSign(x: real, y: real)
    ensures y > 0.0 && x > 0.0 ==> x * y > 0.0
    ensures y > 0.0 && x < 0.0 ==> x * y < 0.0
  {
  }

  /** One step of a telescoping product: if g carries x0 to x and
      1 + ret carries x to y, then next = g * (1 + ret) carries x0 to y. */
  lemma TelescopeStep(next: real, g: real, ret: real, x0: real, x: real, y: real)
    requires next == g * (1.0 + ret)
    requires g * x0 == x && (1.0 + ret) * x == y
    ensures next * x0 == y
  {
    assert (g * (1.0 + ret)) * x0 == (g * x0) * (1.0 + ret);
  }

  /** How the ratio a / b, for b > 0, compares with 0 and with 1. Returns,
      total return and rebasing are all such ratios, so their one-step facts
      come from here. */
  lemma RatioFacts(a: real, b: real)
    requires b > 0.0
    ensures (a / b) * b == a
    ensures a / b > 0.0 <==> a > 0.0
    ensures a / b == 0.0 <==> a == 0.0
    ensures a / b > 1.0 <==> a > b
    ensures a / b == 1.0 <==> a == b
    ensures a / b < 1.0 <==> a < b
  {
    var q := a / b;
    assert (q - 1.0) * b == a - b;
    MulSign(q, b);
    MulSign(q - 1.0, b);
  }

  /** Scaling by k > 0 keeps the order of x and m. */
  lemma ScaledComparison(x: real, m: real, k: real)
    requires k > 0.0
    ensures x > m <==> x * k > m * k
  {
    MulSign(x - m, k);
    MulSign(m - x, k);
  }

  lemma CancelPositive(a: real, b: real, k: real)
    requires k > 0.0 && a * k == b * k
    ensures a == b
  {
    MulSign(a - b, k);
  }

  /** Where x <= peak, (x - peak) / peak lies in (-1, 0], and is 0 only at
      the peak. */
  lemma DeclineBounds(x: real, peak: real)
    requires 0.0 < x <= peak
    ensures -1.0 < (x - peak) / peak <= 0.0
    ensures (x - peak) / peak == 0.0 <==> x == peak
  {
    var d := (x - peak) / peak;
    assert d * peak == x - peak;
    assert (d + 1.0) * peak == x;
    MulSign(d, peak);
    MulSign(d + 1.0, peak);
  }

  /** (x - peak) / peak is unchanged when both are scaled by k > 0. */
  lemma DeclineScaleFree(x: real, peak: real, qx: real, qpeak: real, k: real)
    requires peak > 0.0 && k > 0.0 && qx == x * k && qpeak == peak * k
    ensures (qx - qpeak) / qpeak == (x - peak) / peak
  {
    MulSign(peak, k);
    var d := (x - peak) / peak;
    assert d * peak == x - peak;
    assert d * qpeak == qx - qpeak;
    CancelPositive(d, (qx - qpeak) / qpeak, qpeak);
  }

  /** A ratio is unchanged when both of its terms are scaled by k > 0. */
  lemma RatioScaleFree(x: real, y: real, qx: real, qy: real, k: real)
    requires y > 0.0 && k > 0.0 && qx == x * k && qy == y * k
    ensures qx / qy == x / y
  {
    MulSign(y, k);
    var d := x / y;
    assert d * y == x;
    assert d * qy == qx;
    CancelPositive(d, qx / qy, qy);
  }
}
