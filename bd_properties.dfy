/**
 * Properties of the BD-SNR and BD-Rate drivers of src/utils/bd.py: the
 * overlap interval, identity and antisymmetry, independence from the order
 * of the input points, the sign and range of BD-Rate and its clamp.
 */
module BdProperties {
  import opened Preprocessing
  import opened Polynomial
  import opened Bjontegaard

  // ---------------------------------------------------------------------------
  // The integration interval and the integrals
  // ---------------------------------------------------------------------------

  /** A value lies in [min_int, max_int] exactly when it lies in both ranges. */
  lemma OverlapIsIntersection(xs1: seq<real>, xs2: seq<real>, x: real)
    requires |xs1| > 0 && |xs2| > 0
    ensures var iv := Overlap(xs1, xs2);
            iv.lo <= x <= iv.hi
            <==> SeqMin(xs1) <= x <= SeqMax(xs1) && SeqMin(xs2) <= x <= SeqMax(xs2)
  {
  }

  /**
   * Over a one-point interval both fits integrate to 0: the polynomial one by
   * its own arithmetic, the PCHIP one provided scipy's integral does.
   */
  lemma IntegralOverPointVanishes(num: Numerics, pchip: bool, c: Curve, a: real)
    requires pchip ==> PchipReady(c.xs)
    requires forall xs, ys, t :: num.pchipIntegral(xs, ys, t, t) == 0.0
    ensures FitIntegral(num, pchip, c, Interval(a, a)) == 0.0
  {
    if !pchip {
      IntegralOverPoint(Coefficients(num.polyfit3(c.xs, c.ys)), a);
    }
  }

  /** The comparison with the two curves' roles exchanged. */
  function Swapped(c: Comparison): Comparison {
    Comparison(c.iv, c.int2, c.int1)
  }

  lemma OverlapSymmetric(xs1: seq<real>, xs2: seq<real>)
    requires |xs1| > 0 && |xs2| > 0
    ensures Overlap(xs2, xs1) == Overlap(xs1, xs2)
  {
  }

  lemma CompareSwapped(num: Numerics, pchip: bool, c1: Curve, c2: Curve)
    requires |c1.xs| > 0 && |c2.xs| > 0
    requires pchip ==> PchipReady(c1.xs) && PchipReady(c2.xs)
    ensures Compare(num, pchip, c2, c1) == Swapped(Compare(num, pchip, c1, c2))
  {
    OverlapSymmetric(c1.xs, c2.xs);
  }

  lemma MeanDifferenceSwapped(c: Comparison)
    requires c.iv.lo != c.iv.hi
    ensures MeanDifference(Swapped(c)) == -MeanDifference(c)
  {
    var d, d', w := MeanDifference(c), MeanDifference(Swapped(c)), c.iv.hi - c.iv.lo;
    assert (d + d') * w == d * w + d' * w == 0.0;
    ZeroProduct(d + d', w);
  }

  lemma CompareSelf(num: Numerics, pchip: bool, c: Curve)
    requires |c.xs| > 0
    requires pchip ==> PchipReady(c.xs)
    ensures Compare(num, pchip, c, c).int1 == Compare(num, pchip, c, c).int2
  {
  }

  lemma MeanDifferenceOfEqual(c: Comparison)
    requires c.iv.lo != c.iv.hi
    requires c.int1 == c.int2
    ensures MeanDifference(c) == 0.0
  {
    ZeroProduct(MeanDifference(c), c.iv.hi - c.iv.lo);
  }

  /** x * w == 0 with w != 0 forces x == 0. */
  lemma ZeroProduct(x: real, w: real)
    requires w != 0.0 && x * w == 0.0
    ensures x == 0.0
  {
  }

  /** The mean difference has the sign of `int2 - int1` when the interval runs upwards. */
  lemma MeanDifferenceSign(c: Comparison)
    requires c.iv.lo < c.iv.hi
    ensures MeanDifference(c) < 0.0 <==> c.int2 < c.int1
    ensures MeanDifference(c) == 0.0 <==> c.int2 == c.int1
  {
    var d, w := MeanDifference(c), c.iv.hi - c.iv.lo;
    assert d * w == c.int2 - c.int1;
    if d < 0.0 {
      assert d * w < 0.0;
    } else if d > 0.0 {
      assert d * w > 0.0;
    }
  }

  // ---------------------------------------------------------------------------
  // bdsnr
  // ---------------------------------------------------------------------------

  /** bdsnr(S, S) == 0 in both modes. */
  lemma BdSnrSelf(num: Numerics, s: seq<Point>, pchip: bool)
    requires SnrDefined(num, s, s, pchip)
    ensures BdSnr(num, s, s, pchip) == 0.0
  {
    var c := SnrComparison(num, s, s, pchip);
    CompareSelf(num, pchip, SnrCurve(num, s));
    if c.iv.lo != c.iv.hi {
      MeanDifferenceOfEqual(c);
    }
  }

  /** Swapping the two curves negates bdsnr. */
  lemma BdSnrAntisymmetric(num: Numerics, s1: seq<Point>, s2: seq<Point>, pchip: bool)
    requires SnrDefined(num, s1, s2, pchip)
    ensures SnrDefined(num, s2, s1, pchip)
    ensures BdSnr(num, s2, s1, pchip) == -BdSnr(num, s1, s2, pchip)
  {
    var c1, c2 := SnrCurve(num, s1), SnrCurve(num, s2);
    OverlapSymmetric(c1.xs, c2.xs);
    CompareSwapped(num, pchip, c1, c2);
    var c := SnrComparison(num, s1, s2, pchip);
    if c.iv.lo != c.iv.hi {
      MeanDifferenceSwapped(c);
    }
  }

  /**
   * bdsnr depends only on which points each set holds: reordering a set or
   * repeating points in it changes nothing.
   */
  lemma BdSnrDependsOnlyOnMembers(num: Numerics, a1: seq<Point>, a2: seq<Point>,
                                  b1: seq<Point>, b2: seq<Point>, pchip: bool)
    requires SnrDefined(num, a1, a2, pchip)
    requires forall p :: p in a1 <==> p in b1
    requires forall p :: p in a2 <==> p in b2
    ensures SnrDefined(num, b1, b2, pchip)
    ensures BdSnr(num, b1, b2, pchip) == BdSnr(num, a1, a2, pchip)
  {
    SnrCurveDependsOnlyOnMembers(num, a1, b1);
    SnrCurveDependsOnlyOnMembers(num, a2, b2);
    BdSnrOfEqualCurves(num, a1, a2, b1, b2, pchip);
  }

  lemma SnrCurveDependsOnlyOnMembers(num: Numerics, a: seq<Point>, b: seq<Point>)
    requires forall p :: p in a <==> p in b
    ensures SnrCurve(num, a) == SnrCurve(num, b)
    ensures RatesPositive(a) ==> RatesPositive(b)
  {
    PreprocessDependsOnlyOnMembers(a, b, RateColumn);
  }

  lemma BdSnrOfEqualCurves(num: Numerics, a1: seq<Point>, a2: seq<Point>,
                           b1: seq<Point>, b2: seq<Point>, pchip: bool)
    requires SnrDefined(num, a1, a2, pchip)
    requires RatesPositive(b1) && RatesPositive(b2)
    requires SnrCurve(num, a1) == SnrCurve(num, b1) && SnrCurve(num, a2) == SnrCurve(num, b2)
    ensures SnrDefined(num, b1, b2, pchip)
    ensures BdSnr(num, b1, b2, pchip) == BdSnr(num, a1, a2, pchip)
  {
    assert SnrComparison(num, b1, b2, pchip) == SnrComparison(num, a1, a2, pchip);
  }

  /**
   * In polynomial mode, when the cubic fitted to curve 2 is the one fitted to
   * curve 1 raised by `d`, bdsnr is exactly `d` (a uniform quality gain).
   */
  lemma BdSnrRaisedFit(num: Numerics, s1: seq<Point>, s2: seq<Point>, d: real)
    requires SnrDefined(num, s1, s2, false)
    requires num.polyfit3(SnrCurve(num, s2).xs, SnrCurve(num, s2).ys)
          == Raise(num.polyfit3(SnrCurve(num, s1).xs, SnrCurve(num, s1).ys), d)
    requires SnrComparison(num, s1, s2, false).iv.lo != SnrComparison(num, s1, s2, false).iv.hi
    ensures BdSnr(num, s1, s2, false) == d
  {
    CompareRaised(num, SnrCurve(num, s1), SnrCurve(num, s2), d);
  }

  /** `ys` with `d` added to every value. */
  function Shifted(ys: seq<real>, d: real): seq<real> {
    seq(|ys|, i requires 0 <= i < |ys| => ys[i] + d)
  }

  /**
   * In polynomial mode, raising the quality of every point of a set by `d`
   * gives a bdsnr of exactly `d` against the original set, given that the
   * cubic fitted to this curve's qualities raised by `d` is the cubic fitted
   * to the curve raised by `d` (least squares guarantees that when the curve
   * has at least four distinct log-rates).
   */
  lemma BdSnrRaisedQualities(num: Numerics, s: seq<Point>, d: real)
    requires RatesPositive(s)
    requires num.polyfit3(SnrCurve(num, s).xs, Shifted(SnrCurve(num, s).ys, d))
          == Raise(num.polyfit3(SnrCurve(num, s).xs, SnrCurve(num, s).ys), d)
    requires |SnrCurve(num, s).xs| > 0 && SeqMin(SnrCurve(num, s).xs) != SeqMax(SnrCurve(num, s).xs)
    ensures SnrDefined(num, s, RaiseQualities(s, d), false)
    ensures BdSnr(num, s, RaiseQualities(s, d), false) == d
  {
    var s2 := RaiseQualities(s, d);
    var c := SnrCurve(num, s);
    SnrCurveOfRaised(num, s, d);
    RaisedMembers(s, d);
    assert RatesPositive(s2);
    assert SeqMin(c.xs) <= c.xs[0] <= SeqMax(c.xs);
    assert Overlap(c.xs, c.xs) == Interval(SeqMin(c.xs), SeqMax(c.xs));
    BdSnrRaisedFit(num, s, s2, d);
  }

  /** bdsnr's curve of the raised points has the same log-rates and every quality raised by `d`. */
  lemma SnrCurveOfRaised(num: Numerics, s: seq<Point>, d: real)
    ensures SnrCurve(num, RaiseQualities(s, d)) == Curve(SnrCurve(num, s).xs, Shifted(SnrCurve(num, s).ys, d))
  {
    var r := Preprocess(s, RateColumn);
    PreprocessByRateOfRaised(s, d);
    KeysOfRaised(r, d);
  }

  lemma KeysOfRaised(r: seq<Point>, d: real)
    ensures KeysOf(RaiseQualities(r, d), RateColumn) == KeysOf(r, RateColumn)
    ensures KeysOf(RaiseQualities(r, d), QualityColumn) == Shifted(KeysOf(r, QualityColumn), d)
  {
  }

  lemma CompareRaised(num: Numerics, c1: Curve, c2: Curve, d: real)
    requires |c1.xs| > 0 && |c2.xs| > 0
    requires num.polyfit3(c2.xs, c2.ys) == Raise(num.polyfit3(c1.xs, c1.ys), d)
    requires Overlap(c1.xs, c2.xs).lo != Overlap(c1.xs, c2.xs).hi
    ensures MeanDifference(Compare(num, false, c1, c2)) == d
  {
    PolynomialComparison(num, c1, c2);
    MeanDifferenceOfRaisedFit(num.polyfit3(c1.xs, c1.ys), d, Compare(num, false, c1, c2));
  }

  lemma MeanDifferenceOfRaisedFit(f: Cubic, d: real, c: Comparison)
    requires c.iv.lo != c.iv.hi
    requires c.int1 == DefiniteIntegral(Coefficients(f), c.iv.lo, c.iv.hi)
    requires c.int2 == DefiniteIntegral(Coefficients(Raise(f, d)), c.iv.lo, c.iv.hi)
    ensures MeanDifference(c) == d
  {
    RaisedCubicIntegral(f, d, c.iv.lo, c.iv.hi);
    MeanDifferenceOfRaise(c, d, c.iv.lo, c.iv.hi);
  }

  /** In the polynomial mode the integrals are those of the two fitted cubics over the overlap. */
  lemma PolynomialComparison(num: Numerics, c1: Curve, c2: Curve)
    requires |c1.xs| > 0 && |c2.xs| > 0
    ensures var iv := Overlap(c1.xs, c2.xs);
            Compare(num, false, c1, c2)
            == Comparison(iv, DefiniteIntegral(Coefficients(num.polyfit3(c1.xs, c1.ys)), iv.lo, iv.hi),
                              DefiniteIntegral(Coefficients(num.polyfit3(c2.xs, c2.ys)), iv.lo, iv.hi))
  {
  }

  lemma MeanDifferenceOfRaise(c: Comparison, d: real, lo: real, hi: real)
    requires c.iv == Interval(lo, hi) && lo != hi
    requires c.int2 == c.int1 + d * (hi - lo)
    ensures MeanDifference(c) == d
  {
    var r, w := MeanDifference(c), hi - lo;
    assert (r - d) * w == r * w - d * w == 0.0;
    ZeroProduct(r - d, w);
  }

  /**
   * PCHIP's demand on bdsnr's curve is met when every rate is positive, the
   * logarithm is increasing, no two different points share a rate and there
   * are two different points.
   */
  lemma SnrCurvePchipReady(num: Numerics, s: seq<Point>, p: Point, q: Point)
    requires RatesPositive(s)
    requires forall x, y :: 0.0 < x < y ==> num.log(x) < num.log(y)
    requires DistinctKeys(s, RateColumn)
    requires p in s && q in s && p != q
    ensures PchipReady(SnrCurve(num, s).xs)
  {
    var r := Preprocess(s, RateColumn);
    PreprocessKeysStrict(s, RateColumn);
    PreprocessKeepsTwoPoints(s, RateColumn, p, q);
    var xs := SnrCurve(num, s).xs;
    forall i, j | 0 <= i < j < |xs|
      ensures xs[i] < xs[j]
    {
      assert r[i] in s;
      assert KeysOf(r, RateColumn)[i] < KeysOf(r, RateColumn)[j];
    }
  }

  /**
   * Conversely, whatever the logarithm, PCHIP accepts bdsnr's curve only when
   * no two different points share a rate and there are two different points.
   */
  lemma SnrCurvePchipReadyOnlyIf(num: Numerics, s: seq<Point>)
    requires PchipReady(SnrCurve(num, s).xs)
    ensures DistinctKeys(s, RateColumn)
    ensures exists p, q :: p in s && q in s && p != q
  {
    var r := Preprocess(s, RateColumn);
    var xs := SnrCurve(num, s).xs;
    assert r[0] in s && r[1] in s && r[0] != r[1];
    forall i, j | 0 <= i < j < |r|
      ensures Key(r[i], RateColumn) != Key(r[j], RateColumn)
    {
      assert Below(xs[i], xs[j]);
    }
    DistinctKeysOfSubset(r, s, RateColumn);
  }

  // ---------------------------------------------------------------------------
  // bdrate
  // ---------------------------------------------------------------------------

  /** PCHIP's demand on bdrate's curve is met when no two different points share a quality. */
  lemma RateCurvePchipReady(num: Numerics, s: seq<Point>, p: Point, q: Point)
    requires DistinctKeys(s, QualityColumn)
    requires p in s && q in s && p != q
    ensures PchipReady(RateCurve(num, s).xs)
  {
    PreprocessKeysStrict(s, QualityColumn);
    PreprocessKeepsTwoPoints(s, QualityColumn, p, q);
  }

  /** Conversely, PCHIP accepts bdrate's curve only when no two different points share a quality and there are two different points. */
  lemma RateCurvePchipReadyOnlyIf(num: Numerics, s: seq<Point>)
    requires PchipReady(RateCurve(num, s).xs)
    ensures DistinctKeys(s, QualityColumn)
    ensures exists p, q :: p in s && q in s && p != q
  {
    var r := Preprocess(s, QualityColumn);
    var xs := RateCurve(num, s).xs;
    assert r[0] in s && r[1] in s && r[0] != r[1];
    forall i, j | 0 <= i < j < |r|
      ensures Key(r[i], QualityColumn) != Key(r[j], QualityColumn)
    {
      assert Below(xs[i], xs[j]);
    }
    DistinctKeysOfSubset(r, s, QualityColumn);
  }

  /** bdrate(S, S) == 0, given exp(0) == 1. */
  lemma BdRateSelf(num: Numerics, s: seq<Point>, pchip: bool)
    requires RateDefined(num, s, s, pchip)
    requires num.exp(0.0) == 1.0
    ensures BdRate(num, s, s, pchip) == 0.0
  {
    CompareSelf(num, pchip, RateCurve(num, s));
    MeanDifferenceOfEqual(RateComparison(num, s, s, pchip));
  }

  /**
   * With exp increasing and exp(0) == 1, bdrate is negative exactly when
   * curve 2's integrated log-rate is below curve 1's (curve 2 needs less
   * rate for the same quality), zero exactly when they are equal.
   */
  lemma BdRateSign(num: Numerics, s1: seq<Point>, s2: seq<Point>, pchip: bool)
    requires RateDefined(num, s1, s2, pchip)
    requires num.exp(0.0) == 1.0
    requires forall x, y :: x < y ==> num.exp(x) < num.exp(y)
    ensures var c := RateComparison(num, s1, s2, pchip);
            && (BdRate(num, s1, s2, pchip) < 0.0 <==> c.int2 < c.int1)
            && (BdRate(num, s1, s2, pchip) == 0.0 <==> c.int2 == c.int1)
  {
    var c := RateComparison(num, s1, s2, pchip);
    MeanDifferenceSign(c);
    var e := RateExponent(num, s1, s2, pchip);
    assert e < 0.0 <==> MeanDifference(c) < 0.0;
    assert e == 0.0 <==> MeanDifference(c) == 0.0;
    if e < 0.0 {
      assert num.exp(e) < num.exp(0.0);
    } else if e > 0.0 {
      assert num.exp(0.0) < num.exp(e);
    }
  }

  /**
   * bdrate lies above -100 percent when exp is positive, and at most
   * (exp(200) - 1) * 100 when exp is non-decreasing, because of the clamp.
   */
  lemma BdRateRange(num: Numerics, s1: seq<Point>, s2: seq<Point>, pchip: bool)
    requires RateDefined(num, s1, s2, pchip)
    requires forall x :: num.exp(x) > 0.0
    requires forall x, y :: x <= y ==> num.exp(x) <= num.exp(y)
    ensures -100.0 < BdRate(num, s1, s2, pchip) <= (num.exp(MaxExponent) - 1.0) * 100.0
  {
    var e := RateExponent(num, s1, s2, pchip);
    assert num.exp(e) <= num.exp(MaxExponent);
  }

  /** A mean log-rate difference of 200 or more gives exactly (exp(200) - 1) * 100. */
  lemma BdRateClamped(num: Numerics, s1: seq<Point>, s2: seq<Point>, pchip: bool)
    requires RateDefined(num, s1, s2, pchip)
    requires MeanDifference(RateComparison(num, s1, s2, pchip)) >= MaxExponent
    ensures BdRate(num, s1, s2, pchip) == (num.exp(MaxExponent) - 1.0) * 100.0
  {
  }

  /** bdrate depends only on which points each set holds. */
  lemma BdRateDependsOnlyOnMembers(num: Numerics, a1: seq<Point>, a2: seq<Point>,
                                   b1: seq<Point>, b2: seq<Point>, pchip: bool)
    requires RateDefined(num, a1, a2, pchip)
    requires forall p :: p in a1 <==> p in b1
    requires forall p :: p in a2 <==> p in b2
    ensures RateDefined(num, b1, b2, pchip)
    ensures BdRate(num, b1, b2, pchip) == BdRate(num, a1, a2, pchip)
  {
    RateCurveDependsOnlyOnMembers(num, a1, b1);
    RateCurveDependsOnlyOnMembers(num, a2, b2);
    BdRateOfEqualCurves(num, a1, a2, b1, b2, pchip);
  }

  lemma RateCurveDependsOnlyOnMembers(num: Numerics, a: seq<Point>, b: seq<Point>)
    requires forall p :: p in a <==> p in b
    ensures RateCurve(num, a) == RateCurve(num, b)
    ensures RatesPositive(a) ==> RatesPositive(b)
  {
    PreprocessDependsOnlyOnMembers(a, b, QualityColumn);
  }

  lemma BdRateOfEqualCurves(num: Numerics, a1: seq<Point>, a2: seq<Point>,
                            b1: seq<Point>, b2: seq<Point>, pchip: bool)
    requires RateDefined(num, a1, a2, pchip)
    requires RatesPositive(b1) && RatesPositive(b2)
    requires RateCurve(num, a1) == RateCurve(num, b1) && RateCurve(num, a2) == RateCurve(num, b2)
    ensures RateDefined(num, b1, b2, pchip)
    ensures BdRate(num, b1, b2, pchip) == BdRate(num, a1, a2, pchip)
  {
    assert RateComparison(num, b1, b2, pchip) == RateComparison(num, a1, a2, pchip);
  }
}
