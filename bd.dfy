/**
 * The two Bjontegaard-Delta drivers of src/utils/bd.py (the method of ITU-T
 * VCEG document VCEG-M33): BD-SNR (`bdsnr`), the average quality gain of
 * curve 2 over curve 1 at equal bitrate, and BD-Rate (`bdrate`), the average
 * percentage bitrate change of curve 2 against curve 1 at equal quality.
 *
 * Arithmetic is over `real`. The library routines the Python code calls
 * (math.log, math.exp, scipy's PchipInterpolator and np.polyfit) are not
 * defined here: they are the fields of a `Numerics` value that every driver
 * receives, and the few facts about them a lemma needs are that lemma's
 * requires clauses.
 */
module Bjontegaard {
  import opened Preprocessing
  import opened Polynomial

  /** The library routines bd.py calls. */
  datatype Numerics = Numerics(
    log: real -> real,                                          // math.log
    exp: real -> real,                                          // math.exp
    pchipIntegral: (seq<real>, seq<real>, real, real) -> real,  // PchipInterpolator(xs, ys).integrate(a, b)
    polyfit3: (seq<real>, seq<real>) -> Cubic                   // np.polyfit(xs, ys, 3)
  )

  /** A curve to fit: `ys` as a function of `xs`. */
  datatype Curve = Curve(xs: seq<real>, ys: seq<real>)

  /** The integration interval [min_int, max_int]. */
  datatype Interval = Interval(lo: real, hi: real)

  /** The interval and the integrals `int1`, `int2` of the two fitted curves over it. */
  datatype Comparison = Comparison(iv: Interval, int1: real, int2: real)

  /** The clamp on BD-Rate's exponent. */
  const MaxExponent: real := 200.0

  function Max(a: real, b: real): real { if a >= b then a else b }

  function Min(a: real, b: real): real { if a <= b then a else b }

  /** Python's `min` of a non-empty list. */
  function SeqMin(xs: seq<real>): (m: real)
    requires |xs| > 0
    ensures m in xs
    ensures forall x :: x in xs ==> m <= x
  {
    if |xs| == 1 then xs[0]
    else
      assert xs == [xs[0]] + xs[1..];
      Min(xs[0], SeqMin(xs[1..]))
  }

  /** Python's `max` of a non-empty list. */
  function SeqMax(xs: seq<real>): (m: real)
    requires |xs| > 0
    ensures m in xs
    ensures forall x :: x in xs ==> x <= m
  {
    if |xs| == 1 then xs[0]
    else
      assert xs == [xs[0]] + xs[1..];
      Max(xs[0], SeqMax(xs[1..]))
  }

  /** `list(map(math.log, xs))` */
  function Logs(log: real -> real, xs: seq<real>): seq<real> {
    seq(|xs|, i requires 0 <= i < |xs| => log(xs[i]))
  }

  /** `math.log` is applied to every rate; Python raises on a rate that is not positive. */
  predicate RatesPositive(s: seq<Point>) {
    forall p :: p in s ==> p.rate > 0.0
  }

  /** bdsnr fits quality against log-rate, after `preprocess(s, 0)`. */
  function SnrCurve(num: Numerics, s: seq<Point>): Curve {
    var p := Preprocess(s, RateColumn);
    Curve(Logs(num.log, KeysOf(p, RateColumn)), KeysOf(p, QualityColumn))
  }

  /** bdrate fits log-rate against quality, after `preprocess(s, 1)`. */
  function RateCurve(num: Numerics, s: seq<Point>): Curve {
    var p := Preprocess(s, QualityColumn);
    Curve(KeysOf(p, QualityColumn), Logs(num.log, KeysOf(p, RateColumn)))
  }

  /**
   * `min_int = max([min(xs1), min(xs2)])`, `max_int = min([max(xs1), max(xs2)])`:
   * the lower end is the larger of the two minima, the upper end the smaller
   * of the two maxima, so when the interval is not empty it lies inside both ranges.
   */
  function Overlap(xs1: seq<real>, xs2: seq<real>): (iv: Interval)
    requires |xs1| > 0 && |xs2| > 0
    ensures SeqMin(xs1) <= iv.lo && SeqMin(xs2) <= iv.lo
    ensures iv.lo == SeqMin(xs1) || iv.lo == SeqMin(xs2)
    ensures iv.hi <= SeqMax(xs1) && iv.hi <= SeqMax(xs2)
    ensures iv.hi == SeqMax(xs1) || iv.hi == SeqMax(xs2)
  {
    Interval(Max(SeqMin(xs1), SeqMin(xs2)), Min(SeqMax(xs1), SeqMax(xs2)))
  }

  /** The ranges of the two x lists meet (the Python code does not check this). */
  predicate Overlapping(xs1: seq<real>, xs2: seq<real>) {
    |xs1| > 0 && |xs2| > 0 && Overlap(xs1, xs2).lo <= Overlap(xs1, xs2).hi
  }

  /** PchipInterpolator needs at least two points and strictly increasing x values. */
  predicate PchipReady(xs: seq<real>) {
    |xs| >= 2 && StrictlyIncreasing(xs)
  }

  /** The integral of the curve fitted to `c` over `iv`, in the mode the `pchip` flag selects. */
  function FitIntegral(num: Numerics, pchip: bool, c: Curve, iv: Interval): real
    requires pchip ==> PchipReady(c.xs)
  {
    if pchip then num.pchipIntegral(c.xs, c.ys, iv.lo, iv.hi)
    else DefiniteIntegral(Coefficients(num.polyfit3(c.xs, c.ys)), iv.lo, iv.hi)
  }

  /** Interval and integrals, the part bdsnr and bdrate share. */
  function Compare(num: Numerics, pchip: bool, c1: Curve, c2: Curve): Comparison
    requires |c1.xs| > 0 && |c2.xs| > 0
    requires pchip ==> PchipReady(c1.xs) && PchipReady(c2.xs)
  {
    var iv := Overlap(c1.xs, c2.xs);
    Comparison(iv, FitIntegral(num, pchip, c1, iv), FitIntegral(num, pchip, c2, iv))
  }

  /**
   * `(int2 - int1) / (max_int - min_int)`: the constant whose integral over
   * the interval is the area between the two fitted curves.
   */
  function MeanDifference(c: Comparison): (d: real)
    requires c.iv.lo != c.iv.hi
    ensures d * (c.iv.hi - c.iv.lo) == c.int2 - c.int1
  {
    (c.int2 - c.int1) / (c.iv.hi - c.iv.lo)
  }

  // ---------------------------------------------------------------------------
  // bdsnr
  // ---------------------------------------------------------------------------

  /** What bdsnr demands of its inputs. */
  predicate SnrDefined(num: Numerics, s1: seq<Point>, s2: seq<Point>, pchip: bool) {
    && RatesPositive(s1) && RatesPositive(s2)
    && Overlapping(SnrCurve(num, s1).xs, SnrCurve(num, s2).xs)
    && (pchip ==> PchipReady(SnrCurve(num, s1).xs) && PchipReady(SnrCurve(num, s2).xs))
  }

  function SnrComparison(num: Numerics, s1: seq<Point>, s2: seq<Point>, pchip: bool): Comparison
    requires SnrDefined(num, s1, s2, pchip)
  {
    Compare(num, pchip, SnrCurve(num, s1), SnrCurve(num, s2))
  }

  /**
   * `bdsnr(s1, s2, pchip)`: 0.0 on a one-point interval; otherwise the mean
   * difference of the fitted quality curves over the interval.
   */
  function BdSnr(num: Numerics, s1: seq<Point>, s2: seq<Point>, pchip: bool): (r: real)
    requires SnrDefined(num, s1, s2, pchip)
    ensures var c := SnrComparison(num, s1, s2, pchip);
            && (c.iv.lo == c.iv.hi ==> r == 0.0)
            && (c.iv.lo != c.iv.hi ==> r == MeanDifference(c))
  {
    var c := SnrComparison(num, s1, s2, pchip);
    if c.iv.hi != c.iv.lo then MeanDifference(c) else 0.0
  }

  // ---------------------------------------------------------------------------
  // bdrate
  // ---------------------------------------------------------------------------

  /** What bdrate demands of its inputs: as bdsnr, and an interval of positive width. */
  predicate RateDefined(num: Numerics, s1: seq<Point>, s2: seq<Point>, pchip: bool) {
    && RatesPositive(s1) && RatesPositive(s2)
    && Overlapping(RateCurve(num, s1).xs, RateCurve(num, s2).xs)
    && Overlap(RateCurve(num, s1).xs, RateCurve(num, s2).xs).lo != Overlap(RateCurve(num, s1).xs, RateCurve(num, s2).xs).hi
    && (pchip ==> PchipReady(RateCurve(num, s1).xs) && PchipReady(RateCurve(num, s2).xs))
  }

  function RateComparison(num: Numerics, s1: seq<Point>, s2: seq<Point>, pchip: bool): Comparison
    requires RateDefined(num, s1, s2, pchip)
  {
    Compare(num, pchip, RateCurve(num, s1), RateCurve(num, s2))
  }

  /**
   * `avg_exp_diff` after the clamp: the mean difference of the log-rates,
   * lowered to 200 when it is larger.
   */
  function RateExponent(num: Numerics, s1: seq<Point>, s2: seq<Point>, pchip: bool): (e: real)
    requires RateDefined(num, s1, s2, pchip)
    ensures e <= MaxExponent
    ensures e <= MeanDifference(RateComparison(num, s1, s2, pchip))
    ensures e == MeanDifference(RateComparison(num, s1, s2, pchip)) || e == MaxExponent
  {
    var d := MeanDifference(RateComparison(num, s1, s2, pchip));
    if d > MaxExponent then MaxExponent else d
  }

  /** `bdrate(s1, s2, pchip)`: the percentage change of rate matching the ratio exp(e). */
  function BdRate(num: Numerics, s1: seq<Point>, s2: seq<Point>, pchip: bool): (r: real)
    requires RateDefined(num, s1, s2, pchip)
    ensures 1.0 + r / 100.0 == num.exp(RateExponent(num, s1, s2, pchip))
  {
    (num.exp(RateExponent(num, s1, s2, pchip)) - 1.0) * 100.0
  }
}
