# Bjontegaard-Delta metrics, verified model

This project models `src/utils/bd.py`, the Bjontegaard-Delta calculator (the
method of ITU-T VCEG document VCEG-M33). It compares two rate-distortion
curves, each given as a set of (rate, quality) points:

- `bdsnr` is the average quality gain of curve 2 over curve 1 at equal
  bitrate. It fits quality against log-rate.
- `bdrate` is the average percentage change in bitrate of curve 2 against
  curve 1 at equal quality. It fits log-rate against quality.

Both drivers first normalise each point set with `preprocess`. They then take
the overlap of the two x ranges as the integration interval, and integrate a
fitted curve for each set over it. The fit is either a PCHIP interpolant or a
least-squares cubic. The result is the mean difference of the two integrals.
`bdrate` additionally clamps that mean at 200 and turns it into a percentage
via `exp`.

The model is over Dafny `real`, in four modules:

- `Preprocessing` (`preprocessing.dfy`): `preprocess`. The `np.unique` row
  deduplication is a lexicographic insertion that drops repeats. The
  `argsort` reordering is an insertion sort by the chosen column.
- `Polynomial` (`polynomial.dfy`): the polynomial branch's `np.polyint` and
  `np.polyval`, written out on coefficient lists ordered highest degree
  first.
- `Bjontegaard` (`bd.dfy`): the overlap interval, the two integrals, and the
  final combination of `bdsnr` and `bdrate`.
- `BdProperties` (`bd_properties.dfy`): the lemmas relating these.

`math.log`, `math.exp`, `PchipInterpolator(xs, ys).integrate(a, b)` and
`np.polyfit(xs, ys, 3)` are library code. They are the fields of a
`Numerics` value that every driver receives. A lemma that needs a fact about
one of them, such as `exp(0) == 1` or an increasing `log`, states that fact
as a requires clause.

What the Python code raises an error on becomes a precondition:

- a rate that is not positive (`math.log`);
- an empty point set. An empty list of pairs becomes a one-dimensional
  array, so the column index `x[:, col]` in `preprocess` (line 35) raises
  there. An empty array of shape (0, 2) gets as far as `min`/`max` of an
  empty list (lines 68-69 and 125-126), which raise;
- in PCHIP mode, fewer than two points or x values that do not strictly
  increase (`PchipInterpolator`).

The ranges are also required to overlap, which the Python code does not
check (see below).

## Model

| member | source | states |
|---|---|---|
| Preprocessing.KeysOf | src/utils/bd.py:59-62 | definition, no contract: the column `[x[col] for x in s]` (also lines 116-119); `BdProperties.KeysOfRaised` and `Preprocessing.PreprocessKeysStrict` state its properties |
| Preprocessing.InsertLex | src/utils/bd.py:34 | inserting a row into a lexicographically strictly sorted list keeps it strictly sorted and adds exactly that row to its members |
| Preprocessing.Unique | src/utils/bd.py:34 | `np.unique(x, axis=0)`: the result is strictly increasing in (rate, quality) order, so it has no repeated row, and it holds exactly the input's rows |
| Preprocessing.InsertByKey | src/utils/bd.py:35 | inserting a point into a list sorted by the column keeps it sorted and adds that one point to the multiset |
| Preprocessing.SortByKey | src/utils/bd.py:35 | `x[np.argsort(x[:, col])]`: the result is non-decreasing in the column and is a permutation (same multiset) of its input |
| Preprocessing.Preprocess | src/utils/bd.py:32-36 | `preprocess(x, col)` is non-decreasing in the column, has no repeated point, and holds exactly the points of the input |
| Preprocessing.PermutationKeepsDistinct | src/utils/bd.py:35 | reordering a list without repeats leaves it without repeats, so the argsort step keeps what `np.unique` established |
| Preprocessing.SortedSameMembersEqual | src/utils/bd.py:34 | two lists strictly sorted by the same asymmetric order that hold the same members are equal: the order of `np.unique`'s rows is fixed by the set of rows |
| Preprocessing.PreprocessDependsOnlyOnMembers | src/utils/bd.py:32-36 | `preprocess` gives the same result for any two inputs with the same set of points, whatever their order or repetitions |
| Preprocessing.StrictKeys | src/utils/bd.py:35 | a key-sorted list without repeats, drawn from points whose keys are all different, has strictly increasing keys |
| Preprocessing.PreprocessKeysStrict | src/utils/bd.py:32-36 | when no two different input points share a key, the column of `preprocess`'s output strictly increases |
| Preprocessing.PreprocessCanonical | src/utils/bd.py:35 | when no two different points share a key, every ordering the unstable argsort could produce equals the model's, so the model's choice among ties is immaterial then |
| Preprocessing.PreprocessKeepsTwoPoints | src/utils/bd.py:32-36 | two different input points leave at least two points after `preprocess` |
| Preprocessing.DistinctKeysOfSubset | src/utils/bd.py:32-36 | if the points of a list have pairwise different keys, so do the points of any list whose points all lie in it |
| Preprocessing.UniqueOfRaised | src/utils/bd.py:34 | `np.unique` of the raised points is the raised `np.unique`: raising every quality by d keeps the lexicographic order |
| Preprocessing.InsertByRateOfRaised | src/utils/bd.py:35 | inserting by rate into the raised list gives the raised result of inserting into the original list |
| Preprocessing.SortByRateOfRaised | src/utils/bd.py:35 | sorting the raised points by rate gives the raised result of sorting by rate |
| Preprocessing.PreprocessByRateOfRaised | src/utils/bd.py:32-36 | `preprocess(s, 0)` of the raised points is the raised `preprocess(s, 0)` |
| Polynomial.Eval | src/utils/bd.py:87-88 | definition, no contract: `np.polyval` by Horner's rule (also lines 144-145); `Polynomial.AntiderivativeOfCubic` states its value on `np.polyint` of a cubic |
| Polynomial.Antiderivative | src/utils/bd.py:83-84 | `np.polyint`: one coefficient longer; the x^(k+1) coefficient times k+1 is the x^k coefficient of the input; the constant term is 0 |
| Polynomial.DefiniteIntegral | src/utils/bd.py:87-88 | definition, no contract: `np.polyval(P, max_int) - np.polyval(P, min_int)` with `P = np.polyint(p)` (also lines 144-145); `Polynomial.IntegralOverPoint`, `Polynomial.IntegralAdditive` and `Polynomial.RaisedCubicIntegral` state its properties |
| Polynomial.AntiderivativeOfCubic | src/utils/bd.py:83-88 | `np.polyval(np.polyint(c), x)` for a fitted cubic is c3 x^4/4 + c2 x^3/3 + c1 x^2/2 + c0 x |
| Polynomial.IntegralOverPoint | src/utils/bd.py:87-88 | the polynomial-mode integral over [a, a] is 0 |
| Polynomial.IntegralAdditive | src/utils/bd.py:144-145 | the polynomial-mode integral over [a, b] plus the one over [b, c] is the one over [a, c] |
| Polynomial.RaisedPrimitive | src/utils/bd.py:83-84 | raising a cubic by d adds d x to its closed-form antiderivative |
| Polynomial.RaisedCubicIntegral | src/utils/bd.py:83-88 | raising a cubic by d adds d (b - a) to its integral over [a, b] |
| Bjontegaard.Logs | src/utils/bd.py:64-65 | definition, no contract: `list(map(math.log, xs))` (also lines 121-122); `BdProperties.SnrCurvePchipReady` states what an increasing log gives |
| Bjontegaard.SnrCurve | src/utils/bd.py:57-65 | definition, no contract: bdsnr's log-rates and qualities after `preprocess(s, 0)`; `BdProperties.SnrCurveDependsOnlyOnMembers`, `BdProperties.SnrCurvePchipReady` and `BdProperties.SnrCurvePchipReadyOnlyIf` state its properties |
| Bjontegaard.RateCurve | src/utils/bd.py:114-122 | definition, no contract: bdrate's qualities and log-rates after `preprocess(s, 1)`; `BdProperties.RateCurveDependsOnlyOnMembers`, `BdProperties.RateCurvePchipReady` and `BdProperties.RateCurvePchipReadyOnlyIf` state its properties |
| Bjontegaard.SeqMin | src/utils/bd.py:68 | Python's `min`: the result is an element of the list and no element is below it |
| Bjontegaard.SeqMax | src/utils/bd.py:69 | Python's `max`: the result is an element of the list and no element is above it |
| Bjontegaard.Overlap | src/utils/bd.py:68-69 | `min_int` is at least both minima and equals one of them; `max_int` is at most both maxima and equals one of them (the same code is at lines 125-126) |
| Bjontegaard.FitIntegral | src/utils/bd.py:71-88 | definition, no contract: the `if pchip:` branch choosing the PCHIP integral or the polyint/polyval difference (also lines 128-145); `BdProperties.IntegralOverPointVanishes` and `BdProperties.PolynomialComparison` state its properties |
| Bjontegaard.Compare | src/utils/bd.py:67-88 | definition, no contract: the interval and the two integrals (also lines 124-145); `BdProperties.CompareSwapped`, `BdProperties.CompareSelf` and `BdProperties.PolynomialComparison` state its properties |
| Bjontegaard.SnrComparison | src/utils/bd.py:67-88 | definition, no contract: `Compare` applied to bdsnr's two curves; `BdProperties.BdSnrSelf` and `BdProperties.BdSnrAntisymmetric` state its properties through `BdSnr` |
| Bjontegaard.RateComparison | src/utils/bd.py:124-145 | definition, no contract: `Compare` applied to bdrate's two curves; `BdProperties.BdRateSign` states the sign of bdrate in terms of its integrals |
| Bjontegaard.MeanDifference | src/utils/bd.py:148 | `(int2 - int1) / (max_int - min_int)` times the interval width is the difference of the integrals |
| Bjontegaard.SnrDefined | src/utils/bd.py:57-76 | definition, no contract: what bdsnr demands (positive rates for `math.log`, non-empty overlapping ranges, PCHIP's x values in PCHIP mode); `BdProperties.SnrCurvePchipReady` and `BdProperties.SnrCurvePchipReadyOnlyIf` characterise the PCHIP part |
| Bjontegaard.BdSnr | src/utils/bd.py:91-95 | `bdsnr` is exactly 0.0 when `max_int == min_int` and otherwise the mean difference of the two integrals |
| Bjontegaard.RateDefined | src/utils/bd.py:114-148 | definition, no contract: as `SnrDefined` for bdrate's curves, plus an interval of non-zero width for the division at line 148; `BdProperties.RateCurvePchipReady` and `BdProperties.RateCurvePchipReadyOnlyIf` characterise the PCHIP part |
| Bjontegaard.RateExponent | src/utils/bd.py:148-153 | the exponent is at most 200 and at most the mean difference, and it is one of the two |
| Bjontegaard.BdRate | src/utils/bd.py:156-158 | `bdrate` is the percentage r with 1 + r/100 equal to exp of the clamped exponent |
| BdProperties.OverlapIsIntersection | src/utils/bd.py:68-69 | a value lies in [min_int, max_int] exactly when it lies in both curves' ranges |
| BdProperties.IntegralOverPointVanishes | src/utils/bd.py:71-88 | in both modes the fitted curve integrates to 0 over a one-point interval, given that the PCHIP integral does |
| BdProperties.OverlapSymmetric | src/utils/bd.py:68-69 | exchanging the two curves leaves the interval unchanged |
| BdProperties.CompareSwapped | src/utils/bd.py:67-88 | exchanging the two curves keeps the interval and exchanges `int1` and `int2` |
| BdProperties.MeanDifferenceSwapped | src/utils/bd.py:92 | exchanging `int1` and `int2` negates the mean difference |
| BdProperties.CompareSelf | src/utils/bd.py:71-88 | comparing a curve with itself gives equal integrals |
| BdProperties.MeanDifferenceOfEqual | src/utils/bd.py:92 | equal integrals give a mean difference of 0 |
| BdProperties.MeanDifferenceSign | src/utils/bd.py:148 | on an upward interval the mean difference is negative exactly when `int2 < int1`, and 0 exactly when they are equal |
| BdProperties.BdSnrSelf | src/utils/bd.py:57-95 | `bdsnr(S, S)` is 0 in both modes and in both the degenerate and non-degenerate branch |
| BdProperties.BdSnrAntisymmetric | src/utils/bd.py:57-95 | `bdsnr(S2, S1)` is defined whenever `bdsnr(S1, S2)` is, and is its negation |
| BdProperties.SnrCurveDependsOnlyOnMembers | src/utils/bd.py:57-65 | bdsnr's (log-rate, quality) curve depends only on the set of input points |
| BdProperties.BdSnrOfEqualCurves | src/utils/bd.py:67-95 | inputs with the same curves give the same `bdsnr` |
| BdProperties.BdSnrDependsOnlyOnMembers | src/utils/bd.py:57-95 | reordering or repeating points in either set does not change `bdsnr` |
| BdProperties.KeysOfRaised | src/utils/bd.py:59-62 | raising every quality by d leaves the rate column unchanged and adds d to every value of the quality column |
| BdProperties.SnrCurveOfRaised | src/utils/bd.py:57-65 | bdsnr's curve of the raised points has the same log-rates and every quality raised by d |
| BdProperties.BdSnrRaisedQualities | src/utils/bd.py:57-95 | in polynomial mode, when the cubic fitted to this set's curve with every quality raised by d is that curve's cubic raised by d, raising every quality of the set by d gives a bdsnr of exactly d against the original set, and bdsnr is defined there |
| BdProperties.PolynomialComparison | src/utils/bd.py:79-88 | an unfolding step of `Compare` for `pchip = false`, used by `CompareRaised`: `int1` and `int2` are the fitted cubics' polyint/polyval differences over the overlap |
| BdProperties.MeanDifferenceOfRaise | src/utils/bd.py:92 | when `int2` exceeds `int1` by d times the interval width, the mean difference is d |
| BdProperties.MeanDifferenceOfRaisedFit | src/utils/bd.py:83-92 | when the second fitted cubic is the first raised by d, the mean difference of their integrals is d |
| BdProperties.CompareRaised | src/utils/bd.py:67-92 | in polynomial mode, a second fit equal to the first raised by d gives a mean difference of d |
| BdProperties.BdSnrRaisedFit | src/utils/bd.py:57-95 | in polynomial mode, when curve 2's cubic is curve 1's raised by d (a uniform quality gain), `bdsnr` is exactly d |
| BdProperties.SnrCurvePchipReady | src/utils/bd.py:57-65 | with positive rates, an increasing log, no shared rates and two different points, bdsnr's x values meet PCHIP's demand (two or more, strictly increasing) |
| BdProperties.SnrCurvePchipReadyOnlyIf | src/utils/bd.py:57-73 | conversely, for any logarithm, bdsnr's x values meet PCHIP's demand only if no two different points share a rate and there are two different points |
| BdProperties.RateCurvePchipReady | src/utils/bd.py:114-119 | with no shared qualities and two different points, bdrate's x values meet PCHIP's demand |
| BdProperties.RateCurvePchipReadyOnlyIf | src/utils/bd.py:114-130 | conversely, bdrate's x values meet PCHIP's demand only if no two different points share a quality and there are two different points |
| BdProperties.BdRateSelf | src/utils/bd.py:114-158 | given exp(0) = 1, `bdrate(S, S)` is 0 |
| BdProperties.BdRateSign | src/utils/bd.py:148-156 | with exp increasing and exp(0) = 1, `bdrate` is negative exactly when `int2 < int1` and 0 exactly when they are equal |
| BdProperties.BdRateRange | src/utils/bd.py:148-156 | with exp positive and non-decreasing, `bdrate` lies in (-100, (exp(200) - 1) * 100]; the upper bound is the clamp's doing |
| BdProperties.BdRateClamped | src/utils/bd.py:152-156 | a mean log-rate difference of 200 or more gives exactly (exp(200) - 1) * 100 |
| BdProperties.RateCurveDependsOnlyOnMembers | src/utils/bd.py:114-122 | bdrate's (quality, log-rate) curve depends only on the set of input points |
| BdProperties.BdRateOfEqualCurves | src/utils/bd.py:124-158 | inputs with the same curves give the same `bdrate` |
| BdProperties.BdRateDependsOnlyOnMembers | src/utils/bd.py:114-158 | reordering or repeating points in either set does not change `bdrate` |

## Left out

- PCHIP construction and integration (src/utils/bd.py:72-76, 129-133) are scipy library code. Both are one abstract function `pchipIntegral(xs, ys, a, b)`. The only fact any lemma assumes about it is that it is 0 over a one-point interval.
- The least-squares fit `np.polyfit(xs, ys, 3)` (src/utils/bd.py:79-80, 136-137) is an abstract function returning four coefficients. The regression itself is not modelled. Two lemmas assume a fact about the fit at one curve only. `BdSnrRaisedFit` assumes that curve 2's cubic is curve 1's raised by d. `BdSnrRaisedQualities` assumes that the cubic fitted to a curve with every quality raised by d is that curve's cubic raised by d. Least squares guarantees the second only when the curve has at least four distinct x values, because with fewer the cubic fit is not unique and numpy returns a minimum-norm solution.
- `math.log` and `math.exp` are abstract functions over the reals. Lemmas assume only what they need: exp(0) = 1, exp positive, and exp and log increasing.
- The model uses reals, so IEEE float64 rounding, overflow, inf and NaN are not modelled.
- The Python code does not check that the two ranges overlap. When they do not, `max_int < min_int` and the code integrates over a reversed interval. The model requires an overlap.
- Bjontegaard.BdRate: requires `max_int != min_int`. The Python division at line 148 has no guard. Its operands are numpy float64 values, so that case yields inf or nan with a runtime warning rather than an exception. That result is not modelled.
- Preprocessing.Preprocess: is total on the empty list and returns the empty list. The Python `preprocess` raises on an empty list of pairs, at the column index on line 35. Both drivers require non-empty point sets, so the drivers' behaviour is unaffected.
- `bdsnr` and `bdrate` default `pchip` to `True` (lines 39 and 98). The model has no default arguments, so every driver takes `pchip` explicitly.
- Preprocessing.Preprocess: promises no order among points that share the sorting key. `np.argsort` uses an unstable sort by default. The model's insertion sort happens to keep the lexicographic order among ties, but no contract says so. PreprocessCanonical shows the order is determined when keys are distinct.
- Python's own errors (a non-positive rate given to `math.log`, `min` of an empty list, scipy rejecting x values that do not strictly increase) are preconditions. The model has no error result for them.
- The module docstring speaks of converting text files (src/utils/bd.py:16-17). The file contains no I/O code, so there is nothing to model.
