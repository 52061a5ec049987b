# Voltage calibration of the RNO-G LAB4D digitiser, in Dafny

This project models the core of `voltage_calibration`, the analysis code that
turns the voltage-calibration constants of an RNO-G station into ADC curves
and back. Each of the 24 channels and 4096 samples has a 10-coefficient
polynomial in ascending power order. A piecewise-linear residual curve is
added to it, one per DAC group: channels 0-11 use DAC 1 and channels 12-23
use DAC 2. The model covers:

- `Polynomial`: the two ways the code evaluates the polynomial. The first is
  a dot product with the power vector. The second is `numpy.polyval` on the
  reversed coefficients. A lemma proves that the two agree.
- `Residuals`: the residual curves of the two DAC groups, truncated to a
  common length and stacked into the `(N, 2)` tables `vres` and `res`.
- `Calibration`: `make_vc_curve` and the `voltageCalibration` class.
  `make_vc_curve` is an imperative method: it fills an array, and an inner
  scan breaks at the bracketing residual point. The class has fields
  assigned once in the constructor, and `get_fit_curve` and `get_times`
  read them.
- `UtilityFunctions`: the evaluation and inversion helpers. They cover
  `fitted_adc`, `numba_fitted_adc`, `fitted_adc_with_res` (with scipy's
  linear `interp1d`), `pseudo_fit` and its inverse, and the root filtering
  of `inverted_function`. They also cover the sample reordering of
  `cal_adc_to_v`, `find_nr_subplots`, pedestal rescaling by the first
  closest bias step, and the stable sort of `sort_per_time`.
- `BiasParsing`: the `biasParser` class. It applies an analysis function to
  every run, or to every pair of consecutive runs.
- `VcDriftSingle`: the first-2023-index search and the calibration-gap
  search of the drift plot.
- `VcAvailability`: the start time read out of a calibration file name.

All arithmetic is on `real` (indices on `int`/`nat`). Python's negative
indexing, `min`'s first-wins tie-breaking, `sorted`'s stability and the
`ValueError`s of `interp1d` and `int` are written out explicitly.

`make_vc_curve` uses the bracket index 0 for a voltage below the first
residual point. The code then reads `vres[-1]` and `res[-1]` as the lower
bracket, which is the last point of the table. The model keeps this code
behaviour (`Calibration.BelowTableWraps`), although clamping to the first
interval looks like the intended design.

## Model

| member | source | states |
|---|---|---|
| Polynomial.Powers | voltageCalibration.py:29 | the power vector has n entries and entry i is v^i |
| Polynomial.PolyValOfReversed | utility_functions_withROOT.py:134 | `polyval(param[::-1], x)` (Horner on the reversed coefficients) equals the ascending sum of `param[k] * x^k`, which is what `coeff.dot(var_list)` computes |
| Polynomial.PolyValOfReversedAll | utility_functions_withROOT.py:133-134 | the same agreement at every x |
| Polynomial.DotMonomial | voltageCalibration.py:29-30 | a dot product with the unit coefficient vector e_k picks out entry k of the power vector |
| Polynomial.IdentityPolynomial | voltageCalibration.py:19-20 | the ascending coefficients [0, 1, 0, ...] evaluate every x to x |
| Residuals.DropLast | voltageCalibration.py:49-50 | `s[:-d]` is a prefix of s that is shorter by d, or empty when d exceeds the length |
| Residuals.Truncate | utility_functions_withROOT.py:93-99 | both DAC X arrays end at length min(len1, len2); every array is a prefix of its input; X and Y of one DAC lose the same number of points; the DAC with the shorter X array is unchanged |
| Residuals.UnpackFitResiduals | utility_functions_withROOT.py:89-100 | the stacked `vres` and `res` tables both have min(len1, len2) rows, and column d is the prefix of DAC d+1's X or Y array of that length |
| Residuals.TruncateTwelveToTen | utility_functions_withROOT.py:94-96 | a 12-point DAC 1 curve against a 10-point DAC 2 curve is cut to its first 10 points, X and Y, and DAC 2 is untouched |
| Calibration.Bracket | voltageCalibration.py:24-27 | the scan's `idx` is the smallest j with v < vres[j]: vres[j] is above v and every earlier entry is at most v |
| Calibration.MakeVcCurve | voltageCalibration.py:17-32 | one output per input voltage; output i is the polynomial at v[i] plus the residual interpolated on the scan's bracket, so it depends only on v[i] and the tables |
| Calibration.BelowTableWraps | voltageCalibration.py:24-28 | below the first residual voltage the bracket index is 0 and the lower end wraps to the last table point, so the residual is read off the line through the last and the first points |
| Calibration.IncreasingTableEvaluable | voltageCalibration.py:24-28 | on a strictly increasing table, every voltage below the last residual voltage is bracketed by the scan with a non-zero width |
| Calibration.LineBetween | voltageCalibration.py:28 | the interpolation line between two abscissae takes values between the two ordinates |
| Calibration.InterpolationWithinBracket | voltageCalibration.py:24-28 | when vres[j-1] <= v < vres[j] on an increasing table, the scan stops at j, the residual equals res[j-1] at v == vres[j-1], and it lies between res[j-1] and res[j] |
| Calibration.IdentityCurve | voltageCalibration.py:29-31 | the coefficients [0, 1, 0, ..., 0] with all-zero residuals give output equal to input |
| Calibration.DacGroup | voltageCalibration.py:64 | the residual column is 0 or 1, and it is 1 exactly for channels 12 and up |
| Calibration.VoltageCalibration.constructor | voltageCalibration.py:39-58 | coeffs has shape (24, 4096, 10), with entry [c][s] equal to row 4096c + s of the flat array; times is (start, end) as read; vres and res are the truncated, stacked residual tables |
| Calibration.VoltageCalibration.GetFitCurve | voltageCalibration.py:60-67 | the curve of the channel's and sample's polynomial with the residual columns of the channel's DAC group, one output per input voltage |
| Calibration.VoltageCalibration.GetTimes | voltageCalibration.py:69-70 | returns the stored (start, end) pair |
| Calibration.LoadedTimes | voltageCalibration.py:69-70 | get_times after construction returns exactly the start and end times that were read |
| Calibration.IdentityTableEvaluatesToInput | voltageCalibration.py:60-67 | a calibration whose polynomials are all the identity and whose residuals are zero maps every bracketed voltage list to itself |
| UtilityFunctions.FittedAdc | utility_functions_withROOT.py:133-134 | one output per voltage, equal to the ascending power sum of the coefficients |
| UtilityFunctions.NumbaFittedAdc | utility_functions_withROOT.py:212-219 | the array filled by index equals fitted_adc on the same input |
| UtilityFunctions.PseudoFit | utility_functions_withROOT.py:136-137 | the ADC value is on the line through 0 with slope bits / max: adc * max == V * bits |
| UtilityFunctions.PseudoFitInverted | utility_functions_withROOT.py:139-140 | the voltage is on the same line read backwards: V * bits == adc * max |
| UtilityFunctions.PseudoFitRoundTrip | utility_functions_withROOT.py:136-140 | pseudo_fit_inverted undoes pseudo_fit, and pseudo_fit undoes pseudo_fit_inverted |
| UtilityFunctions.PseudoFitDefaultSlope | utility_functions_withROOT.py:136-137 | with the defaults 2.5 V and 4095 counts, pseudo_fit is 1638 counts per volt |
| UtilityFunctions.SearchSortedLeft | utility_functions_withROOT.py:146 | interp1d's searchsorted index: every entry before it is below x, and the entry at it is not |
| UtilityFunctions.FittedAdcWithRes | utility_functions_withROOT.py:142-147 | equal lengths add the residuals elementwise with no interpolation; otherwise it succeeds exactly when the table has matching lengths, at least two points and every voltage in range, and then adds the interpolated residual |
| UtilityFunctions.Interp1dAtKnot | utility_functions_withROOT.py:146-147 | the linear interpolation passes through every table point |
| UtilityFunctions.ScanAgreesWithInterp1d | utility_functions_withROOT.py:146-147 | inside the table, make_vc_curve's scan-and-interpolate gives the same residual as interp1d |
| UtilityFunctions.FittedAdcWithResAgreesWithCurve | utility_functions_withROOT.py:142-147 | on the interpolating path, fitted_adc_with_res succeeds and equals make_vc_curve's curve for voltages inside the table |
| UtilityFunctions.KeptRoots | utility_functions_withROOT.py:158-167 | a value is kept exactly when it is the real part of a root with imaginary part below 1e-5 that lies on the branch of adc; the list is empty only when no root qualifies |
| UtilityFunctions.KeptRootsAppend | utility_functions_withROOT.py:159-167 | filtering a + b gives a's survivors followed by b's, so the root finder's order and repeated roots are kept |
| UtilityFunctions.KeptRootsSingle | utility_functions_withROOT.py:159-167 | one root contributes its real part when it is numerically real and on the branch, and nothing otherwise |
| UtilityFunctions.InvertedFunction | utility_functions_withROOT.py:154-172 | returns exactly [fit_max - vref] when no root survives the filters; otherwise it returns KeptRoots of the roots, the survivors in the root finder's order with repeats, and its values are exactly the surviving roots |
| UtilityFunctions.InvertedFunctionOnBranch | utility_functions_withROOT.py:161-170 | every returned value lies in [fit_min - vref, 0) for adc < 0 and in [0, fit_max - vref] for adc >= 0, unless it is the fallback alone |
| UtilityFunctions.SampleIndices | utility_functions_withROOT.py:184-186 | 2048 indices, all in [0, 2048) for starting windows below 16 and in [2048, 4096) from window 16 on |
| UtilityFunctions.PositionOfIndex | utility_functions_withROOT.py:184-186 | the index at position k is k samples after the starting window, modulo the buffer half |
| UtilityFunctions.IndexAtPosition | utility_functions_withROOT.py:184-186 | every sample of the buffer half occurs at the position computed for it |
| UtilityFunctions.SampleIndicesRotation | utility_functions_withROOT.py:184-186 | the indices are a rotation of one buffer half: the position map inverts the index map on both sides |
| UtilityFunctions.SampleIndicesDistinct | utility_functions_withROOT.py:184-186 | no sample index occurs twice |
| UtilityFunctions.NoSubplotGridForSeven | utility_functions_withROOT.py:54-60 | the loop never ends for n = 7 with the default threshold 6 |
| UtilityFunctions.ChannelGrids | utility_functions_withROOT.py:54-60 | with threshold 6, 24 channels end at 6 columns (4 rows), 12 plots at 6 columns (2 rows), and 30 plots at 5 columns, because 2 is tried before 3 and 5 |
| UtilityFunctions.FindNrSubplots | utility_functions_withROOT.py:52-61 | cols is what dividing by 2, else 3, else 5 leaves once n is at most the threshold (`SubplotCols`), and rows is n0 / cols; rows * cols == n0 exactly, cols is at most the threshold, rows is a product of 2s, 3s and 5s, and n0 at most the threshold gives (1, n0) |
| UtilityFunctions.FirstArgMin | utility_functions_withROOT.py:150 | `min(range(...), key=...)` returns an index of least distance to V_ref, and every earlier index is strictly farther |
| UtilityFunctions.FirstMinimiserUnique | utility_functions_withROOT.py:150 | that first-minimiser condition determines the index uniquely |
| UtilityFunctions.RescaleValue | utility_functions_withROOT.py:149-152 | returns the first closest bias step of the DAC column and its voltage |
| UtilityFunctions.RescaleBiasScan | utility_functions_withROOT.py:223-236 | both bias columns, fit_min and fit_max are shifted by the same amount, the voltage of the first closest step, and that step becomes 0 V |
| UtilityFunctions.RescaleAdc | utility_functions_withROOT.py:238-243 | the ADC value at the first closest step becomes 0, and all differences between entries are unchanged |
| UtilityFunctions.InsertByTime | utility_functions_withROOT.py:207 | inserting one index into a stably time-ordered list keeps it stably ordered and adds exactly that index |
| UtilityFunctions.TimeOrder | utility_functions_withROOT.py:207 | a permutation of 0 .. n-1 in non-decreasing time, with equal times kept in input order |
| UtilityFunctions.SortPerTime | utility_functions_withROOT.py:206-209 | length min(len(times), len(array)); entry k is the array entry at the k-th index of the stable time order |
| UtilityFunctions.SortPerTimeSorts | utility_functions_withROOT.py:206-209 | sorting the times by themselves gives a non-decreasing sequence containing every time |
| BiasParsing.CollectResults | biasParser.py:14-21 | never more results than paths, all of them when none is None, none when all are None, and each one the result of some path |
| BiasParsing.CollectResultsAppend | biasParser.py:16-20 | results keep path order: running over a + b gives a's results followed by b's |
| BiasParsing.CollectResultsSingle | biasParser.py:17-20 | one path adds its result when it is not None and nothing when it is None, so with CollectResultsAppend every non-None result is kept, in order |
| BiasParsing.PairResults | biasParser.py:23-31 | one result per consecutive pair of paths, None included |
| BiasParsing.BiasParser.constructor | biasParser.py:5-8 | keeps the directory and run list, with no function and no keyword arguments yet |
| BiasParsing.BiasParser.SetFunction | biasParser.py:10-12 | replaces both the function and its keyword arguments |
| BiasParsing.BiasParser.Run | biasParser.py:14-21 | applies the function to each run path in list order and returns the non-None results in that order |
| BiasParsing.BiasParser.DoubleRun | biasParser.py:23-32 | fails exactly on an empty run list; otherwise returns len(run_paths) - 1 results, one per consecutive pair in order, None included |
| BiasParsing.RunAfterSetFunction | biasParser.py:5-32 | a parser built on any run list and given a function runs it over every path and every consecutive pair |
| VcDriftSingle.Find2023TimeIdx | scripts/plot_vc_drift_single.py:13-17 | returns the first index whose time is after 1672534800, with all earlier times at or before it, and None exactly when no time is after it |
| VcDriftSingle.FindSkip | scripts/plot_vc_drift_single.py:32-45 | 0 when no gap exceeds 15552000 s; otherwise the index of a gap above that limit that is at least every other gap and strictly greater than every earlier big gap; a nonzero result is below len(times) - 1 |
| VcDriftSingle.FirstGapReadsAsNoSkip | scripts/plot_vc_drift_single.py:169-177 | for times [0, 20000000, 20000001] the largest gap is a big one at index 0, and find_skip returns the 0 that the caller reads as "no skip" |
| VcDriftSingle.FindSkipIndex | scripts/plot_vc_drift_single.py:32-45 | None exactly when no gap exceeds the limit; otherwise the earliest largest big gap, index 0 included |
| VcAvailability.AfterLast | scripts/vc_availability.py:13 | the suffix after the last separator: it contains no separator, and it is all of s or follows a separator |
| VcAvailability.BeforeFirst | scripts/vc_availability.py:14 | the prefix before the first separator: it contains no separator, and it is all of s or followed by a separator |
| VcAvailability.TimeFieldUnique | scripts/vc_availability.py:13-14 | a file name has exactly one time field: the text after its last "_", up to the first "-" after it or to the end |
| VcAvailability.GetTimeFromFilename | scripts/vc_availability.py:9-15 | the result is `int()` of the time field; FilenameRoundTrip, MissingDashParsesSuffix and RootSuffixRejected state what that gives for the documented name forms |
| VcAvailability.ParseInt | scripts/vc_availability.py:15 | `int()` succeeds exactly on a non-empty string of decimal digits |
| VcAvailability.DecimalValueOfDigits | scripts/vc_availability.py:15 | parsing the decimal digits of n gives back n |
| VcAvailability.AfterLastOfJoin | scripts/vc_availability.py:13 | `(a + "_" + b).split("_")[-1]` is b whenever b has no "_" |
| VcAvailability.BeforeFirstOfJoin | scripts/vc_availability.py:14 | `(a + "-" + b).split("-")[0]` is a whenever a has no "-" |
| VcAvailability.BeforeFirstWhole | scripts/vc_availability.py:14 | a string without the separator is its own first part |
| VcAvailability.FilenameRoundTrip | scripts/vc_availability.py:9-15 | every name of the form prefix_start-rest, with no "_" in rest, yields start |
| VcAvailability.DocumentedFilename | scripts/vc_availability.py:10-15 | `volCalConsts_pol9_s13_1650000000-1650003600.root` yields 1650000000 |
| VcAvailability.MissingDashParsesSuffix | scripts/vc_availability.py:14-15 | with no "-" after the last "_", the whole last segment is parsed |
| VcAvailability.RootSuffixRejected | scripts/vc_availability.py:14-15 | a name prefix_start.root with no end time is a ValueError, because ".root" is not part of an integer |

## Left out

- File reading is not modelled: uproot, ROOT and `glob`. The constructor of `voltageCalibration` receives the arrays already read, and `biasParser` receives its run directories as a list.
- numpy's root finder is not modelled: `inverted_function` receives the roots of `Polynomial(param) - adc` as an input.
- The `brentq` loop of `cal_adc_to_v` is not modelled: it depends on an external root finder, and it calls the non-existent `appendi`. Only the sample-index computation is modelled.
- UtilityFunctions.SampleIndices: the reordering `param[samples_idx]` itself is not modelled; only the index sequence and its permutation property are.
- float32 arrays and numba compilation are not modelled: all values are exact reals.
- Calibration.MakeVcCurve: a voltage at or above every residual voltage is excluded by precondition. `idx` is then undefined: stale from the previous voltage, or, for the first voltage, an `UnboundLocalError` in plain Python and 0 under numba's nopython compilation.
- Calibration.MakeVcCurve: a bracket of zero width is excluded by precondition. There the code divides by zero.
- Calibration.VoltageCalibration.GetFitCurve: negative channel and sample indices (Python counting from the end) are excluded by the `nat` types.
- Calibration.VoltageCalibration.GetFitCurve: a channel of 24 or more or a sample of 4096 or more is excluded by precondition. There numpy raises IndexError.
- Calibration.VoltageCalibration.constructor: the precondition asks for 24 * 4096 coefficient rows of 10 entries each. This excludes arrays that cannot be reshaped to (24, 4096, 10), where numpy would raise. It also excludes arrays with the right total size but rows of another length, which numpy would reshape anyway.
- Residuals.UnpackFitResiduals: X and Y arrays of different length within one DAC are excluded by precondition. A ROOT graph always has them equal.
- UtilityFunctions.FittedAdcWithRes: an unsorted residual table is excluded by precondition. interp1d would sort it first.
- UtilityFunctions.PseudoFitRoundTrip: pseudo_fit is modelled on one value; numpy broadcasting over arrays applies it elementwise.
- UtilityFunctions.RescaleAdc: `adc` is a single series indexed by bias step, not a multi-dimensional array.
- UtilityFunctions.RescaleAdc: an `adc` series too short to have an entry at the chosen index is excluded by precondition. There Python raises IndexError.
- UtilityFunctions.PseudoFit: a zero `LAB4Dmax` is excluded by precondition. There Python raises ZeroDivisionError.
- UtilityFunctions.PseudoFitInverted: a zero `LAB4Dbits` is excluded by precondition. There Python raises ZeroDivisionError.
- UtilityFunctions.RescaleValue: an empty bias scan is excluded by precondition. There `min()` raises ValueError.
- UtilityFunctions.FindNrSubplots: n = 0 and any n whose loop would never end are excluded by the `Reaches` precondition. For n = 0 the code raises ZeroDivisionError, and non-termination is exhibited by `NoSubplotGridForSeven`.
- BiasParsing.BiasParser.constructor: the unused `kwargs` parameter of `__init__` is not modelled.
- BiasParsing.BiasParser.Run: calling an unset function (None) raises TypeError in Python; it is excluded by precondition.
- BiasParsing.BiasParser.DoubleRun: a missing `kwargs` attribute raises AttributeError in Python; it is excluded by precondition.
- BiasParsing.BiasParser.DoubleRun: calling an unset function (None) with two or more runs raises TypeError in Python; it is excluded by precondition.
- VcAvailability.ParseInt: the extra forms that Python's `int()` accepts (surrounding whitespace, a leading sign, `_` separators, non-ASCII digits) are not modelled. `_` can never reach it anyway.
- The plotting, argparse and statistics code of the scripts is not modelled, nor `plot_means`. It is matplotlib glue and floating-point aggregation.

## Findings

| source | as written | input that shows it | evidently intended | confidence | as-written member | corrected member |
|---|---|---|---|---|---|---|
| scripts/plot_vc_drift_single.py:38-45 | `find_skip` starts `max_i` at 0 and returns it when no gap is large. A largest gap between the first two calibrations also gives 0, and the caller at line 171 treats 0 as "no skip", so that gap is not cut from the time axis. | times = [0, 20000000, 20000001]: the gap at index 0 is 20000000 s, above the 15552000 s limit | a result that tells "no large gap" apart from "large gap at index 0" | medium; not executed | VcDriftSingle.FirstGapReadsAsNoSkip | VcDriftSingle.FindSkipIndex |
