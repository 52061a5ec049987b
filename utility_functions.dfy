/**
 * The evaluation, inversion, rescaling and ordering helpers of the analysis
 * scripts: numpy/scipy expressions stated over reals and sequences.
 */
module UtilityFunctions {

  import opened Wrappers
  import opened Polynomial
  import opened Residuals
  import opened Calibration

  // ---------------------------------------------------------------------
  // Evaluating the fitted polynomial
  // ---------------------------------------------------------------------

  /**
   * fitted_adc: `np.polyval(param[::-1], V)`, one value per voltage. Each is
   * the ascending power sum of the coefficients.
   */
  function FittedAdc(V: seq<real>, param: seq<real>): (adc: seq<real>)
    ensures |adc| == |V|
    ensures forall i :: 0 <= i < |V| ==> adc[i] == Dot(param, Powers(V[i], |param|))
  {
    PolyValOfReversedAll(param);
    seq(|V|, i requires 0 <= i < |V| => PolyVal(Reverse(param), V[i]))
  }

  /**
   * numba_fitted_adc: fills an array with `param.dot([v**i for i in range(10)])`
   * per voltage, and agrees with the numpy version.
   */
  method NumbaFittedAdc(V: seq<real>, param: seq<real>) returns (adc: seq<real>)
    requires |param| == NrCoeffs
    ensures adc == FittedAdc(V, param)
  {
    var polyEval := new real[|V|];
    for i := 0 to |V|
      invariant forall k :: 0 <= k < i ==> polyEval[k] == Dot(param, Powers(V[k], NrCoeffs))
    {
      var varList := Powers(V[i], NrCoeffs);
      polyEval[i] := Dot(param, varList);
    }
    adc := polyEval[..];
  }

  // ---------------------------------------------------------------------
  // The linear stand-in for the fit
  // ---------------------------------------------------------------------

  const LAB4DMax: real := 2.5
  const LAB4DBits: real := 4095.0

  /** pseudo_fit: a voltage to ADC counts on the ideal line through 0 with slope bits/max. */
  function PseudoFit(V: real, lab4dMax: real, lab4dBits: real): (adc: real)
    requires lab4dMax != 0.0
    ensures adc * lab4dMax == V * lab4dBits
  {
    V * (lab4dBits / lab4dMax)
  }

  /** pseudo_fit_inverted: ADC counts back to a voltage. */
  function PseudoFitInverted(adc: real, lab4dMax: real, lab4dBits: real): (V: real)
    requires lab4dBits != 0.0
    ensures V * lab4dBits == adc * lab4dMax
  {
    adc * (lab4dMax / lab4dBits)
  }

  /** The two conversions undo each other, in both orders. */
  lemma PseudoFitRoundTrip(V: real, adc: real, lab4dMax: real, lab4dBits: real)
    requires lab4dMax != 0.0 && lab4dBits != 0.0
    ensures PseudoFitInverted(PseudoFit(V, lab4dMax, lab4dBits), lab4dMax, lab4dBits) == V
    ensures PseudoFit(PseudoFitInverted(adc, lab4dMax, lab4dBits), lab4dMax, lab4dBits) == adc
  {
    var q := lab4dBits / lab4dMax;
    var p := lab4dMax / lab4dBits;
    assert q * p == 1.0;
    calc {
      PseudoFitInverted(PseudoFit(V, lab4dMax, lab4dBits), lab4dMax, lab4dBits);
      (V * q) * p;
      V * (q * p);
    }
    calc {
      PseudoFit(PseudoFitInverted(adc, lab4dMax, lab4dBits), lab4dMax, lab4dBits);
      (adc * p) * q;
      adc * (q * p);
    }
  }

  /** With the default 2.5 V range and 4095 counts the slope is 1638 counts per volt. */
  lemma PseudoFitDefaultSlope(V: real)
    ensures PseudoFit(V, LAB4DMax, LAB4DBits) == 1638.0 * V
  {
  }

  // ---------------------------------------------------------------------
  // Evaluation with the residual curve (scipy interp1d, kind 'linear')
  // ---------------------------------------------------------------------

  /** `np.searchsorted(xs, x)` on sorted xs: the first index whose entry is not below x. */
  function SearchSortedLeft(xs: seq<real>, x: real): (i: nat)
    ensures i <= |xs|
    ensures forall k :: 0 <= k < i ==> xs[k] < x
    ensures i < |xs| ==> x <= xs[i]
  {
    if xs == [] || x <= xs[0] then 0 else 1 + SearchSortedLeft(xs[1..], x)
  }

  /**
   * The value of `interp1d(xs, ys)` at x: the searchsorted index clipped to
   * [1, n-1] selects the segment, and the line through its ends is read at x.
   */
  function Interp1d(xs: seq<real>, ys: seq<real>, x: real): real
    requires |xs| == |ys| >= 2 && StrictlyIncreasing(xs)
  {
    var s := SearchSortedLeft(xs, x);
    var hi := if s < 1 then 1 else if s > |xs| - 1 then |xs| - 1 else s;
    Line(xs[hi - 1], ys[hi - 1], xs[hi], ys[hi], x)
  }

  /** interp1d's bounds check: x must lie in [xs[0], xs[n-1]]. */
  predicate InRange(xs: seq<real>, x: real)
    requires |xs| > 0
  {
    xs[0] <= x <= xs[|xs| - 1]
  }

  /** The ValueErrors interp1d raises. */
  datatype InterpError = LengthMismatch | TooFewPoints | OutOfBounds

  /**
   * fitted_adc_with_res: when V and res have the same length the residuals
   * are added elementwise; otherwise the residual curve is interpolated at V,
   * which fails for mismatched or too short tables and for voltages outside it.
   */
  function FittedAdcWithRes(V: seq<real>, param: seq<real>, resV: seq<real>, res: seq<real>)
    : (r: Result<seq<real>, InterpError>)
    requires |V| != |res| && |resV| == |res| ==> StrictlyIncreasing(resV)
    ensures |V| == |res| ==>
      && r.Success? && |r.value| == |V|
      && forall i :: 0 <= i < |V| ==> r.value[i] == Dot(param, Powers(V[i], |param|)) + res[i]
    ensures |V| != |res| ==>
      (r.Success? <==> |resV| == |res| && |res| >= 2 && forall i :: 0 <= i < |V| ==> InRange(resV, V[i]))
    ensures |V| != |res| && r.Success? ==>
      && |resV| == |res| >= 2 && |r.value| == |V|
      && forall i :: 0 <= i < |V| ==> r.value[i] == Dot(param, Powers(V[i], |param|)) + Interp1d(resV, res, V[i])
  {
    var poly := FittedAdc(V, param);
    if |V| == |res| then
      Success(seq(|V|, i requires 0 <= i < |V| => poly[i] + res[i]))
    else if |resV| != |res| then
      Failure(LengthMismatch)
    else if |res| < 2 then
      Failure(TooFewPoints)
    else if exists i :: 0 <= i < |V| && !InRange(resV, V[i]) then
      Failure(OutOfBounds)
    else
      Success(seq(|V|, i requires 0 <= i < |V| => poly[i] + Interp1d(resV, res, V[i])))
  }

  /** interp1d passes through every point of the table. */
  lemma Interp1dAtKnot(xs: seq<real>, ys: seq<real>, k: nat)
    requires |xs| == |ys| >= 2 && StrictlyIncreasing(xs) && k < |xs|
    ensures Interp1d(xs, ys, xs[k]) == ys[k]
  {
    var s := SearchSortedLeft(xs, xs[k]);
    assert s == k;
    if k == 0 {
      assert xs[k] - xs[0] == 0.0;
    } else {
      var w := xs[k] - xs[k - 1];
      assert ((ys[k] - ys[k - 1]) / w) * w == ys[k] - ys[k - 1];
    }
  }

  /**
   * Inside the table, make_vc_curve's scan-and-interpolate and interp1d give
   * the same residual, although they bracket a voltage that sits exactly on a
   * table point differently.
   */
  lemma ScanAgreesWithInterp1d(vres: seq<real>, res: seq<real>, v: real)
    requires |vres| == |res| >= 2 && StrictlyIncreasing(vres)
    requires vres[0] <= v < vres[|vres| - 1]
    ensures Evaluable(vres, v)
    ensures ResidualAt(vres, res, v) == Interp1d(vres, res, v)
  {
    IncreasingTableEvaluable(vres, v);
    var j := Bracket(vres, v);
    assert j >= 1;
    InterpolationWithinBracket(vres, res, j, v);
    if v == vres[j - 1] {
      Interp1dAtKnot(vres, res, j - 1);
    } else {
      assert SearchSortedLeft(vres, v) == j;
    }
  }

  /**
   * fitted_adc_with_res on the interpolating path and make_vc_curve compute
   * the same curve for voltages inside the residual table.
   */
  lemma FittedAdcWithResAgreesWithCurve(V: seq<real>, param: seq<real>, vres: seq<real>, res: seq<real>)
    requires |param| == NrCoeffs && |vres| == |res| >= 2 && StrictlyIncreasing(vres)
    requires |V| != |res|
    requires forall i :: 0 <= i < |V| ==> vres[0] <= V[i] < vres[|vres| - 1]
    ensures forall i :: 0 <= i < |V| ==> Evaluable(vres, V[i])
    ensures FittedAdcWithRes(V, param, vres, res).Success?
    ensures forall i :: 0 <= i < |V| ==> FittedAdcWithRes(V, param, vres, res).value[i] == CurveAt(param, vres, res, V[i])
  {
    forall i | 0 <= i < |V|
      ensures Evaluable(vres, V[i]) && ResidualAt(vres, res, V[i]) == Interp1d(vres, res, V[i])
    {
      ScanAgreesWithInterp1d(vres, res, V[i]);
    }
  }

  // ---------------------------------------------------------------------
  // Inverting the polynomial (inverted_function)
  // ---------------------------------------------------------------------

  /** A root as numpy's root finder returns it. */
  datatype Complex = Complex(re: real, im: real)

  /** Roots whose imaginary part is below this are taken as real. */
  const ImagTolerance: real := 0.00001

  function Abs(x: real): real
  {
    if x < 0.0 then -x else x
  }

  /** The branch of the curve an ADC value belongs to: [lo, 0) below the pedestal, [0, hi] from it on. */
  predicate InBranch(adc: real, x: real, lo: real, hi: real)
  {
    if adc < 0.0 then lo <= x < 0.0 else 0.0 <= x <= hi
  }

  predicate Kept(adc: real, z: Complex, lo: real, hi: real)
  {
    Abs(z.im) < ImagTolerance && InBranch(adc, z.re, lo, hi)
  }

  /** The real parts of the kept roots, in the order the root finder gave them. */
  function KeptRoots(adc: real, roots: seq<Complex>, lo: real, hi: real): (kept: seq<real>)
    ensures |kept| <= |roots|
    ensures kept == [] <==> forall k :: 0 <= k < |roots| ==> !Kept(adc, roots[k], lo, hi)
    ensures forall x :: x in kept <==> exists k :: 0 <= k < |roots| && Kept(adc, roots[k], lo, hi) && roots[k].re == x
  {
    if roots == [] then []
    else
      var rest := KeptRoots(adc, roots[1..], lo, hi);
      assert forall k :: 1 <= k < |roots| ==> roots[k] == roots[1..][k - 1];
      if Kept(adc, roots[0], lo, hi) then [roots[0].re] + rest else rest
  }

  /**
   * inverted_function, given the roots of `Polynomial(param) - adc`: the
   * (numerically) real roots on the branch of adc, rescaled by vref, or the
   * single fallback value fit_max - vref when none survives.
   */
  function InvertedFunction(adc: real, roots: seq<Complex>, vref: real, fitMin: real, fitMax: real): (v: seq<real>)
    ensures |v| >= 1
    ensures (forall k :: 0 <= k < |roots| ==> !Kept(adc, roots[k], fitMin - vref, fitMax - vref)) ==>
      v == [fitMax - vref]
    ensures (exists k :: 0 <= k < |roots| && Kept(adc, roots[k], fitMin - vref, fitMax - vref)) ==>
      forall x :: x in v <==> exists k :: 0 <= k < |roots| && Kept(adc, roots[k], fitMin - vref, fitMax - vref) && roots[k].re == x
    ensures (exists k :: 0 <= k < |roots| && Kept(adc, roots[k], fitMin - vref, fitMax - vref)) ==>
      v == KeptRoots(adc, roots, fitMin - vref, fitMax - vref)
  {
    var kept := KeptRoots(adc, roots, fitMin - vref, fitMax - vref);
    if |kept| == 0 then [fitMax - vref] else kept
  }

  /** Filtering a + b keeps a's survivors followed by b's: the root finder's order and repeated roots are kept. */
  lemma {:induction false} KeptRootsAppend(adc: real, a: seq<Complex>, b: seq<Complex>, lo: real, hi: real)
    ensures KeptRoots(adc, a + b, lo, hi) == KeptRoots(adc, a, lo, hi) + KeptRoots(adc, b, lo, hi)
    decreases |a|
  {
    if a == [] {
      assert a + b == b;
    } else {
      assert (a + b)[0] == a[0];
      assert (a + b)[1..] == a[1..] + b;
      KeptRootsAppend(adc, a[1..], b, lo, hi);
    }
  }

  /** One root survives as its real part exactly when it is numerically real and on the branch. */
  lemma KeptRootsSingle(adc: real, z: Complex, lo: real, hi: real)
    ensures KeptRoots(adc, [z], lo, hi) == if Kept(adc, z, lo, hi) then [z.re] else []
  {
    assert [z][1..] == [];
  }

  /** Every value inverted_function returns is a real root on the right branch, or it is the fallback alone. */
  lemma InvertedFunctionOnBranch(adc: real, roots: seq<Complex>, vref: real, fitMin: real, fitMax: real)
    ensures var v := InvertedFunction(adc, roots, vref, fitMin, fitMax);
      v == [fitMax - vref] || forall x :: x in v ==> InBranch(adc, x, fitMin - vref, fitMax - vref)
  {
  }

  // ---------------------------------------------------------------------
  // Reordering samples by the starting window (cal_adc_to_v)
  // ---------------------------------------------------------------------

  const SamplesPerWindow: int := 128
  const BufferLength: int := 2048
  const WindowsPerBuffer: int := 16

  /** The first sample of the buffer half a starting window belongs to. */
  function BufferStart(startingWindow: int): int
  {
    if startingWindow >= WindowsPerBuffer then BufferLength else 0
  }

  /** `(128 * starting_window + np.arange(2048)) % 2048`, plus 2048 from window 16 on. */
  function SampleIndices(startingWindow: int): (idx: seq<int>)
    ensures |idx| == BufferLength
    ensures forall k :: 0 <= k < BufferLength ==>
      BufferStart(startingWindow) <= idx[k] < BufferStart(startingWindow) + BufferLength
  {
    seq(BufferLength, k => (SamplesPerWindow * startingWindow + k) % BufferLength + BufferStart(startingWindow))
  }

  lemma ModOfSum(a: int, c: int)
    ensures (a % BufferLength + c) % BufferLength == (a + c) % BufferLength
  {
    var q := a / BufferLength;
    assert a == BufferLength * q + a % BufferLength;
    ModShift(a % BufferLength + c, q);
  }

  lemma ModShift(x: int, q: int)
    ensures (x + BufferLength * q) % BufferLength == x % BufferLength
  {
    var r := x % BufferLength;
    var d := x / BufferLength;
    assert x + BufferLength * q == BufferLength * (d + q) + r;
  }

  /** Where sample t of the buffer half ends up after the reordering. */
  function Position(startingWindow: int, t: int): int
  {
    (t - BufferStart(startingWindow) - SamplesPerWindow * startingWindow) % BufferLength
  }

  lemma PositionOfIndex(startingWindow: int, k: int)
    requires 0 <= k < BufferLength
    ensures Position(startingWindow, SampleIndices(startingWindow)[k]) == k
  {
    var offset := SamplesPerWindow * startingWindow;
    ModOfSum(offset + k, -offset);
  }

  lemma IndexAtPosition(startingWindow: int, t: int)
    requires BufferStart(startingWindow) <= t < BufferStart(startingWindow) + BufferLength
    ensures 0 <= Position(startingWindow, t) < BufferLength
    ensures SampleIndices(startingWindow)[Position(startingWindow, t)] == t
  {
    var b := BufferStart(startingWindow);
    var offset := SamplesPerWindow * startingWindow;
    ModOfSum(t - b - offset, offset);
  }

  /**
   * The indices are a rotation of one buffer half: position k holds the
   * sample k places after the starting window, wrapping around the half.
   * Position inverts the map on both sides, so every sample of the half
   * occurs exactly once.
   */
  lemma SampleIndicesRotation(startingWindow: int)
    ensures var idx := SampleIndices(startingWindow);
      && (forall k :: 0 <= k < BufferLength ==> Position(startingWindow, idx[k]) == k)
      && (forall t :: BufferStart(startingWindow) <= t < BufferStart(startingWindow) + BufferLength ==>
            0 <= Position(startingWindow, t) < BufferLength && idx[Position(startingWindow, t)] == t)
  {
    forall k | 0 <= k < BufferLength
      ensures Position(startingWindow, SampleIndices(startingWindow)[k]) == k
    {
      PositionOfIndex(startingWindow, k);
    }
    forall t | BufferStart(startingWindow) <= t < BufferStart(startingWindow) + BufferLength
      ensures 0 <= Position(startingWindow, t) < BufferLength
      ensures SampleIndices(startingWindow)[Position(startingWindow, t)] == t
    {
      IndexAtPosition(startingWindow, t);
    }
  }

  /** No sample index occurs twice. */
  lemma SampleIndicesDistinct(startingWindow: int)
    ensures var idx := SampleIndices(startingWindow);
      forall k, l :: 0 <= k < l < BufferLength ==> idx[k] != idx[l]
  {
    SampleIndicesRotation(startingWindow);
  }

  // ---------------------------------------------------------------------
  // Subplot grid (find_nr_subplots)
  // ---------------------------------------------------------------------

  /**
   * find_nr_subplots' loop ends on n: dividing by 2, else by 3, else by 5
   * brings n down to the threshold. It does not for n = 7 with threshold 6,
   * nor for any n above the threshold that has none of these factors.
   */
  predicate Reaches(n: int, threshold: nat)
    decreases if n > 0 then n else 0
  {
    if n <= threshold then true
    else if n % 2 == 0 then Reaches(n / 2, threshold)
    else if n % 3 == 0 then Reaches(n / 3, threshold)
    else if n % 5 == 0 then Reaches(n / 5, threshold)
    else false
  }

  /** k is a product of 2s, 3s and 5s. */
  predicate Smooth(k: int)
    decreases if k > 0 then k else 0
  {
    k >= 1 && (k == 1 || (k % 2 == 0 && Smooth(k / 2)) || (k % 3 == 0 && Smooth(k / 3)) || (k % 5 == 0 && Smooth(k / 5)))
  }

  /**
   * The number of columns find_nr_subplots ends with: while n is above the
   * threshold it is divided by 2 if it can be, else by 3, else by 5.
   */
  function SubplotCols(n: int, threshold: nat): int
    requires Reaches(n, threshold)
    decreases if n > 0 then n else 0
  {
    if n <= threshold then n
    else if n % 2 == 0 then SubplotCols(n / 2, threshold)
    else if n % 3 == 0 then SubplotCols(n / 3, threshold)
    else SubplotCols(n / 5, threshold)
  }

  /** 24 channels with the default threshold: halved twice to 6 columns, so 4 rows of 6; 12 plots give 2 rows of 6. */
  lemma ChannelGrids()
    ensures Reaches(24, 6) && SubplotCols(24, 6) == 6
    ensures Reaches(12, 6) && SubplotCols(12, 6) == 6
    ensures Reaches(30, 6) && SubplotCols(30, 6) == 5
  {
  }

  lemma NoSubplotGridForSeven()
    ensures !Reaches(7, 6)
  {
  }

  lemma {:induction false} MulAtLeast(a: nat, m: nat)
    requires a >= 1
    ensures a * m >= m
  {
    if a > 1 {
      MulAtLeast(a - 1, m);
      assert a * m == (a - 1) * m + m;
    }
  }

  /** Exact division undoes the multiplication: int(n0 / n) when n divides n0. */
  lemma DivideExactly(f: int, m: int)
    requires m != 0
    ensures (f * m) / m == f
  {
    var q := (f * m) / m;
    var r := (f * m) % m;
    assert (f - q) * m == r;
    var a := if f - q >= 0 then f - q else q - f;
    var b := if m >= 0 then m else -m;
    assert a * b == if r >= 0 then r else -r;
    if a >= 1 {
      MulAtLeast(a, b);
    }
  }

  lemma SmoothTimes(f: int, d: int)
    requires Smooth(f) && (d == 2 || d == 3 || d == 5)
    ensures Smooth(f * d)
  {
    if d == 2 {
      assert (f * 2) / 2 == f;
    } else if d == 3 {
      assert (f * 3) / 3 == f;
    } else {
      assert (f * 5) / 5 == f;
    }
  }

  /** Moving a factor d of m over to f keeps the product. */
  lemma MoveFactor(f: int, m: int, d: int)
    requires d > 0 && m % d == 0
    ensures f * m == (f * d) * (m / d)
  {
    var q := m / d;
    assert m == d * q;
    assert f * (d * q) == (f * d) * q;
  }

  /**
   * find_nr_subplots: splits n plots into a grid of rows x cols with at most
   * `threshold` columns, moving factors 2, 3 and 5 (in that preference) into
   * the rows. Small n stays a single row.
   */
  method FindNrSubplots(n: int, threshold: nat) returns (rows: int, cols: int)
    requires n != 0 && Reaches(n, threshold)
    ensures rows * cols == n
    ensures cols <= threshold
    ensures Smooth(rows)
    ensures n <= threshold ==> rows == 1 && cols == n
    ensures cols == SubplotCols(n, threshold) && rows == n / cols
  {
    var n0 := n;
    var m := n;
    ghost var factor := 1;
    while m > threshold
      invariant m != 0 && Reaches(m, threshold)
      invariant SubplotCols(m, threshold) == SubplotCols(n0, threshold)
      invariant n0 == factor * m && Smooth(factor)
      invariant n0 <= threshold ==> factor == 1 && m == n0
      decreases m
    {
      if m % 2 == 0 {
        MoveFactor(factor, m, 2);
        SmoothTimes(factor, 2);
        m, factor := m / 2, factor * 2;
      } else if m % 3 == 0 {
        MoveFactor(factor, m, 3);
        SmoothTimes(factor, 3);
        m, factor := m / 3, factor * 3;
      } else if m % 5 == 0 {
        MoveFactor(factor, m, 5);
        SmoothTimes(factor, 5);
        m, factor := m / 5, factor * 5;
      } else {
        assert false;
      }
    }
    DivideExactly(factor, m);
    rows := n0 / m;
    cols := m;
  }

  // ---------------------------------------------------------------------
  // Rescaling to the pedestal (rescale_value, rescale_bias_scan, rescale_adc)
  // ---------------------------------------------------------------------

  /** i is where |col[i] - ref| is smallest, and no earlier index reaches that distance. */
  ghost predicate IsFirstMinimiser(col: seq<real>, ref: real, i: nat)
  {
    && i < |col|
    && (forall k :: 0 <= k < |col| ==> Abs(col[i] - ref) <= Abs(col[k] - ref))
    && (forall k :: 0 <= k < i ==> Abs(col[i] - ref) < Abs(col[k] - ref))
  }

  /**
   * `min(range(len(col)), key = lambda i: abs(col[i] - ref))`: Python's min
   * keeps the first index and replaces it only by a strictly smaller key.
   */
  function FirstArgMin(col: seq<real>, ref: real): (i: nat)
    requires |col| > 0
    ensures IsFirstMinimiser(col, ref, i)
  {
    if |col| == 1 then 0
    else
      var j := FirstArgMin(col[..|col| - 1], ref);
      if Abs(col[|col| - 1] - ref) < Abs(col[j] - ref) then |col| - 1 else j
  }

  /** The two conditions of IsFirstMinimiser determine the index. */
  lemma FirstMinimiserUnique(col: seq<real>, ref: real, i: nat, j: nat)
    requires IsFirstMinimiser(col, ref, i) && IsFirstMinimiser(col, ref, j)
    ensures i == j
  {
    assert Abs(col[i] - ref) <= Abs(col[j] - ref);
    assert Abs(col[j] - ref) <= Abs(col[i] - ref);
  }

  /** rescale_value: the index of the bias step closest to V_ref in the DAC's column, and its voltage. */
  function RescaleValue(vbias: Table, vRef: real, dac: nat): (r: (nat, real))
    requires dac < 2 && |vbias| > 0
    ensures IsFirstMinimiser(Column(vbias, dac), vRef, r.0)
    ensures r.1 == Column(vbias, dac)[r.0]
  {
    var i := FirstArgMin(Column(vbias, dac), vRef);
    (i, Column(vbias, dac)[i])
  }

  /**
   * rescale_bias_scan: both bias columns and the fit bounds are shifted by
   * the same amount, the voltage of the step closest to V_ref, so that this
   * step becomes 0 V.
   */
  function RescaleBiasScan(vbias: Table, vRef: real, fitMin: real, fitMax: real, dac: nat): (r: (Table, real, real))
    requires dac < 2 && |vbias| > 0
    ensures |r.0| == |vbias|
    ensures var shift := fitMin - r.1;
      && fitMax - r.2 == shift
      && (forall k :: 0 <= k < |vbias| ==> vbias[k].0 - r.0[k].0 == shift && vbias[k].1 - r.0[k].1 == shift)
      && shift == RescaleValue(vbias, vRef, dac).1
    ensures Column(r.0, dac)[FirstArgMin(Column(vbias, dac), vRef)] == 0.0
  {
    var vref := RescaleValue(vbias, vRef, dac).1;
    var rescaled := seq(|vbias|, k requires 0 <= k < |vbias| => (vbias[k].0 - vref, vbias[k].1 - vref));
    (rescaled, fitMin - vref, fitMax - vref)
  }

  /**
   * rescale_adc: the ADC values shifted so that the one at the step closest
   * to V_ref becomes 0; differences between steps are unchanged.
   */
  function RescaleAdc(vbias: Table, adc: seq<real>, vRef: real, dac: nat): (r: seq<real>)
    requires dac < 2 && |vbias| > 0 && FirstArgMin(Column(vbias, dac), vRef) < |adc|
    ensures |r| == |adc|
    ensures r[FirstArgMin(Column(vbias, dac), vRef)] == 0.0
    ensures forall k, l :: 0 <= k < |adc| && 0 <= l < |adc| ==> r[k] - r[l] == adc[k] - adc[l]
  {
    var i := FirstArgMin(Column(vbias, dac), vRef);
    seq(|adc|, k requires 0 <= k < |adc| => adc[k] - adc[i])
  }

  // ---------------------------------------------------------------------
  // Ordering by time (sort_per_time)
  // ---------------------------------------------------------------------

  /** Entry a comes before entry b in a stable sort by time. */
  predicate Before(times: seq<real>, a: nat, b: nat)
    requires a < |times| && b < |times|
  {
    times[a] < times[b] || (times[a] == times[b] && a < b)
  }

  ghost predicate InTimeOrder(times: seq<real>, order: seq<nat>)
  {
    && (forall k :: 0 <= k < |order| ==> order[k] < |times|)
    && (forall k, l :: 0 <= k < l < |order| ==> Before(times, order[k], order[l]))
  }

  /** Inserts index i after every listed index whose time is not later than times[i]. */
  function InsertByTime(times: seq<real>, order: seq<nat>, i: nat): (r: seq<nat>)
    requires i < |times| && InTimeOrder(times, order)
    requires forall k :: 0 <= k < |order| ==> order[k] < i
    ensures |r| == |order| + 1 && InTimeOrder(times, r)
    ensures forall k :: 0 <= k < |r| ==> r[k] == i || r[k] in order
    ensures i in r && forall x :: x in order ==> x in r
  {
    if order == [] then [i]
    else if times[i] < times[order[0]] then [i] + order
    else
      var rest := InsertByTime(times, order[1..], i);
      assert forall k :: 0 <= k < |rest| ==> rest[k] == i || rest[k] in order[1..];
      [order[0]] + rest
  }

  /** The indices 0 .. n-1 in stable time order. */
  function TimeOrder(times: seq<real>, n: nat): (order: seq<nat>)
    requires n <= |times|
    ensures |order| == n && InTimeOrder(times, order)
    ensures forall k :: 0 <= k < n ==> order[k] < n
    ensures forall j :: 0 <= j < n ==> j in order
  {
    if n == 0 then []
    else
      var prev := TimeOrder(times, n - 1);
      var order := InsertByTime(times, prev, n - 1);
      assert forall x :: x in prev ==> x < n - 1;
      assert forall k :: 0 <= k < n ==> order[k] == n - 1 || order[k] in prev;
      order
  }

  /**
   * sort_per_time: `sorted(zip(time_array, array), key = time)` and then the
   * array entries alone. zip stops at the shorter input; the sort is stable.
   */
  function SortPerTime<T>(times: seq<real>, values: seq<T>): (sorted: seq<T>)
    ensures |sorted| == Min(|times|, |values|)
    ensures var order := TimeOrder(times, Min(|times|, |values|));
      forall k :: 0 <= k < |sorted| ==> sorted[k] == values[order[k]]
  {
    var n := Min(|times|, |values|);
    var order := TimeOrder(times, n);
    seq(n, k requires 0 <= k < n => values[order[k]])
  }

  /** Sorting the times by themselves gives a non-decreasing sequence of the same times. */
  lemma SortPerTimeSorts(times: seq<real>)
    ensures var sorted := SortPerTime(times, times);
      && |sorted| == |times|
      && (forall k, l :: 0 <= k < l < |sorted| ==> sorted[k] <= sorted[l])
      && (forall j :: 0 <= j < |times| ==> times[j] in sorted)
  {
    var order := TimeOrder(times, |times|);
    var sorted := SortPerTime(times, times);
    forall j | 0 <= j < |times| ensures times[j] in sorted {
      assert j in order;
      var k :| 0 <= k < |order| && order[k] == j;
      assert sorted[k] == times[j];
    }
  }
}
