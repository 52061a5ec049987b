/**
 * The voltage-calibration curve of one calibration file: for each channel and
 * sample a 10-coefficient polynomial in ascending power order, plus a
 * piecewise-linear residual correction shared by all channels of one DAC group.
 */
module Calibration {

  import opened Polynomial
  import opened Residuals

  const NrChannels: nat := 24
  const NrSamples: nat := 4096
  const NrCoeffs: nat := 10

  ghost predicate StrictlyIncreasing(s: seq<real>)
  {
    forall i, k :: 0 <= i < k < |s| ==> s[i] < s[k]
  }

  /** The forward scan finds an entry above v: make_vc_curve only assigns `idx` then. */
  ghost predicate Bracketed(vres: seq<real>, v: real)
  {
    exists k :: 0 <= k < |vres| && v < vres[k]
  }

  /** The `idx` at which make_vc_curve's scan breaks: the first residual voltage strictly above v. */
  function Bracket(vres: seq<real>, v: real): (j: nat)
    requires Bracketed(vres, v)
    ensures j < |vres| && v < vres[j]
    ensures forall k :: 0 <= k < j ==> vres[k] <= v
  {
    if v < vres[0] then 0
    else
      assert Bracketed(vres[1..], v) by {
        var k :| 0 <= k < |vres| && v < vres[k];
        assert vres[1..][k - 1] == vres[k];
      }
      1 + Bracket(vres[1..], v)
  }

  /** Python's `idx - 1` as an index into a sequence of length n: -1 stands for the last element. */
  function Lower(idx: nat, n: nat): nat
    requires idx < n
  {
    if idx == 0 then n - 1 else idx - 1
  }

  /**
   * The scan brackets v and the bracket has non-zero width, so that the
   * interpolation's division does not raise ZeroDivisionError.
   */
  ghost predicate Evaluable(vres: seq<real>, v: real)
  {
    && Bracketed(vres, v)
    && var j := Bracket(vres, v);
       vres[j] != vres[Lower(j, |vres|)]
  }

  /** The straight line through (x0, y0) and (x1, y1), at x. */
  function Line(x0: real, y0: real, x1: real, y1: real, x: real): real
    requires x0 != x1
  {
    ((y1 - y0) / (x1 - x0)) * (x - x0) + y0
  }

  /** The interpolated residual `res_inter` of make_vc_curve. */
  function ResidualAt(vres: seq<real>, res: seq<real>, v: real): real
    requires |res| == |vres| && Evaluable(vres, v)
  {
    var j := Bracket(vres, v);
    var i := Lower(j, |vres|);
    Line(vres[i], res[i], vres[j], res[j], v)
  }

  /** One output value of make_vc_curve: the polynomial at v plus the interpolated residual. */
  function CurveAt(coeff: seq<real>, vres: seq<real>, res: seq<real>, v: real): real
    requires |coeff| == NrCoeffs && |res| == |vres| && Evaluable(vres, v)
  {
    Dot(coeff, Powers(v, NrCoeffs)) + ResidualAt(vres, res, v)
  }

  /**
   * make_vc_curve: fills a preallocated output array, one entry per input
   * voltage; each entry depends only on that voltage and the tables.
   */
  method MakeVcCurve(v: seq<real>, coeff: seq<real>, vres: seq<real>, res: seq<real>) returns (curve: seq<real>)
    requires |coeff| == NrCoeffs && |res| == |vres|
    requires forall i :: 0 <= i < |v| ==> Evaluable(vres, v[i])
    ensures |curve| == |v|
    ensures forall i :: 0 <= i < |v| ==> curve[i] == CurveAt(coeff, vres, res, v[i])
  {
    var polyEval := new real[|v|];
    var idx := 0;
    for i := 0 to |v|
      invariant forall k :: 0 <= k < i ==> polyEval[k] == CurveAt(coeff, vres, res, v[k])
    {
      var x := v[i];
      var j := 0;
      while j < |vres|
        invariant 0 <= j <= |vres|
        invariant forall k :: 0 <= k < j ==> vres[k] <= x
      {
        if x < vres[j] {
          idx := j;
          break;
        }
        j := j + 1;
      }
      assert idx == Bracket(vres, x);
      var lo := Lower(idx, |vres|);
      var resInter := ((res[idx] - res[lo]) / (vres[idx] - vres[lo])) * (x - vres[lo]) + res[lo];
      assert resInter == Line(vres[lo], res[lo], vres[idx], res[idx], x);
      var varList := Powers(x, NrCoeffs);
      var evaluated := Dot(coeff, varList);
      polyEval[i] := evaluated + resInter;
    }
    curve := polyEval[..];
  }

  /**
   * Below the first residual voltage the scan stops at index 0 and `idx - 1`
   * wraps to the LAST point: the residual is read off the line through the
   * last and the first residual points.
   */
  lemma BelowTableWraps(vres: seq<real>, res: seq<real>, v: real)
    requires |res| == |vres| && |vres| > 0 && v < vres[0] && vres[0] != vres[|vres| - 1]
    ensures Evaluable(vres, v) && Bracket(vres, v) == 0
    ensures ResidualAt(vres, res, v) == Line(vres[|vres| - 1], res[|vres| - 1], vres[0], res[0], v)
  {
  }

  /** On a strictly increasing table, every v below the last residual voltage can be evaluated. */
  lemma IncreasingTableEvaluable(vres: seq<real>, v: real)
    requires StrictlyIncreasing(vres) && |vres| >= 2 && v < vres[|vres| - 1]
    ensures Evaluable(vres, v)
  {
    assert Bracketed(vres, v);
  }

  lemma ProductNonNegative(a: real, b: real)
    requires 0.0 <= a && 0.0 <= b
    ensures 0.0 <= a * b
  {
  }

  lemma ProductPositive(a: real, b: real)
    requires 0.0 < a && 0.0 < b
    ensures 0.0 < a * b
  {
  }

  /** A point of the line between two abscissae lies between the two ordinates. */
  lemma LineBetween(x0: real, y0: real, x1: real, y1: real, x: real)
    requires x0 < x1 && x0 <= x <= x1
    ensures var y := Line(x0, y0, x1, y1, x);
      (y0 <= y1 ==> y0 <= y <= y1) && (y1 <= y0 ==> y1 <= y <= y0)
  {
    var w := x1 - x0;
    var t := (x - x0) / w;
    assert t * w == x - x0;
    if t < 0.0 {
      ProductPositive(-t, w);
    }
    if t > 1.0 {
      ProductPositive(t - 1.0, w);
    }
    assert 0.0 <= t <= 1.0;
    assert Line(x0, y0, x1, y1, x) == (y1 - y0) * t + y0;
    if y0 <= y1 {
      ProductNonNegative(y1 - y0, t);
      ProductNonNegative(y1 - y0, 1.0 - t);
    } else {
      ProductNonNegative(y0 - y1, t);
      ProductNonNegative(y0 - y1, 1.0 - t);
    }
  }

  /**
   * Inside the table: when vres[j-1] <= v < vres[j] the scan stops at j, the
   * residual is the interpolation between points j-1 and j, equals res[j-1]
   * at v == vres[j-1] and lies between res[j-1] and res[j].
   */
  lemma InterpolationWithinBracket(vres: seq<real>, res: seq<real>, j: nat, v: real)
    requires StrictlyIncreasing(vres) && |res| == |vres|
    requires 1 <= j < |vres| && vres[j - 1] <= v < vres[j]
    ensures Evaluable(vres, v) && Bracket(vres, v) == j
    ensures ResidualAt(vres, res, v) == Line(vres[j - 1], res[j - 1], vres[j], res[j], v)
    ensures v == vres[j - 1] ==> ResidualAt(vres, res, v) == res[j - 1]
    ensures res[j - 1] <= res[j] ==> res[j - 1] <= ResidualAt(vres, res, v) <= res[j]
    ensures res[j] <= res[j - 1] ==> res[j] <= ResidualAt(vres, res, v) <= res[j - 1]
  {
    assert Bracketed(vres, v);
    if v == vres[j - 1] {
      assert (v - vres[j - 1]) == 0.0;
    }
    LineBetween(vres[j - 1], res[j - 1], vres[j], res[j], v);
  }

  ghost predicate AllZero(s: seq<real>)
  {
    forall i :: 0 <= i < |s| ==> s[i] == 0.0
  }

  /** With the identity coefficients [0, 1, 0, ..., 0] and an all-zero residual curve the output is the input. */
  lemma IdentityCurve(vres: seq<real>, res: seq<real>, v: real)
    requires |res| == |vres| && AllZero(res) && Evaluable(vres, v)
    ensures CurveAt(Monomial(NrCoeffs, 1), vres, res, v) == v
  {
    IdentityPolynomial(NrCoeffs, v);
  }

  /** `int(channel > 11)`: channels 0-11 read the residuals of DAC 1 (column 0), channels 12-23 those of DAC 2 (column 1). */
  function DacGroup(channel: nat): (dac: nat)
    ensures dac < 2
    ensures dac == 1 <==> channel >= 12
  {
    if channel > 11 then 1 else 0
  }

  /** The calibration read from one file; its fields are assigned once, in the constructor. */
  class VoltageCalibration {
    const coeffs: seq<seq<seq<real>>>
    const times: (int, int)
    const vres: Table
    const res: Table

    /** coeffs has shape (24, 4096, 10) and the two residual tables have the same number of rows. */
    ghost predicate Valid()
    {
      && |coeffs| == NrChannels
      && (forall c :: 0 <= c < NrChannels ==> |coeffs[c]| == NrSamples)
      && (forall c, s :: 0 <= c < NrChannels && 0 <= s < NrSamples ==> |coeffs[c][s]| == NrCoeffs)
      && |vres| == |res|
    }

    /**
     * `__init__` with the file already read: the flat coefficient rows are
     * reshaped to (24, 4096, 10), the time window is kept as given, and the
     * two residual curves are truncated to a common length and stacked.
     */
    constructor (flatCoeffs: seq<seq<real>>, startTime: int, endTime: int, curves: Curves)
      requires |flatCoeffs| == NrChannels * NrSamples
      requires forall r :: 0 <= r < |flatCoeffs| ==> |flatCoeffs[r]| == NrCoeffs
      requires |curves.vres1| == |curves.res1| && |curves.vres2| == |curves.res2|
      ensures Valid()
      ensures forall c, s :: 0 <= c < NrChannels && 0 <= s < NrSamples ==> coeffs[c][s] == flatCoeffs[c * NrSamples + s]
      ensures times == (startTime, endTime)
      ensures (vres, res) == UnpackFitResiduals(curves)
    {
      coeffs := seq(NrChannels, c requires 0 <= c < NrChannels =>
                  seq(NrSamples, s requires 0 <= s < NrSamples => flatCoeffs[c * NrSamples + s]));
      times := (startTime, endTime);
      var tables := UnpackFitResiduals(curves);
      vres := tables.0;
      res := tables.1;
    }

    /** The curve of one channel and sample at the voltages v, with the residuals of the channel's DAC group. */
    method GetFitCurve(v: seq<real>, channel: nat, sample: nat) returns (adc: seq<real>)
      requires Valid() && channel < NrChannels && sample < NrSamples
      requires forall i :: 0 <= i < |v| ==> Evaluable(Column(vres, DacGroup(channel)), v[i])
      ensures |adc| == |v|
      ensures forall i :: 0 <= i < |v| ==>
        adc[i] == CurveAt(coeffs[channel][sample], Column(vres, DacGroup(channel)), Column(res, DacGroup(channel)), v[i])
    {
      var dac := DacGroup(channel);
      adc := MakeVcCurve(v, coeffs[channel][sample], Column(vres, dac), Column(res, dac));
    }

    /** The (start, end) validity window. */
    function GetTimes(): (t: (int, int))
      ensures t == times
    {
      times
    }
  }

  /** Loading a table and asking for its window gives back the window that was read. */
  method LoadedTimes(flatCoeffs: seq<seq<real>>, startTime: int, endTime: int, curves: Curves) returns (t: (int, int))
    requires |flatCoeffs| == NrChannels * NrSamples
    requires forall r :: 0 <= r < |flatCoeffs| ==> |flatCoeffs[r]| == NrCoeffs
    requires |curves.vres1| == |curves.res1| && |curves.vres2| == |curves.res2|
    ensures t == (startTime, endTime)
  {
    var vc := new VoltageCalibration(flatCoeffs, startTime, endTime, curves);
    t := vc.GetTimes();
  }

  /**
   * End to end: a table whose every polynomial is the identity line and whose
   * residuals are zero evaluates any bracketed voltages to themselves.
   */
  method IdentityTableEvaluatesToInput(v: seq<real>, curves: Curves, channel: nat, sample: nat) returns (adc: seq<real>)
    requires channel < NrChannels && sample < NrSamples
    requires |curves.vres1| == |curves.res1| == |curves.vres2| == |curves.res2|
    requires AllZero(curves.res1) && AllZero(curves.res2)
    requires forall i :: 0 <= i < |v| ==> Evaluable(curves.vres1, v[i]) && Evaluable(curves.vres2, v[i])
    ensures adc == v
  {
    var flat := seq(NrChannels * NrSamples, r => Monomial(NrCoeffs, 1));
    var vc := new VoltageCalibration(flat, 0, 0, curves);
    var dac := DacGroup(channel);
    assert Column(vc.vres, 0) == curves.vres1 && Column(vc.vres, 1) == curves.vres2;
    assert Column(vc.res, 0) == curves.res1 && Column(vc.res, 1) == curves.res2;
    adc := vc.GetFitCurve(v, channel, sample);
    forall i | 0 <= i < |v| ensures adc[i] == v[i] {
      IdentityCurve(Column(vc.vres, dac), Column(vc.res, dac), v[i]);
    }
  }
}
