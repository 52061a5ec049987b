/**
 * The residual-correction curves of the two DAC groups, as read from a
 * calibration file: their truncation to a common length and their stacking
 * into the (N, 2) tables `vres` and `res` (column 0 for DAC 1, column 1 for
 * DAC 2). Both `voltageCalibration.__init__` and `unpack_fit_residuals` do
 * exactly this.
 */
module Residuals {

  function Min(a: int, b: int): int
  {
    if a <= b then a else b
  }

  /** An (N, 2) table: one row per residual point, one column per DAC group. */
  type Table = seq<(real, real)>

  /** The X (voltage) and Y (residual) arrays of the two residual graphs. */
  datatype Curves = Curves(vres1: seq<real>, res1: seq<real>, vres2: seq<real>, res2: seq<real>)

  /** Python's `s[:-d]` for d > 0: the last d entries dropped, nothing left when d exceeds |s|. */
  function DropLast<T>(s: seq<T>, d: nat): (r: seq<T>)
    ensures r <= s
    ensures |s| - |r| == if d <= |s| then d else |s|
  {
    if d <= |s| then s[..|s| - d] else []
  }

  /**
   * `diff = len(vres_dac1) - len(vres_dac2)`; the curve of the DAC with the
   * longer X array loses its trailing |diff| points, X and Y alike.
   */
  function Truncate(c: Curves): (t: Curves)
    ensures |t.vres1| == |t.vres2| == Min(|c.vres1|, |c.vres2|)
    ensures t.vres1 <= c.vres1 && t.res1 <= c.res1 && t.vres2 <= c.vres2 && t.res2 <= c.res2
    ensures |c.res1| - |t.res1| == Min(|c.vres1| - |t.vres1|, |c.res1|)
    ensures |c.res2| - |t.res2| == Min(|c.vres2| - |t.vres2|, |c.res2|)
    ensures |c.vres1| <= |c.vres2| ==> t.vres1 == c.vres1 && t.res1 == c.res1
    ensures |c.vres2| <= |c.vres1| ==> t.vres2 == c.vres2 && t.res2 == c.res2
  {
    var diff := |c.vres1| - |c.vres2|;
    if diff > 0 then
      Curves(DropLast(c.vres1, diff), DropLast(c.res1, diff), c.vres2, c.res2)
    else if diff < 0 then
      Curves(c.vres1, c.res1, DropLast(c.vres2, -diff), DropLast(c.res2, -diff))
    else
      c
  }

  /** `np.stack(np.array([a, b]), axis = -1)`. */
  function Stack(a: seq<real>, b: seq<real>): (t: Table)
    requires |a| == |b|
    ensures |t| == |a|
  {
    seq(|a|, i requires 0 <= i < |a| => (a[i], b[i]))
  }

  /** `t[:, dac]`. */
  function Column(t: Table, dac: nat): (col: seq<real>)
    requires dac < 2
    ensures |col| == |t|
  {
    seq(|t|, i requires 0 <= i < |t| => if dac == 0 then t[i].0 else t[i].1)
  }

  /**
   * The truncated curves stacked into the `vres` and `res` tables. X and Y
   * of one graph have equal length, as in a ROOT graph; otherwise the stack
   * of ragged arrays would fail.
   */
  function UnpackFitResiduals(c: Curves): (tables: (Table, Table))
    requires |c.vres1| == |c.res1| && |c.vres2| == |c.res2|
    ensures var m := Min(|c.vres1|, |c.vres2|);
      && |tables.0| == |tables.1| == m
      && Column(tables.0, 0) == c.vres1[..m] && Column(tables.0, 1) == c.vres2[..m]
      && Column(tables.1, 0) == c.res1[..m] && Column(tables.1, 1) == c.res2[..m]
  {
    var t := Truncate(c);
    var vres := Stack(t.vres1, t.vres2);
    var res := Stack(t.res1, t.res2);
    assert Column(vres, 0) == t.vres1 && Column(vres, 1) == t.vres2;
    assert Column(res, 0) == t.res1 && Column(res, 1) == t.res2;
    (vres, res)
  }

  /** The literal case of a 12-point and a 10-point curve: the first is cut to its first 10 points. */
  lemma TruncateTwelveToTen(x1: seq<real>, y1: seq<real>, x2: seq<real>, y2: seq<real>)
    requires |x1| == |y1| == 12 && |x2| == |y2| == 10
    ensures Truncate(Curves(x1, y1, x2, y2)) == Curves(x1[..10], y1[..10], x2, y2)
  {
  }
}
