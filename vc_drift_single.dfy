/** The time-axis helpers of the single-station drift plot. */
module VcDriftSingle {

  import opened Wrappers

  /** 2023-01-01 01:00 UTC in epoch seconds. */
  const Epoch2023: real := 1672534800.0

  /** `datetime.timedelta(days = 6 * 30).total_seconds()`. */
  const SkipLimit: real := 15552000.0

  /** find_2023_time_idx: the first entry later than the 2023 epoch, or None when there is none. */
  method Find2023TimeIdx(times: seq<real>) returns (idx: Option<nat>)
    ensures idx.Some? ==> idx.value < |times| && times[idx.value] > Epoch2023
    ensures idx.Some? ==> forall k :: 0 <= k < idx.value ==> times[k] <= Epoch2023
    ensures idx.None? <==> forall k :: 0 <= k < |times| ==> times[k] <= Epoch2023
  {
    for i := 0 to |times|
      invariant forall k :: 0 <= k < i ==> times[k] <= Epoch2023
    {
      if times[i] > Epoch2023 {
        return Some(i);
      }
    }
    return None;
  }

  /** `np.diff(times)[i]`. */
  function Gap(times: seq<real>, i: nat): real
    requires i + 1 < |times|
  {
    times[i + 1] - times[i]
  }

  /** A gap of more than six months between consecutive calibrations. */
  predicate BigGap(times: seq<real>, i: nat)
  {
    i + 1 < |times| && Gap(times, i) > SkipLimit
  }

  /** i is the largest gap, a big one, and no earlier big gap is as large. */
  ghost predicate IsLargestGap(times: seq<real>, i: nat)
  {
    && BigGap(times, i)
    && (forall j :: 0 <= j < |times| - 1 ==> Gap(times, j) <= Gap(times, i))
    && (forall j :: 0 <= j < i && BigGap(times, j) ==> Gap(times, j) < Gap(times, i))
  }

  /** The number of gaps: `len(np.diff(times))`. */
  function NrGaps(times: seq<real>): nat
  {
    if |times| == 0 then 0 else |times| - 1
  }

  /**
   * find_skip: the index of the largest gap above six months, the earliest
   * on ties, and 0 when no gap is that large.
   */
  method FindSkip(times: seq<real>) returns (maxI: nat)
    ensures (forall j :: 0 <= j < NrGaps(times) ==> !BigGap(times, j)) ==> maxI == 0
    ensures (exists j :: 0 <= j < NrGaps(times) && BigGap(times, j)) ==> IsLargestGap(times, maxI)
    ensures maxI == 0 || maxI < |times| - 1
  {
    maxI := 0;
    var maxDiff := 0.0;
    ghost var found := false;
    for i := 0 to NrGaps(times)
      invariant !found ==> maxI == 0 && maxDiff == 0.0
      invariant !found ==> forall j :: 0 <= j < i ==> !BigGap(times, j)
      invariant found ==> maxI < i && BigGap(times, maxI) && maxDiff == Gap(times, maxI)
      invariant found ==> forall j :: 0 <= j < i && BigGap(times, j) ==> Gap(times, j) <= maxDiff
      invariant found ==> forall j :: 0 <= j < maxI && BigGap(times, j) ==> Gap(times, j) < maxDiff
    {
      var diff := times[i + 1] - times[i];
      if diff > SkipLimit {
        if diff > maxDiff {
          maxDiff := diff;
          maxI := i;
          found := true;
        }
      }
    }
  }

  /**
   * The caller splits the time axis only when find_skip returns a nonzero
   * index, so a largest gap right after the first calibration is read as no
   * gap at all.
   */
  method FirstGapReadsAsNoSkip() returns (skip: nat)
    ensures BigGap([0.0, 20000000.0, 20000001.0], 0)
    ensures skip == 0
  {
    skip := FindSkip([0.0, 20000000.0, 20000001.0]);
  }

  /**
   * find_skip as evidently intended: None when no gap exceeds six months,
   * otherwise the index of the largest such gap (earliest on ties), index 0
   * included.
   */
  method FindSkipIndex(times: seq<real>) returns (skip: Option<nat>)
    ensures skip.None? <==> forall j :: 0 <= j < NrGaps(times) ==> !BigGap(times, j)
    ensures skip.Some? ==> IsLargestGap(times, skip.value)
  {
    skip := None;
    var maxDiff := 0.0;
    for i := 0 to NrGaps(times)
      invariant skip.None? ==> forall j :: 0 <= j < i ==> !BigGap(times, j)
      invariant skip.Some? ==> skip.value < i && BigGap(times, skip.value) && maxDiff == Gap(times, skip.value)
      invariant skip.Some? ==> forall j :: 0 <= j < i && BigGap(times, j) ==> Gap(times, j) <= maxDiff
      invariant skip.Some? ==> forall j :: 0 <= j < skip.value && BigGap(times, j) ==> Gap(times, j) < maxDiff
    {
      var diff := times[i + 1] - times[i];
      if diff > SkipLimit && (skip.None? || diff > maxDiff) {
        maxDiff := diff;
        skip := Some(i);
      }
    }
  }
}
