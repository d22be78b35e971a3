/** The obstacle check of the teleoperation arbiter (SafeTeleop::checkSafety, simulation
    variant). A laser scan is a sequence of ranges; index 0 is -180 degrees, so the
    forward sector (+-15 degrees) is the index window [58, 70) and the rear sector is
    split over the two ends of the array, [0, 6) and [122, 128). */
module Safety {

  /** min_safety_distance_, fixed in the constructor's initializer list. */
  const MinSafetyDistance: real := 0.5

  /** The number of entries the simulated scanner delivers; the last index read is 127. */
  const ScanSize: nat := 128

  /** Bounds of the index windows that the check inspects. */
  const ForwardLo: nat := 58
  const ForwardHi: nat := 70
  const RearLowHi: nat := 6
  const RearHighLo: nat := 122

  /** What the check demands of a scan for a given velocity: either none has arrived
      yet (empty), or it is long enough for every index the window(s) of that direction
      read: 70 entries forward, 128 backward. */
  predicate Readable(linearVel: real, ranges: seq<real>) {
    |ranges| == 0 || |ranges| >= (if linearVel >= 0.0 then ForwardHi else ScanSize)
  }

  /** A scan of the simulated scanner's full size (or none): readable in both directions. */
  predicate WellSized(ranges: seq<real>) {
    |ranges| == 0 || |ranges| >= ScanSize
  }

  /** No reading in [lo, hi) is closer than the safety distance. A reading of 0.0
      counts as an obstacle: the compiled check has no "> 0.0" guard. */
  predicate WindowClear(ranges: seq<real>, lo: nat, hi: nat)
    requires lo <= hi <= |ranges|
  {
    forall i :: lo <= i < hi ==> ranges[i] >= MinSafetyDistance
  }

  /** The verdict of the check, as a quantified statement: fail closed on an empty
      scan, otherwise the window(s) in the direction of travel must be clear.
      A zero velocity is treated as forward. */
  predicate IsSafe(linearVel: real, ranges: seq<real>)
    requires Readable(linearVel, ranges)
  {
    |ranges| != 0 &&
    if linearVel >= 0.0 then
      WindowClear(ranges, ForwardLo, ForwardHi)
    else
      WindowClear(ranges, 0, RearLowHi) && WindowClear(ranges, RearHighLo, ScanSize)
  }

  /** The check as the source runs it: three loops that return false on the first
      reading below the safety distance. */
  method CheckSafety(linearVel: real, ranges: seq<real>) returns (safe: bool)
    requires Readable(linearVel, ranges)
    ensures safe == IsSafe(linearVel, ranges)
  {
    if |ranges| == 0 {
      return false;
    }
    if linearVel >= 0.0 {
      for i := ForwardLo to ForwardHi
        invariant WindowClear(ranges, ForwardLo, i)
      {
        if ranges[i] < MinSafetyDistance {
          return false;
        }
      }
    } else {
      for i := 0 to RearLowHi
        invariant WindowClear(ranges, 0, i)
      {
        if ranges[i] < MinSafetyDistance {
          return false;
        }
      }
      for i := RearHighLo to ScanSize
        invariant WindowClear(ranges, RearHighLo, i)
      {
        if ranges[i] < MinSafetyDistance {
          return false;
        }
      }
    }
    return true;
  }

  /** With no scan received the check fails closed, whatever the velocity. */
  lemma EmptyScanUnsafe(linearVel: real)
    ensures !IsSafe(linearVel, [])
  {
  }

  /** Forward (or standing still): unsafe exactly when some reading of the forward
      window is below the safety distance. */
  lemma ForwardVerdict(linearVel: real, ranges: seq<real>)
    requires linearVel >= 0.0 && |ranges| >= ForwardHi
    ensures !IsSafe(linearVel, ranges) <==>
            exists i :: ForwardLo <= i < ForwardHi && ranges[i] < MinSafetyDistance
  {
  }

  /** Backward: unsafe exactly when some reading of either rear window is below the
      safety distance. */
  lemma BackwardVerdict(linearVel: real, ranges: seq<real>)
    requires linearVel < 0.0 && |ranges| >= ScanSize
    ensures !IsSafe(linearVel, ranges) <==>
            exists i :: (0 <= i < RearLowHi || RearHighLo <= i < ScanSize) &&
                        ranges[i] < MinSafetyDistance
  {
  }

  /** Readings outside the window(s) of the direction of travel never change the
      verdict: two non-empty scans that agree on the inspected indices get the same
      answer. */
  lemma OnlyWindowsMatter(linearVel: real, a: seq<real>, b: seq<real>)
    requires |a| != 0 && |b| != 0 && Readable(linearVel, a) && Readable(linearVel, b)
    requires linearVel >= 0.0 ==> a[ForwardLo..ForwardHi] == b[ForwardLo..ForwardHi]
    requires linearVel < 0.0 ==>
               a[..RearLowHi] == b[..RearLowHi] && a[RearHighLo..ScanSize] == b[RearHighLo..ScanSize]
    ensures IsSafe(linearVel, a) == IsSafe(linearVel, b)
  {
    if linearVel >= 0.0 {
      forall i | ForwardLo <= i < ForwardHi
        ensures a[i] == b[i]
      {
        assert a[i] == a[ForwardLo..ForwardHi][i - ForwardLo];
      }
    } else {
      forall i | 0 <= i < RearLowHi
        ensures a[i] == b[i]
      {
        assert a[i] == a[..RearLowHi][i];
      }
      forall i | RearHighLo <= i < ScanSize
        ensures a[i] == b[i]
      {
        assert a[i] == a[RearHighLo..ScanSize][i - RearHighLo];
      }
    }
  }

  /** A missing return reported as 0.0 inside the inspected window vetoes motion in
      that direction: the compiled check treats it as an obstacle at distance zero. */
  lemma ZeroReadingIsObstacle(linearVel: real, ranges: seq<real>, i: nat)
    requires Readable(linearVel, ranges) && i < ScanSize && i < |ranges| && ranges[i] == 0.0
    requires if linearVel >= 0.0 then ForwardLo <= i < ForwardHi
             else i < RearLowHi || RearHighLo <= i
    ensures !IsSafe(linearVel, ranges)
  {
  }

  /** A scan whose every reading is at least the safety distance is safe in both
      directions. */
  lemma ClearScanSafe(linearVel: real, ranges: seq<real>)
    requires |ranges| >= ScanSize
    requires forall i :: 0 <= i < |ranges| ==> ranges[i] >= MinSafetyDistance
    ensures IsSafe(linearVel, ranges)
  {
  }
}
