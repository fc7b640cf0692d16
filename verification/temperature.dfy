/**
 * The colour of a station in temperature mode (map.py and temp.py share it): a
 * white flash when the heat index is over the threshold on the flash phase,
 * otherwise one colour per Fahrenheit decade, found by strict `<` tests against
 * the ascending breakpoints 0, 10, ..., 100 degrees F converted to Celsius.
 */
module Temperature {
  import opened Palette
  import opened Units
  import opened Metrics

  /** The colour chain as the source writes it. */
  function TempColor(flash: bool, tempC: real, heatIndex: real): (c: Color)
    ensures c == ColorHot <==> flash && heatIndex > HeatIndexThreshold
    ensures c != ColorClear
    ensures !(flash && heatIndex > HeatIndexThreshold) && tempC < FtoC(0.0) ==> c == ColorNeg
    ensures !(flash && heatIndex > HeatIndexThreshold) && tempC >= FtoC(100.0) ==> c == Color100
  {
    if flash && heatIndex > HeatIndexThreshold then ColorHot
    else if tempC < FtoC(0.0) then ColorNeg
    else if tempC < FtoC(10.0) then Color0
    else if tempC < FtoC(20.0) then Color10
    else if tempC < FtoC(30.0) then Color20
    else if tempC < FtoC(40.0) then Color30
    else if tempC < FtoC(50.0) then Color40
    else if tempC < FtoC(60.0) then Color50
    else if tempC < FtoC(70.0) then Color60
    else if tempC < FtoC(80.0) then Color70
    else if tempC < FtoC(90.0) then Color80
    else if tempC < FtoC(100.0) then Color90
    else if tempC >= FtoC(100.0) then Color100
    else ColorClear
  }

  /** Number of breakpoints: 0, 10, ..., 100 degrees F. */
  const BreakpointCount: nat := 11

  /** The k-th breakpoint, in degrees C. */
  function Breakpoint(k: nat): real
  {
    FtoC(10.0 * k as real)
  }

  /** The breakpoints are strictly ascending. */
  lemma BreakpointsAscending(j: nat, k: nat)
    requires j < k
    ensures Breakpoint(j) < Breakpoint(k)
  {
  }

  /** Bucket colours, from below 0 degrees F (bucket 0) to 100 degrees F and above (bucket 11). */
  const BucketColors: seq<Color> :=
    [ColorNeg, Color0, Color10, Color20, Color30, Color40, Color50, Color60, Color70, Color80, Color90, Color100]

  /** `tempC` lies in bucket `b`: at or above the breakpoint below it and under the one above it. */
  predicate InBucket(tempC: real, b: nat)
  {
    b <= BreakpointCount &&
    (b == 0 || Breakpoint(b - 1) <= tempC) &&
    (b == BreakpointCount || tempC < Breakpoint(b))
  }

  /** No temperature lies in two buckets. */
  lemma BucketsDisjoint(tempC: real, b1: nat, b2: nat)
    requires InBucket(tempC, b1) && InBucket(tempC, b2)
    ensures b1 == b2
  {
  }

  /** The bucket of `tempC`, searching upwards from bucket `k`. */
  function BucketFrom(tempC: real, k: nat): (b: nat)
    requires k <= BreakpointCount
    requires k == 0 || Breakpoint(k - 1) <= tempC
    ensures k <= b && InBucket(tempC, b)
    decreases BreakpointCount - k
  {
    if k == BreakpointCount || tempC < Breakpoint(k) then k
    else BucketFrom(tempC, k + 1)
  }

  /** The one bucket containing `tempC`: the buckets cover every real temperature. */
  function Bucket(tempC: real): (b: nat)
    ensures InBucket(tempC, b)
    ensures b < |BucketColors|
  {
    BucketFrom(tempC, 0)
  }

  /**
   * The chain agrees with the bucket table: exactly one branch of the chain fires
   * for any temperature, so its final `else` is unreachable.
   */
  lemma TempColorIsBucketColor(flash: bool, tempC: real, heatIndex: real)
    ensures TempColor(flash, tempC, heatIndex) ==
            if flash && heatIndex > HeatIndexThreshold then ColorHot else BucketColors[Bucket(tempC)]
  {
  }

  /** The heat flash is never shown on the base phase. */
  lemma NoHeatFlashOnBasePhase(tempC: real, heatIndex: real)
    ensures TempColor(false, tempC, heatIndex) != ColorHot
  {
  }

  /**
   * Below 70 degrees F the stored heat index is the low sentinel, so the heat
   * flash is never shown, whatever the humidity; above 115 degrees F it is the
   * high sentinel, so the flash phase always shows it.
   */
  lemma HeatFlashFollowsSentinels(fs: Formulas, flash: bool, tempC: real, dewpointC: real)
    ensures CtoF(tempC) < 70.0 ==> TempColor(flash, tempC, Derive(fs, tempC, dewpointC).heatIndex) != ColorHot
    ensures CtoF(tempC) > 115.0 ==> TempColor(flash, tempC, Derive(fs, tempC, dewpointC).heatIndex) == (if flash then ColorHot else Color100)
  {
  }
}
