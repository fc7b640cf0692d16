/**
 * Derived weather metrics attached to every station record: relative humidity,
 * heat index, wet-bulb temperature and the WBGT blend, each rounded to tenths.
 *
 * The vapour-pressure exponentials, the heat-index regression polynomial and the
 * arctangent wet-bulb formula are not interpreted: they are supplied as the
 * function-valued fields of `Formulas`. What is modelled is the structure around
 * them: which formula gets which inputs, the out-of-range sentinels of the heat
 * index, the linear WBGT blend and Python's round-half-to-even rounding.
 */
module Metrics {
  import opened Units

  /** Heat index above which temperature mode flashes COLOR_HOT (degrees F). */
  const HeatIndexThreshold: real := 100.0

  /** Heat-index value stored below the regression's valid range (tempF < 70). */
  const BelowRangeSentinel: real := -1.0

  /** Heat-index value stored above the regression's valid range (tempF > 115). */
  const AboveRangeSentinel: real := 1000.0

  datatype Formulas = Formulas(
    relativeHumidity: (real, real) -> real,     // (tempC, dewpointC) -> RH %, e / e_s * 100
    heatIndexPolynomial: (real, real) -> real,  // (tempF, RH) -> heat index polynomial, degrees F
    wetBulb: (real, real) -> real               // (tempC, RH) -> wet-bulb temperature, degrees C
  )

  datatype Derived = Derived(rh: real, heatIndex: real, tempWet: real, wbgt: real)

  /**
   * Python's `round` on a number: the nearest integer, ties going to the even one.
   */
  function RoundHalfEven(y: real): (n: int)
    ensures y - 0.5 <= n as real <= y + 0.5
    ensures (n as real - y == 0.5 || y - n as real == 0.5) ==> n % 2 == 0
  {
    var f := y.Floor;
    var frac := y - f as real;
    if frac < 0.5 then f
    else if frac > 0.5 then f + 1
    else if f % 2 == 0 then f
    else f + 1
  }

  /** `round(x * 10) / 10`: the value rounded to one decimal place. */
  function RoundTenths(x: real): (r: real)
    ensures r * 10.0 == RoundHalfEven(x * 10.0) as real
    ensures (r * 10.0).Floor as real == r * 10.0
    ensures x - 0.05 <= r <= x + 0.05
  {
    RoundHalfEven(x * 10.0) as real / 10.0
  }

  /** A whole number is left unchanged by rounding to tenths. */
  lemma RoundTenthsOfWhole(k: int)
    ensures RoundTenths(k as real) == k as real
  {
    assert k as real * 10.0 == (10 * k) as real;
    assert (k as real * 10.0).Floor == 10 * k;
  }

  /**
   * The heat index actually stored: the regression value inside [70, 115] degrees F,
   * a sentinel outside it.
   */
  function HeatIndex(tempF: real, polynomial: real): (hi: real)
    ensures tempF < 70.0 ==> hi == BelowRangeSentinel && hi <= HeatIndexThreshold
    ensures tempF > 115.0 ==> hi == AboveRangeSentinel && hi > HeatIndexThreshold
    ensures 70.0 <= tempF <= 115.0 ==> hi == polynomial
  {
    if tempF < 70.0 then BelowRangeSentinel
    else if tempF > 115.0 then AboveRangeSentinel
    else polynomial
  }

  /**
   * The metrics computed from a station's temperature and dewpoint. The unrounded
   * humidity feeds the heat index and the wet bulb; every stored value is rounded.
   */
  function Derive(fs: Formulas, tempC: real, dewpointC: real): (d: Derived)
    ensures CtoF(tempC) < 70.0 ==> d.heatIndex == BelowRangeSentinel
    ensures CtoF(tempC) > 115.0 ==> d.heatIndex == AboveRangeSentinel
    ensures d.heatIndex > HeatIndexThreshold ==> CtoF(tempC) >= 70.0
  {
    var rh := fs.relativeHumidity(tempC, dewpointC);
    var tempF := CtoF(tempC);
    var hi := HeatIndex(tempF, fs.heatIndexPolynomial(tempF, rh));
    var tw := fs.wetBulb(tempC, rh);
    var wbgt := 0.7 * tw + 0.3 * tempC;
    RoundTenthsOfWhole(-1);
    RoundTenthsOfWhole(1000);
    Derived(RoundTenths(rh), RoundTenths(hi), RoundTenths(tw), RoundTenths(wbgt))
  }
}
