/**
 * The running state of temp.py: temperature mode only, no mode button and a
 * fixed brightness. One call of `Tick` is one pass of its render loop.
 */
module TempMapDisplay {
  import opened Palette
  import opened Metrics
  import opened Enrichment
  import opened Temperature
  import opened Strip

  /** The colour written for a populated position: clear when the station has no entry. */
  function TempPositionColor(flashCycle: bool, conditions: map<string, TempStation>, code: string): (c: Color)
    ensures code !in conditions ==> c == ColorClear
    ensures code in conditions ==>
              c == TempColor(flashCycle, conditions[code].tempC, conditions[code].metrics.heatIndex)
  {
    if code in conditions then
      TempColor(flashCycle, conditions[code].tempC, conditions[code].metrics.heatIndex)
    else ColorClear
  }

  class TempMap {
    const airports: seq<string>
    const conditions: map<string, TempStation>
    const pixels: array<Color>
    var flashCycle: bool

    ghost predicate Valid()
    {
      Fits(airports, pixels.Length)
    }

    /** Start-up: a strip of `ledCount` dark pixels and the station table built from the feed. */
    constructor (fs: Formulas, ledCount: nat, airportCodes: seq<string>, metars: seq<Metar>)
      requires Fits(airportCodes, ledCount)
      ensures Valid() && fresh(pixels)
      ensures airports == airportCodes && !flashCycle
      ensures conditions == TempConditions(fs, metars)
      ensures pixels.Length == ledCount && forall i :: 0 <= i < ledCount ==> pixels[i] == ColorClear
    {
      var table := BuildTempConditions(fs, metars);
      airports := airportCodes;
      conditions := table;
      pixels := new Color[ledCount](_ => ColorClear);
      flashCycle := false;
    }

    /**
     * One pass of the render loop: every populated position receives its
     * station's temperature colour for the current phase; unpopulated positions
     * and pixels past the airport list are left as they were; then the phase
     * flips. A pass on the base phase writes no heat flash.
     */
    method Tick()
      requires Valid()
      modifies this`flashCycle, pixels
      ensures flashCycle == !old(flashCycle)
      ensures forall j :: 0 <= j < pixels.Length && j < |airports| && airports[j] != Unpopulated ==>
                pixels[j] == TempPositionColor(old(flashCycle), conditions, airports[j])
      ensures forall j :: 0 <= j < pixels.Length && (j >= |airports| || airports[j] == Unpopulated) ==>
                pixels[j] == old(pixels[j])
      ensures !old(flashCycle) ==>
                forall j :: 0 <= j < pixels.Length && j < |airports| && airports[j] != Unpopulated ==>
                  pixels[j] != ColorHot
    {
      var i := 0;
      for n := 0 to |airports|
        invariant i == n
        invariant flashCycle == old(flashCycle)
        invariant forall j :: 0 <= j < pixels.Length && j < n && airports[j] != Unpopulated ==>
                    pixels[j] == TempPositionColor(flashCycle, conditions, airports[j])
        invariant forall j :: 0 <= j < pixels.Length && (j >= n || airports[j] == Unpopulated) ==>
                    pixels[j] == old(pixels[j])
      {
        var code := airports[n];
        if code == Unpopulated {
          i := i + 1;
          continue;
        }
        var color := ColorClear;
        var flash := flashCycle;
        if code in conditions {
          var station := conditions[code];
          color := TempColor(flash, station.tempC, station.metrics.heatIndex);
        }
        pixels[i] := color;
        i := i + 1;
      }
      flashCycle := !flashCycle;
    }
  }
}
