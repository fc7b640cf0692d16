/**
 * The running state of map.py: the pixel buffer, the display mode, the animation
 * phase, and what start-up fixed (airport order, station table, brightness).
 * One call of `Tick` is one pass of the render loop.
 */
module MetarMapDisplay {
  import opened Options
  import opened Palette
  import opened Settings
  import opened Metrics
  import opened Enrichment
  import opened FlightCategory
  import opened Temperature
  import opened Mode
  import opened Strip
  import Brightness

  /** The start-up brightness of map.py: the day/night window runs from dawn to dusk. */
  function StartupBrightness(now: int, dawn: int, dusk: int): (level: real)
    ensures level == Brightness.LedNightBrightness <==> now < dawn || now > dusk
    ensures level == Brightness.LedDayBrightness <==> dawn <= now <= dusk
  {
    Brightness.Select(now, dawn, dusk)
  }

  /**
   * The colour written for a populated position: clear when the station has no
   * entry or the mode is neither metar nor temp.
   */
  function PositionColor(s: Settings, mode: string, flashCycle: bool,
                         conditions: map<string, Station>, code: string): (c: Color)
    ensures code !in conditions ==> c == ColorClear
    ensures !ValidMode(mode) ==> c == ColorClear
    ensures mode == MetarMode && code in conditions ==> c == CategoryColor(s, flashCycle, conditions[code])
    ensures mode == TempMode && code in conditions ==>
              c == TempColor(flashCycle, conditions[code].tempC, conditions[code].metrics.heatIndex)
  {
    var found := if code in conditions then Some(conditions[code]) else None;
    if mode == MetarMode then
      if found.Some? then CategoryColor(s, flashCycle, found.value) else ColorClear
    else if mode == TempMode then
      if found.Some? then TempColor(flashCycle, found.value.tempC, found.value.metrics.heatIndex) else ColorClear
    else ColorClear
  }

  class MetarMap {
    const settings: Settings
    const airports: seq<string>
    const conditions: map<string, Station>
    const brightness: real
    const pixels: array<Color>
    var mode: string
    var flashCycle: bool

    ghost predicate Valid()
    {
      Fits(airports, pixels.Length)
    }

    /**
     * Start-up: the stored mode, the brightness for the current instant, a strip
     * of `ledCount` dark pixels, and the station table built from the feed.
     */
    constructor (s: Settings, fs: Formulas, ledCount: nat, storedMode: string,
                 now: int, dawn: int, dusk: int, airportCodes: seq<string>, metars: seq<Metar>)
      requires Fits(airportCodes, ledCount)
      ensures Valid() && fresh(pixels)
      ensures settings == s && airports == airportCodes && mode == storedMode && !flashCycle
      ensures brightness == StartupBrightness(now, dawn, dusk)
      ensures conditions == Conditions(s, fs, metars)
      ensures pixels.Length == ledCount && forall i :: 0 <= i < ledCount ==> pixels[i] == ColorClear
    {
      var table := BuildConditions(s, fs, metars);
      settings := s;
      airports := airportCodes;
      conditions := table;
      brightness := StartupBrightness(now, dawn, dusk);
      pixels := new Color[ledCount](_ => ColorClear);
      mode := storedMode;
      flashCycle := false;
    }

    /** The mode button: the mode moves on to `Toggle` of itself; nothing else changes. */
    method ButtonPressed()
      modifies this`mode
      ensures mode == Toggle(old(mode))
      ensures ValidMode(mode)
    {
      if mode == MetarMode {
        mode := TempMode;
      } else if mode == TempMode {
        mode := MetarMode;
      } else {
        mode := MetarMode;
      }
    }

    /**
     * One pass of the render loop: every populated position receives the colour
     * of its station for the current mode and phase; unpopulated positions and
     * pixels past the airport list are left as they were; then the phase flips.
     */
    method Tick()
      requires Valid()
      modifies this`flashCycle, pixels
      ensures mode == old(mode)
      ensures flashCycle == !old(flashCycle)
      ensures forall j :: 0 <= j < pixels.Length && j < |airports| && airports[j] != Unpopulated ==>
                pixels[j] == PositionColor(settings, mode, old(flashCycle), conditions, airports[j])
      ensures forall j :: 0 <= j < pixels.Length && (j >= |airports| || airports[j] == Unpopulated) ==>
                pixels[j] == old(pixels[j])
    {
      var i := 0;
      for n := 0 to |airports|
        invariant i == n
        invariant flashCycle == old(flashCycle)
        invariant forall j :: 0 <= j < pixels.Length && j < n && airports[j] != Unpopulated ==>
                    pixels[j] == PositionColor(settings, mode, flashCycle, conditions, airports[j])
        invariant forall j :: 0 <= j < pixels.Length && (j >= n || airports[j] == Unpopulated) ==>
                    pixels[j] == old(pixels[j])
      {
        var code := airports[n];
        if code == Unpopulated {
          i := i + 1;
          continue;
        }
        var color := ColorClear;
        var found := if code in conditions then Some(conditions[code]) else None;
        if mode == MetarMode {
          if found.Some? {
            color := CategoryColor(settings, flashCycle, found.value);
          }
        } else if mode == TempMode {
          var flash := flashCycle;
          if found.Some? {
            color := TempColor(flash, found.value.tempC, found.value.metrics.heatIndex);
          }
        }
        pixels[i] := color;
        i := i + 1;
      }
      flashCycle := !flashCycle;
    }
  }
}
