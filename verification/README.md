# METARMap decision core, modelled in Dafny

METARMap drives a string of addressable LEDs. Each LED stands for an airport.
It fetches METAR weather reports, adds derived metrics to each station's record,
and then repaints the strip once per second. In METAR mode a station shows its
flight-category colour, fading or blinking for wind and flashing white for
lightning. In temperature mode it shows a colour per Fahrenheit decade and
flashes white when the heat index is high. Brightness is picked once at start-up
by checking whether the current instant lies inside a day window. A push button
switches between the two modes. A separate script (`imageshow.py`) paints every
LED from a table keyed by ranges of LED numbers.

This project models the decision logic and the state around it:

- `options.dfy`, `units.dfy`, `palette.dfy`, `settings.dfy`, `strip.dfy`: shared pieces.
  These are optional fields, the exact Fahrenheit/Celsius maps, the colour
  constants, the animation switches, and the binding of positions to airport codes.
- `metrics.dfy`: the heat-index sentinels, the WBGT blend and Python's
  round-half-to-even rounding to tenths.
- `text.dfy`: the `str.find` search used to spot `LTG` in the raw report.
- `enrichment.dfy`: how the station tables (`conditionDict`) of map.py and
  temp.py are built. There is a specification fold and a loop proved equal to it.
- `flight_category.dfy`, `temperature.dfy`: the two colour classifiers.
- `brightness.dfy`, `mode.dfy`: the day/night decision and the mode toggle.
- `metar_map.dfy`, `temp_map.dfy`: the render state of each script as a class.
  It holds the pixel array, the mode and the phase, and `Tick` is one pass of
  the render loop, writing the array in place.
- `image_show.dfy`: the range-keyed lookup and the fill loop.

Three points where the code's behaviour is easy to misread:

- Gusts. The gust speed itself is compared with the threshold when the record
  is built (map.py:169). The tick then tests `windSpeed > threshold or windGust`
  (map.py:221). The gust does not depend on the sustained speed.
- Buckets. The temperature chain has twelve colour buckets: below 0 °F, ten
  decades, and 100 °F or above.
- Unpopulated (`NULL`) positions are never written, so they keep whatever they
  held. They are not actively cleared.

## Model

| member | source | states |
|---|---|---|
| `Units.FtoC` | map.py:77-78 | converting the result back to Fahrenheit gives the input |
| `Units.CtoF` | map.py:81-82 | converting the result back to Celsius gives the input |
| `Units.ConversionsAreInverse` | map.py:77-82 | `FtoC(CtoF(x)) == x` and `CtoF(FtoC(x)) == x` for every real |
| `Units.ConversionsPreserveOrder` | temp.py:55-61 | both conversions are strictly increasing, so comparing in °C is comparing in °F |
| `Metrics.RoundHalfEven` | map.py:197-200 | result is an integer within 0.5 of the input, and ties go to the even neighbour |
| `Metrics.RoundTenths` | map.py:197-200 | `round(x*10)/10`: ten times the result is `RoundHalfEven(x*10)`, so it lies on the one-decimal grid, within 0.05 of `x`, with ties to the even tenth |
| `Metrics.RoundTenthsOfWhole` | map.py:199 | whole numbers, and so the -1 and 1000 sentinels, survive rounding unchanged |
| `Metrics.HeatIndex` | map.py:187-192 | below 70 °F the value is the -1 sentinel and never exceeds the 100 °F threshold; above 115 °F it is the 1000 sentinel and always does; in between it is the polynomial |
| `Metrics.Derive` | map.py:180-200 | stored heat index is exactly -1 below 70 °F and exactly 1000 above 115 °F, and exceeds the threshold only at 70 °F or more |
| `Text.Find` | map.py:172-174 | -1 exactly when the pattern does not occur, otherwise the lowest index where it occurs |
| `Enrichment.Enrich` | map.py:159-203 | no entry without a flight category; gust flag iff a gust is present and (always-blink or gust > threshold); lightning iff the raw text contains `LTG`; speed, temperature and dewpoint are the reported values or 0 when absent; the metrics are derived from those values |
| `Enrichment.EnrichTemp` | temp.py:82-88 | absent temperature and dewpoint default to 0, and the metrics are derived from the defaulted values |
| `Enrichment.CollectKeys` | map.py:157-203 | a station is in the table iff some report for it is kept |
| `Enrichment.CollectLatest` | map.py:203 | a station's entry comes from its last kept report (later reports overwrite earlier ones) |
| `Enrichment.CollectSource` | temp.py:113 | every entry is the enrichment of one of that station's kept reports |
| `Enrichment.ConditionsKeys` | map.py:159-161 | map.py's table holds a station iff one of its reports has a flight category |
| `Enrichment.TempConditionsKeys` | temp.py:81-113 | temp.py's table holds every station that has a report |
| `Enrichment.TempSentinels` | temp.py:95-100 | every temp.py entry carries the -1 / 1000 heat-index sentinel outside [70, 115] °F |
| `Enrichment.BuildConditions` | map.py:156-203 | the loop (skip, defaults, overwrite) yields exactly the specification table `Conditions` |
| `Enrichment.BuildTempConditions` | temp.py:80-113 | the loop yields exactly the specification table `TempConditions` |
| `FlightCategory.CategoryColor` | map.py:221-232 | unknown category is clear; otherwise lightning is white, then wind gives the category's fade colour (or clear when blinking), otherwise the steady colour |
| `FlightCategory.WindAndLightningExclusive` | map.py:221-222 | wind and lightning animation are never due in the same tick |
| `FlightCategory.StaticWithoutAnimation` | map.py:221-232 | with both animations switched off, every tick shows the steady colour (clear for an unknown category) |
| `FlightCategory.WindFadeAlternates` | map.py:221-228 | a strong-wind station without lightning shows its fade colour on the flash phase and its steady colour on the base phase |
| `FlightCategory.LightningFlashesOnBasePhase` | map.py:222-230 | a lightning station is white on the base phase and not white on the flash phase |
| `Temperature.TempColor` | map.py:241-268 | white iff flash phase and heat index > 100; never clear; below FtoC(0) gives COLOR_NEG; at or above FtoC(100) gives COLOR_100 |
| `Temperature.BreakpointsAscending` | temp.py:135-158 | the breakpoints FtoC(0) < FtoC(10) < ... < FtoC(100) strictly ascend |
| `Temperature.BucketsDisjoint` | temp.py:135-158 | no temperature lies in two buckets |
| `Temperature.BucketFrom` | temp.py:135-158 | searching upwards always finds a bucket containing the temperature |
| `Temperature.Bucket` | temp.py:135-160 | every real temperature lies in one of the twelve buckets |
| `Temperature.TempColorIsBucketColor` | temp.py:133-160 | the chain equals the heat flash or the colour of the temperature's bucket, so its final `else` is unreachable |
| `Temperature.NoHeatFlashOnBasePhase` | temp.py:128-134 | a base-phase tick never shows COLOR_HOT |
| `Temperature.HeatFlashFollowsSentinels` | map.py:241-242 | below 70 °F no flash whatever the humidity; above 115 °F the flash phase shows COLOR_HOT and the base phase COLOR_100 |
| `Brightness.Classify` | astraltest.py:29-37 | night iff before `up` or after `down`; day iff strictly between; the error branch iff on a boundary of a well-formed window |
| `Brightness.Select` | astraltest.py:11-37 | always one of the two configured levels; night level iff outside the window, day level iff inside or on its boundary |
| `Brightness.BoundaryIsDay` | astraltest.py:35-37 | an instant equal to `up` or `down` reaches the error branch and gets the day level |
| `Brightness.InvertedWindowIsNight` | astraltest.py:29-31 | when `up > down` every instant is night |
| `Mode.Toggle` | map.py:96-102 | the result is always metar or temp; it is temp iff the input was metar; an unknown mode becomes metar |
| `Mode.ToggleTwice` | map.py:96-99 | two presses return to the starting valid mode |
| `Mode.ToggleChangesMode` | map.py:96-99 | a press always changes a valid mode |
| `MetarMapDisplay.StartupBrightness` | map.py:121-131 | with dawn/dusk as the window: night level iff outside, day level iff inside or on the boundary |
| `MetarMapDisplay.PositionColor` | map.py:215-270 | a station missing from the table, or an unknown mode, gives COLOR_CLEAR; otherwise the mode's classifier decides |
| `MetarMapDisplay.MetarMap.constructor` | map.py:140-206 | start-up state: stored mode, phase false, brightness from the day window, a dark strip, the station table built from the feed |
| `MetarMapDisplay.MetarMap.ButtonPressed` | map.py:91-102 | the mode becomes `Toggle` of the old mode and is valid afterwards |
| `MetarMapDisplay.MetarMap.Tick` | map.py:207-280 | each populated index gets its position's colour for the current mode and phase; NULL slots and pixels past the list are unchanged; mode is unchanged; the phase flips (the loop keeps the counter `i` equal to the list position) |
| `TempMapDisplay.TempPositionColor` | temp.py:125-160 | a station missing from the table gives COLOR_CLEAR; otherwise the temperature classifier decides |
| `TempMapDisplay.TempMap.constructor` | temp.py:64-116 | start-up state: phase false, a dark strip, the temperature table built from the feed |
| `TempMapDisplay.TempMap.Tick` | temp.py:117-169 | each populated index gets its temperature colour; NULL slots and pixels past the list are unchanged; a base-phase pass writes no COLOR_HOT; the phase flips |
| `ImageShow.Get` | imageshow.py:22-27 | returns the value of the first key in insertion order whose range contains the item; raises `KeyError(item)` iff no key does |
| `ImageShow.LayoutLookup` | imageshow.py:34-37 | items 1..150 map to (102,255,204); every other item, such as 0 and 151, raises `KeyError` |
| `ImageShow.Fill` | imageshow.py:39-40 | no error iff every LED number 1..n is covered; then pixel `i` holds the value for `i + 1`; on a `KeyError` the earlier pixels are written and the rest unchanged |
| `ImageShow.Show` | imageshow.py:31-42 | a fresh strip whose 150 pixels end up (102,255,204) and no lookup fails |

## Left out

- Network fetch of the weather feed and XML parsing are not modelled (map.py:147-158, temp.py:71-82). So is the conversion of element texts with `int`/`float`. A report is a record of optional, already-typed fields.
- Relative humidity, the heat-index regression polynomial and the arctangent wet-bulb formula are not modelled: they are floating-point and transcendental. They are supplied as function-valued parameters (`Metrics.Formulas`). Only the sentinel branch, the WBGT blend and the rounding are modelled.
- All arithmetic is exact over `real`, not IEEE floats. There is no NaN, so the NaN route into the last `else` of the temperature chain (map.py:267-268) does not exist here. `5/9` and `9/5` are exact fractions.
- The `""` placeholder entry that seeds `conditionDict` (map.py:156, temp.py:80) is not modelled. It lacks a heat index, so a blank airport line raises `KeyError` on a flash tick in temperature mode. Instead the tables start empty, and `Strip.Fits` requires every populated airport code to be non-empty.
- `Strip.Fits` also requires every populated position to have an LED. The strip raises an error on a write past its end, and that error path is not modelled.
- LED hardware is not modelled: strip initialisation, applying the brightness, `pixels.show()` and GPIO button set-up. The pixel buffer is a plain array.
- Reading and writing `config.json` is not modelled. The stored mode is a constructor argument, and `ButtonPressed` does not persist it.
- The astral sunrise/sunset/dawn/dusk computation and the time-zone handling are not modelled. Instants are integers supplied by the caller.
- The infinite render loop and `time.sleep(BLINK_SPEED)` are not modelled; `Tick` is one pass.
- `MetarMapDisplay.MetarMap.Tick` reads the mode once per pass. The source re-reads the global on every position, and the button callback runs on another thread, so a press in the middle of a pass could split that pass between two modes. That interleaving is not modelled.
- Diagnostics written with `print` are not modelled. Neither is reading and stripping the airports file, or building the request URL.
- `WET_BULB_THRESHOLD` is defined but never used by the source, so it is not modelled.
- `ImageShow` keeps the range-keyed dictionary as a list of entries in insertion order. Python's merging of equal range keys when the dictionary is built is not modelled.
- noaa.py (plotting with pygrib/matplotlib) has no decision logic and is not part of this model.
