/**
 * Day/night brightness chosen once at start-up by comparing the current instant
 * with a window [up, down] of the local day. Instants are whole numbers on one
 * time line. map.py uses dawn and dusk as the window, astraltest.py sunrise and
 * sunset.
 */
module Brightness {

  const LedDayBrightness: real := 0.2
  const LedNightBrightness: real := 0.08

  /**
   * The three outcomes of the comparison. `TimeError` is the branch reached when
   * neither test holds (the instant is exactly on a boundary); it selects the
   * day brightness.
   */
  datatype Verdict = Nighttime | Daytime | TimeError

  function Classify(now: int, up: int, down: int): (v: Verdict)
    ensures v == Nighttime <==> now < up || now > down
    ensures v == Daytime <==> up < now < down
    ensures v == TimeError <==> up <= down && (now == up || now == down)
  {
    if now < up || now > down then Nighttime
    else if now > up && now < down then Daytime
    else TimeError
  }

  /** The brightness a verdict selects. */
  function LevelOf(v: Verdict): real
  {
    if v == Nighttime then LedNightBrightness else LedDayBrightness
  }

  /** The brightness for `now` against the window [up, down]. */
  function Select(now: int, up: int, down: int): (level: real)
    ensures level == LedNightBrightness || level == LedDayBrightness
    ensures level == LedNightBrightness <==> now < up || now > down
    ensures level == LedDayBrightness <==> up <= now <= down
  {
    LevelOf(Classify(now, up, down))
  }

  /** An instant exactly on either boundary of a well-formed window gets the day brightness, via the error branch. */
  lemma BoundaryIsDay(now: int, up: int, down: int)
    requires up <= down && (now == up || now == down)
    ensures Classify(now, up, down) == TimeError
    ensures Select(now, up, down) == LedDayBrightness
  {
  }

  /** A window whose start is after its end makes every instant night. */
  lemma InvertedWindowIsNight(now: int, up: int, down: int)
    requires up > down
    ensures Select(now, up, down) == LedNightBrightness
  {
  }
}
