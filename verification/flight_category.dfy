/**
 * The colour of a station in METAR (flight-category) mode: a steady colour per
 * flight category, a white flash for lightning, and a fade or blink for wind.
 * Wind animates on the flash phase of the tick and lightning on the other phase,
 * so the two are never shown together.
 */
module FlightCategory {
  import opened Options
  import opened Palette
  import opened Settings
  import opened Enrichment

  /** The steady colour of each known flight category. */
  function SteadyColor(category: string): Option<Color>
  {
    if category == "VFR" then Some(ColorVfr)
    else if category == "MVFR" then Some(ColorMvfr)
    else if category == "IFR" then Some(ColorIfr)
    else if category == "LIFR" then Some(ColorLifr)
    else None
  }

  /** The dimmed colour of each known flight category, shown for wind when fading. */
  function FadeColor(category: string): Option<Color>
  {
    if category == "VFR" then Some(ColorVfrFade)
    else if category == "MVFR" then Some(ColorMvfrFade)
    else if category == "IFR" then Some(ColorIfrFade)
    else if category == "LIFR" then Some(ColorLifrFade)
    else None
  }

  /** Wind animation is due: enabled, flash phase, and strong wind or a qualifying gust. */
  predicate Windy(s: Settings, flashCycle: bool, st: Station)
  {
    s.windAnimation && flashCycle && (st.windSpeed > s.windBlinkThreshold || st.windGust)
  }

  /** Lightning animation is due: enabled, base phase, and lightning reported. */
  predicate LightningActive(s: Settings, flashCycle: bool, st: Station)
  {
    s.lightningAnimation && !flashCycle && st.lightning
  }

  /**
   * The colour chosen for a station, branch by branch over the four categories.
   * Precedence for a known category: lightning, then wind (fade colour, or clear
   * for a blink), then the steady colour; any other category is clear.
   */
  function CategoryColor(s: Settings, flashCycle: bool, st: Station): (c: Color)
    ensures SteadyColor(st.flightCategory).None? ==> c == ColorClear
    ensures SteadyColor(st.flightCategory).Some? && LightningActive(s, flashCycle, st) ==>
              c == ColorLightning
    ensures SteadyColor(st.flightCategory).Some? && !LightningActive(s, flashCycle, st) && Windy(s, flashCycle, st) ==>
              c == if s.fadeInsteadOfBlink then FadeColor(st.flightCategory).value else ColorClear
    ensures SteadyColor(st.flightCategory).Some? && !LightningActive(s, flashCycle, st) && !Windy(s, flashCycle, st) ==>
              c == SteadyColor(st.flightCategory).value
  {
    var windy := Windy(s, flashCycle, st);
    var lightning := LightningActive(s, flashCycle, st);
    if st.flightCategory == "VFR" then
      if !(windy || lightning) then ColorVfr
      else if lightning then ColorLightning
      else if windy then (if s.fadeInsteadOfBlink then ColorVfrFade else ColorClear)
      else ColorClear
    else if st.flightCategory == "MVFR" then
      if !(windy || lightning) then ColorMvfr
      else if lightning then ColorLightning
      else if windy then (if s.fadeInsteadOfBlink then ColorMvfrFade else ColorClear)
      else ColorClear
    else if st.flightCategory == "IFR" then
      if !(windy || lightning) then ColorIfr
      else if lightning then ColorLightning
      else if windy then (if s.fadeInsteadOfBlink then ColorIfrFade else ColorClear)
      else ColorClear
    else if st.flightCategory == "LIFR" then
      if !(windy || lightning) then ColorLifr
      else if lightning then ColorLightning
      else if windy then (if s.fadeInsteadOfBlink then ColorLifrFade else ColorClear)
      else ColorClear
    else
      ColorClear
  }

  /** Wind and lightning animation are never due in the same tick. */
  lemma WindAndLightningExclusive(s: Settings, flashCycle: bool, st: Station)
    ensures !(Windy(s, flashCycle, st) && LightningActive(s, flashCycle, st))
  {
  }

  /** With both animations switched off, every tick shows the steady colour. */
  lemma StaticWithoutAnimation(s: Settings, flashCycle: bool, st: Station)
    requires !s.windAnimation && !s.lightningAnimation
    ensures CategoryColor(s, flashCycle, st) == SteadyColor(st.flightCategory).GetOr(ColorClear)
  {
  }

  /**
   * A strong-wind station with no lightning, under fading, alternates between its
   * fade colour on the flash phase and its steady colour on the base phase.
   */
  lemma WindFadeAlternates(s: Settings, st: Station)
    requires s.windAnimation && s.fadeInsteadOfBlink && st.windSpeed > s.windBlinkThreshold
    requires !st.lightning && SteadyColor(st.flightCategory).Some?
    ensures CategoryColor(s, true, st) == FadeColor(st.flightCategory).value
    ensures CategoryColor(s, false, st) == SteadyColor(st.flightCategory).value
  {
  }

  /**
   * A lightning station alternates between white on the base phase and, on the
   * flash phase, its wind or steady colour.
   */
  lemma LightningFlashesOnBasePhase(s: Settings, st: Station)
    requires s.lightningAnimation && st.lightning && SteadyColor(st.flightCategory).Some?
    ensures CategoryColor(s, false, st) == ColorLightning
    ensures CategoryColor(s, true, st) != ColorLightning
  {
  }
}
