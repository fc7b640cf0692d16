/** The animation switches of map.py, kept as a value so that lemmas can range over them. */
module Settings {

  datatype Settings = Settings(
    windAnimation: bool,        // ACTIVATE_WINDCONDITION_ANIMATION
    lightningAnimation: bool,   // ACTIVATE_LIGHTNING_ANIMATION
    fadeInsteadOfBlink: bool,   // FADE_INSTEAD_OF_BLINK
    windBlinkThreshold: int,    // WIND_BLINK_THRESHOLD, knots
    alwaysBlinkForGusts: bool   // ALWAYS_BLINK_FOR_GUSTS
  )

  /** The values map.py ships with. */
  const Default := Settings(true, true, true, 30, false)
}
