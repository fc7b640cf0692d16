/**
 * LED colours. A colour is a triple of channel intensities in the strip's
 * native GRB order (first = green, second = red, third = blue); the core never
 * interprets it.
 */
module Palette {

  datatype Color = Color(g: int, r: int, b: int)

  // Flight-category colours and their dimmed "fade" variants for wind.
  const ColorVfr := Color(255, 0, 0)
  const ColorVfrFade := Color(125, 0, 0)
  const ColorMvfr := Color(0, 0, 255)
  const ColorMvfrFade := Color(0, 0, 125)
  const ColorIfr := Color(0, 255, 0)
  const ColorIfrFade := Color(0, 125, 0)
  const ColorLifr := Color(0, 125, 125)
  const ColorLifrFade := Color(0, 75, 75)
  const ColorClear := Color(0, 0, 0)
  const ColorLightning := Color(255, 255, 255)

  // Temperature colours, one per Fahrenheit decade, and the heat flash.
  const ColorNeg := Color(0, 255, 255)
  const Color0 := Color(0, 204, 255)
  const Color10 := Color(0, 153, 255)
  const Color20 := Color(0, 102, 255)
  const Color30 := Color(0, 0, 255)
  const Color40 := Color(102, 0, 255)
  const Color50 := Color(255, 0, 255)
  const Color60 := Color(255, 0, 0)
  const Color70 := Color(255, 255, 0)
  const Color80 := Color(153, 255, 0)
  const Color90 := Color(51, 255, 0)
  const Color100 := Color(0, 255, 0)
  const ColorHot := Color(255, 255, 255)
}
