/**
 * Temperature unit conversions shared by map.py and temp.py.
 * The source computes with the float constants 5/9 and 9/5; here the
 * arithmetic is exact over `real`.
 */
module Units {

  /** Degrees Fahrenheit to degrees Celsius. */
  function FtoC(f: real): (c: real)
    ensures c * (9.0 / 5.0) + 32.0 == f
  {
    (f - 32.0) * (5.0 / 9.0)
  }

  /** Degrees Celsius to degrees Fahrenheit. */
  function CtoF(c: real): (f: real)
    ensures (f - 32.0) * (5.0 / 9.0) == c
  {
    c * (9.0 / 5.0) + 32.0
  }

  /** The two conversions undo each other, in both orders. */
  lemma ConversionsAreInverse(x: real)
    ensures FtoC(CtoF(x)) == x
    ensures CtoF(FtoC(x)) == x
  {
  }

  /** Both conversions preserve strict order, so a comparison in one scale is the same in the other. */
  lemma ConversionsPreserveOrder(x: real, y: real)
    ensures x < y <==> FtoC(x) < FtoC(y)
    ensures x < y <==> CtoF(x) < CtoF(y)
  {
  }
}
