/** The LED strip's binding of positions to airport codes, shared by map.py and temp.py. */
module Strip {

  /** The marker for an airport-file line with no LED station. */
  const Unpopulated: string := "NULL"

  /**
   * Every populated position has an LED (the strip raises an error otherwise)
   * and a non-empty code.
   */
  predicate Fits(airports: seq<string>, ledCount: nat)
  {
    forall i :: 0 <= i < |airports| && airports[i] != Unpopulated ==> i < ledCount && airports[i] != ""
  }
}
