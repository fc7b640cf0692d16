/** The display mode flipped by the push button of map.py. */
module Mode {

  const MetarMode: string := "metar"
  const TempMode: string := "temp"

  predicate ValidMode(mode: string)
  {
    mode == MetarMode || mode == TempMode
  }

  /**
   * The mode after one press: metar and temp swap; any other stored value
   * (an unreadable configuration) is reset to metar.
   */
  function Toggle(mode: string): (next: string)
    ensures ValidMode(next)
    ensures next == TempMode <==> mode == MetarMode
    ensures !ValidMode(mode) ==> next == MetarMode
  {
    if mode == MetarMode then TempMode
    else if mode == TempMode then MetarMode
    else MetarMode
  }

  /** Two presses from a valid mode come back to it. */
  lemma ToggleTwice(mode: string)
    requires ValidMode(mode)
    ensures Toggle(Toggle(mode)) == mode
  {
  }

  /** A press always changes a valid mode. */
  lemma ToggleChangesMode(mode: string)
    requires ValidMode(mode)
    ensures Toggle(mode) != mode
  {
  }
}
