/** Substring search, as Python's `str.find` does it. */
module Text {

  /** `pattern` occurs in `s` starting at index `i`. */
  predicate OccursAt(s: string, pattern: string, i: nat)
  {
    i + |pattern| <= |s| && s[i..i + |pattern|] == pattern
  }

  /** `pattern` occurs somewhere in `s`. */
  predicate Contains(s: string, pattern: string)
  {
    exists i: nat | i <= |s| :: OccursAt(s, pattern, i)
  }

  /** Occurrences in `s[1..]` are the occurrences in `s` shifted by one. */
  lemma OccursAtTail(s: string, pattern: string, i: nat)
    requires |s| > 0
    ensures OccursAt(s[1..], pattern, i) <==> OccursAt(s, pattern, i + 1)
  {
  }

  /**
   * The lowest index at which `pattern` occurs in `s`, or -1 when it does not
   * occur at all.
   */
  function Find(s: string, pattern: string): (r: int)
    ensures r >= -1
    ensures r == -1 <==> !Contains(s, pattern)
    ensures r >= 0 ==> OccursAt(s, pattern, r)
    ensures r >= 0 ==> forall j: nat :: j < r ==> !OccursAt(s, pattern, j)
    decreases |s|
  {
    if |s| < |pattern| then
      assert forall i: nat :: !OccursAt(s, pattern, i);
      -1
    else if s[..|pattern|] == pattern then
      assert OccursAt(s, pattern, 0);
      0
    else
      var k := Find(s[1..], pattern);
      assert forall i: nat :: OccursAt(s[1..], pattern, i) <==> OccursAt(s, pattern, i + 1) by {
        forall i: nat ensures OccursAt(s[1..], pattern, i) <==> OccursAt(s, pattern, i + 1) {
          OccursAtTail(s, pattern, i);
        }
      }
      assert !OccursAt(s, pattern, 0);
      if k == -1 then
        assert forall i: nat :: !OccursAt(s, pattern, i) by {
          forall i: nat ensures !OccursAt(s, pattern, i) {
            if i > 0 { assert !OccursAt(s[1..], pattern, i - 1); }
          }
        }
        -1
      else
        assert forall j: nat :: j < k + 1 ==> !OccursAt(s, pattern, j) by {
          forall j: nat | j < k + 1 ensures !OccursAt(s, pattern, j) {
            if j > 0 { assert !OccursAt(s[1..], pattern, j - 1); }
          }
        }
        assert OccursAt(s, pattern, k + 1) && k + 1 <= |s|;
        k + 1
  }
}
