/**
 * imageshow.py: a dictionary keyed by integer ranges, looked up by membership,
 * and the loop that paints every LED from it.
 */
module ImageShow {
  import opened Options
  import opened Palette

  /** Python's `range(start, stop)` with step 1, used as a dictionary key. */
  datatype Range = Range(start: int, stop: int)

  predicate InRange(key: Range, item: int)
  {
    key.start <= item < key.stop
  }

  /** A key and its value; a table lists them in insertion order. */
  datatype Entry<V> = Entry(key: Range, value: V)

  /** The outcome of a lookup: the value, or the `KeyError` raised for `item`. */
  datatype Lookup<V> = Found(value: V) | KeyError(item: int)

  /** No key among the first `k` entries contains `item`. */
  predicate MissesBefore<V>(table: seq<Entry<V>>, item: int, k: int)
    requires k <= |table|
  {
    forall j :: 0 <= j < k ==> !InRange(table[j].key, item)
  }

  /**
   * `Switch.__getitem__`: the value of the first key, in insertion order, whose
   * range contains `item`; `KeyError(item)` when no key does.
   */
  function Get<V>(table: seq<Entry<V>>, item: int): (r: Lookup<V>)
    ensures r.KeyError? <==> MissesBefore(table, item, |table|)
    ensures r.KeyError? ==> r.item == item
    ensures r.Found? ==> exists k :: 0 <= k < |table| && InRange(table[k].key, item) &&
                                     MissesBefore(table, item, k) && table[k].value == r.value
    decreases |table|
  {
    if table == [] then KeyError(item)
    else if InRange(table[0].key, item) then
      assert MissesBefore(table, item, 0);
      Found(table[0].value)
    else
      var r := Get(table[1..], item);
      assert forall j :: 0 <= j < |table| - 1 ==> table[1..][j] == table[j + 1];
      if r.Found? then
        assert exists k :: 0 <= k < |table| && InRange(table[k].key, item) &&
                           MissesBefore(table, item, k) && table[k].value == r.value by {
          var k :| 0 <= k < |table| - 1 && InRange(table[1..][k].key, item) &&
                   MissesBefore(table[1..], item, k) && table[1..][k].value == r.value;
          forall j | 0 <= j < k + 1 ensures !InRange(table[j].key, item) {
            if j > 0 { assert table[j] == table[1..][j - 1]; }
          }
          assert MissesBefore(table, item, k + 1);
        }
        r
      else
        r
  }

  /** Number of LEDs on the strip. */
  const LedCount: nat := 150

  /** The single colour of the layout (GRB). */
  const LayoutColor := Color(102, 255, 204)

  /** The layout: LEDs numbered 1 to 150 all take `LayoutColor`. */
  const Layout: seq<Entry<Color>> := [Entry(Range(1, 151), LayoutColor)]

  /** The item looked up for pixel `i`: LEDs are numbered from 1. */
  function ItemFor(i: int): int
  {
    i + 1
  }

  /** The layout covers items 1 to 150 and raises `KeyError` for every other item, such as 0 and 151. */
  lemma LayoutLookup(item: int)
    ensures Get(Layout, item) == if 1 <= item <= LedCount then Found(LayoutColor) else KeyError(item)
  {
  }

  /**
   * The fill loop: pixel `i` takes the value for item `i + 1`. A lookup that
   * fails raises `KeyError` for its item, leaving the pixels before it written
   * and the rest unchanged.
   */
  method Fill(pixels: array<Color>, table: seq<Entry<Color>>) returns (error: Option<int>)
    modifies pixels
    ensures error.None? <==> forall i :: 0 <= i < pixels.Length ==> Get(table, ItemFor(i)).Found?
    ensures error.None? ==> forall i :: 0 <= i < pixels.Length ==> pixels[i] == Get(table, ItemFor(i)).value
    ensures error.Some? ==>
              1 <= error.value <= pixels.Length && Get(table, error.value).KeyError? &&
              (forall i :: 0 <= i < error.value - 1 ==> Get(table, ItemFor(i)).Found? && pixels[i] == Get(table, ItemFor(i)).value) &&
              (forall i :: error.value - 1 <= i < pixels.Length ==> pixels[i] == old(pixels[i]))
  {
    for i := 0 to pixels.Length
      invariant forall j :: 0 <= j < i ==> Get(table, ItemFor(j)).Found? && pixels[j] == Get(table, ItemFor(j)).value
      invariant forall j :: i <= j < pixels.Length ==> pixels[j] == old(pixels[j])
    {
      var r := Get(table, ItemFor(i));  // the entry for LED number i + 1
      if r.KeyError? {
        return Some(r.item);
      }
      pixels[i] := r.value;
    }
    return None;
  }

  /** The script: a dark strip of `LedCount` pixels filled from the layout, every pixel taking its colour. */
  method Show() returns (pixels: array<Color>)
    ensures fresh(pixels)
    ensures pixels.Length == LedCount
    ensures forall i :: 0 <= i < pixels.Length ==> pixels[i] == LayoutColor
  {
    pixels := new Color[LedCount](_ => ColorClear);
    forall i | 0 <= i < LedCount ensures Get(Layout, ItemFor(i)).Found? {
      LayoutLookup(i + 1);
    }
    var error := Fill(pixels, Layout);
    assert error.None?;
    forall i | 0 <= i < LedCount ensures pixels[i] == LayoutColor {
      LayoutLookup(i + 1);
    }
  }
}
