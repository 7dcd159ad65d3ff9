/** The range calculator shared by `use_scroll_range` and `use_list`, their
    builder configuration, and the `start()` / `range()` accessors of their handles.
    `f64` values are modelled as exact reals. */
module Viewport {
  import opened Ranges

  datatype Direction = Row | Column

  /** `x.floor() as usize`: a negative value saturates to 0. */
  function FloorToUsize(x: real): (n: nat)
    ensures x >= 0.0 ==> n == x.Floor
    ensures x < 0.0 ==> n == 0
  {
    if x.Floor < 0 then 0 else x.Floor
  }

  /** Number of rows the effect asks for, counting the first one: `floor(size / item_size) + 1`. */
  function TotalRows(size: real, itemSize: real): nat
    requires itemSize > 0.0
  {
    FloorToUsize(size / itemSize) + 1
  }

  /** The visible index range: from the row under the scroll offset, `TotalRows`
      rows, cut off at `len`. */
  function VisibleRange(scroll: int, size: real, itemSize: real, len: nat): (r: IndexRange)
    requires itemSize > 0.0
    ensures r.end <= len
    ensures r.WellFormed() ==> r.end - r.start <= TotalRows(size, itemSize)
    ensures r.start + TotalRows(size, itemSize) <= len ==> r.end - r.start == TotalRows(size, itemSize)
    ensures len < r.start + TotalRows(size, itemSize) ==> r.end == len
    ensures r.WellFormed() <==> r.start <= len
    ensures scroll >= 0 ==> r.start == (scroll as real / itemSize).Floor
    ensures scroll < 0 ==> r.start == 0
  {
    var top := FloorToUsize(scroll as real / itemSize);
    IndexRange(top, Min(top + TotalRows(size, itemSize), len))
  }

  /** Dividing both sides of a strict inequality by a positive real. */
  lemma CancelPositive(x: real, y: real, c: real)
    requires c > 0.0 && x * c < y * c
    ensures x < y
  {
  }

  /** When the viewport is a whole number of rows high, every row it shows any
      part of (and that exists) lies inside the computed range. */
  lemma VisibleRowsCovered(scroll: nat, rows: nat, itemSize: real, len: nat, i: nat)
    requires itemSize > 0.0
    requires i < len
    requires (i + 1) as real * itemSize > scroll as real
    requires (i as real) * itemSize < scroll as real + rows as real * itemSize
    ensures var r := VisibleRange(scroll, rows as real * itemSize, itemSize, len);
            r.start <= i < r.end
  {
    var a := scroll as real / itemSize;
    assert a * itemSize == scroll as real;
    assert (rows as real * itemSize) / itemSize == rows as real;
    CancelPositive(a, (i + 1) as real, itemSize);
    assert (a + rows as real) * itemSize == scroll as real + rows as real * itemSize;
    CancelPositive(i as real, a + rows as real, itemSize);
    assert a.Floor <= i;
    assert i < a.Floor + rows + 1;
  }

  /** When the viewport height is not a whole number of rows, the `+ 1` can fall
      short: at offset 15 a 30-high viewport over 20-high rows shows part of row 2
      (`40..60` meets `15..45`) but the range is `0..2`. */
  lemma PartialRowMissed()
    ensures VisibleRange(15, 30.0, 20.0, 10) == IndexRange(0, 2)
    ensures 2.0 * 20.0 < 15.0 + 30.0
  {
    assert (15 as real / 20.0).Floor == 0;
    assert (30.0 / 20.0).Floor == 1;
  }

  /** The builder's fields (`Inner`). */
  datatype Config = Config(direction: Direction, len: nat, size: real, itemSize: real)

  /** `builder()`: a row list of no items, 400 high, 20 per item. */
  function Defaults(): Config {
    Config(Row, 0, 400.0, 20.0)
  }

  /** The setters: each writes its own field and nothing else. */
  function WithDirection(c: Config, direction: Direction): (c': Config)
    ensures c'.direction == direction && c'.(direction := c.direction) == c
  {
    c.(direction := direction)
  }

  function WithLen(c: Config, len: nat): (c': Config)
    ensures c'.len == len && c'.(len := c.len) == c
  {
    c.(len := len)
  }

  function WithSize(c: Config, size: real): (c': Config)
    ensures c'.size == size && c'.(size := c.size) == c
  {
    c.(size := size)
  }

  function WithItemSize(c: Config, itemSize: real): (c': Config)
    ensures c'.itemSize == itemSize && c'.(itemSize := c.itemSize) == c
  {
    c.(itemSize := itemSize)
  }

  /** The signals a handle reads: scroll offset (an `i32`), size, item size, length. */
  datatype Handle = Handle(scroll: int, size: real, itemSize: real, len: nat)

  /** The handle a builder produces: scroll 0 and the configured values. */
  function Open(c: Config): (h: Handle)
    ensures h.scroll == 0
    ensures (h.len, h.size, h.itemSize) == (c.len, c.size, c.itemSize)
  {
    Handle(0, c.size, c.itemSize, c.len)
  }

  /** `start()`: the first row under the scroll offset. */
  function Start(h: Handle): (s: nat)
    requires h.itemSize > 0.0
    ensures h.scroll >= 0 ==> s == (h.scroll as real / h.itemSize).Floor
    ensures s == VisibleRange(h.scroll, h.size, h.itemSize, h.len).start
  {
    FloorToUsize(h.scroll as real / h.itemSize)
  }

  /** `range()`: computed from `start()`, and equal to the range the effect computes
      from the same signals. */
  function RangeOf(h: Handle): (r: IndexRange)
    requires h.itemSize > 0.0
    ensures r == VisibleRange(h.scroll, h.size, h.itemSize, h.len)
  {
    var start := Start(h);
    var total := FloorToUsize(h.size / h.itemSize) + 1;
    IndexRange(start, Min(start + total, h.len))
  }
}
