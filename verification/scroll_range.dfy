/** `use_scroll_range`: a handle whose effect hands the visible range to an
    `onscroll` callback every time a signal changes. */
module ScrollRange {
  import opened Ranges
  import opened Viewport

  /** The range the effect passes to `onscroll` for the handle's current signals. */
  function OnScroll(h: Handle): (r: IndexRange)
    requires h.itemSize > 0.0
    ensures r.end <= h.len
    ensures r.WellFormed() ==> r.end - r.start <= FloorToUsize(h.size / h.itemSize) + 1
  {
    VisibleRange(h.scroll, h.size, h.itemSize, h.len)
  }

  /** `range()` reports the range last handed to `onscroll`. */
  lemma RangeMatchesOnScroll(h: Handle)
    requires h.itemSize > 0.0
    ensures RangeOf(h) == OnScroll(h)
    ensures Start(h) == OnScroll(h).start
  {
  }

  /** A handle built from the defaults reports `0..0` until a length is set. */
  lemma DefaultsAtScrollZero()
    ensures Defaults().direction == Row && Defaults().len == 0
    ensures Defaults().size == 400.0 && Defaults().itemSize == 20.0
    ensures OnScroll(Open(Defaults())) == IndexRange(0, 0)
  {
  }

  /** With a length set, the defaults show 21 rows from the top: 400 / 20 plus one. */
  lemma DefaultsWithLength(len: nat)
    ensures OnScroll(Open(WithLen(Defaults(), len))) == IndexRange(0, Min(21, len))
  {
    assert (400.0 / 20.0).Floor == 20;
  }
}
