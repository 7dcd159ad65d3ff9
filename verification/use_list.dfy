/** `use_list`: the range effect wired to the engine's worker. The effect sends
    `(top_row, bottom_row)` and the worker runs the same front/back diff as
    `Engine.Step`; each send is applied at once, the queue being in order
    (`Engine.SendIsLast`). */
module UseList {
  import opened Ranges
  import opened Factories
  import opened Viewport
  import E = Engine

  datatype List<V> = List(handle: Handle, worker: E.State<V>)

  /** The effect: compute the visible range from the signals and let the worker apply it. */
  function Effect<V>(l: List<V>, fac: Factory<V>): (l': List<V>)
    requires l.handle.itemSize > 0.0
    ensures l'.handle == l.handle
    ensures l'.worker.last == RangeOf(l.handle)
    ensures l'.worker.last.end <= l.handle.len
  {
    l.(worker := E.Step(l.worker, E.SetRange(VisibleRange(l.handle.scroll, l.handle.size, l.handle.itemSize, l.handle.len)), fac))
  }

  /** `Builder::use_list`: scroll 0, the worker at `0..0` with an empty deque, and
      the effect run once. */
  function Mount<V>(c: Config, fac: Factory<V>): List<V>
    requires c.itemSize > 0.0
  {
    Effect(List(Open(c), E.Init()), fac)
  }

  /** The host writes a new scroll offset and the effect runs again. */
  function Scroll<V>(l: List<V>, scroll: int, fac: Factory<V>): List<V>
    requires l.handle.itemSize > 0.0
  {
    Effect(l.(handle := l.handle.(scroll := scroll)), fac)
  }

  /** After mounting, the worker holds exactly the first visible rows. */
  lemma MountAligned<V>(c: Config, fac: Factory<V>, f: nat -> V)
    requires Honors(fac, f) && c.itemSize > 0.0
    ensures Mount(c, fac).worker.last == IndexRange(0, Min(TotalRows(c.size, c.itemSize), c.len))
    ensures E.Aligned(Mount(c, fac).worker, f)
  {
    E.InitAligned(f);
    E.StepAlignedIff(E.Init(), RangeOf(Open(c)), fac, f);
  }

  /** With the builder defaults the mounted list is at `0..0` and fetched nothing. */
  lemma DefaultsMountEmpty<V>(fac: Factory<V>)
    ensures Mount(Defaults(), fac).worker == E.Init()
    ensures E.Fetches(E.Plan(E.Init<V>().last, E.SetRange(RangeOf(Open(Defaults()))))) == []
  {
    E.SameRangeNoOp(E.Init<V>(), fac);
  }

  /** `start()` and `range()` report what the last effect sent to the worker. */
  lemma RangeMatchesWorker<V>(l: List<V>, fac: Factory<V>)
    requires l.handle.itemSize > 0.0
    ensures Start(l.handle) == Effect(l, fac).worker.last.start
    ensures RangeOf(l.handle) == Effect(l, fac).worker.last
  {
  }

  /** A scroll whose first row is not past the end of the list nor past the end of
      the current window keeps the list aligned. */
  lemma ScrollWithinWindowStaysAligned<V>(l: List<V>, scroll: int, fac: Factory<V>, f: nat -> V)
    requires Honors(fac, f) && l.handle.itemSize > 0.0
    requires E.Aligned(l.worker, f) && l.worker.last.end <= l.handle.len
    requires Start(l.handle.(scroll := scroll)) <= l.worker.last.end
    requires Start(l.handle.(scroll := scroll)) <= l.handle.len
    ensures E.Aligned(Scroll(l, scroll, fac).worker, f)
    ensures Scroll(l, scroll, fac).worker.last.end <= l.handle.len
  {
    var h := l.handle.(scroll := scroll);
    E.StepAlignedIff(l.worker, RangeOf(h), fac, f);
  }

  /** A scroll jump past the window: 100 rows of the defaults, mounted at `0..21`,
      scrolled to offset 1000. The worker records `50..71` but buffers the values
      of rows `21..71`, so the first row shown at row 50's place is row 21. */
  lemma ScrollJumpMisaligns(f: nat -> nat)
    ensures var l := Scroll(Mount(WithLen(Defaults(), 100), FromFn(f)), 1000, FromFn(f));
            && l.worker.last == IndexRange(50, 71)
            && l.worker.buffer == Span(f, IndexRange(21, 71))
            && !E.Aligned(l.worker, f)
  {
    var c := WithLen(Defaults(), 100);
    FromFnHonors(f);
    assert (400.0 / 20.0).Floor == 20;
    assert (1000 as real / 20.0).Floor == 50;
    MountAligned(c, FromFn(f), f);
    var m := Mount(c, FromFn(f));
    E.ForwardJumpMisaligns(m.worker, IndexRange(50, 71), FromFn(f), f);
  }
}
