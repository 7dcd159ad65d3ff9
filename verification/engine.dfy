/** The worker of `use_lazy` / `use_lazy_async` (and the diff loop of `use_list`):
    it keeps the last applied range and a buffer of fetched values, and turns
    each message into at most two edits of the buffer. */
module Engine {
  import opened Ranges
  import opened Factories
  import opened Deque

  datatype Message = SetRange(range: IndexRange) | Refresh

  datatype State<V> = State(last: IndexRange, buffer: seq<V>)

  /** One buffer edit; the fetches name the factory call they make. */
  datatype Edit =
    | FetchFront(fetch: IndexRange)   // make(fetch, true), each value pushed to the front
    | DropFront(count: nat)           // pop_front count times, stopping at an empty deque
    | FetchBack(fetch: IndexRange)    // make(fetch, false), each value pushed to the back
    | DropBack(count: nat)            // pop_back count times, stopping at an empty deque
    | Clear

  /** The worker starts from `0..0` and an empty deque. */
  function Init<V>(): State<V> {
    State(IndexRange(0, 0), [])
  }

  /** The front edit, decided by `r.start` against `last.start`. */
  function FrontEdit(last: IndexRange, r: IndexRange): seq<Edit> {
    if r.start < last.start then [FetchFront(IndexRange(r.start, last.start))]
    else if r.start > last.start then [DropFront(r.start - last.start)]
    else []
  }

  /** The back edit, decided by `r.end` against `last.end`; skipped for an empty `r`. */
  function BackEdit(last: IndexRange, r: IndexRange): seq<Edit> {
    if r.start == r.end then []
    else if r.end > last.end then [FetchBack(IndexRange(last.end, r.end))]
    else if r.end < last.end then [DropBack(last.end - r.end)]
    else []
  }

  /** The edits one message causes, both decided against the same `last`. */
  function Plan(last: IndexRange, msg: Message): seq<Edit> {
    match msg
    case SetRange(r) => FrontEdit(last, r) + BackEdit(last, r)
    case Refresh => [Clear, FetchBack(last)]
  }

  /** The factory calls a plan makes, in order, as `(range, is_rev)`. */
  function Fetches(plan: seq<Edit>): seq<(IndexRange, bool)> {
    if |plan| == 0 then []
    else
      var head := match plan[0]
        case FetchFront(r) => [(r, true)]
        case FetchBack(r) => [(r, false)]
        case _ => [];
      head + Fetches(plan[1..])
  }

  function Apply<V>(buf: seq<V>, e: Edit, fac: Factory<V>): seq<V> {
    match e
    case FetchFront(r) => PushFrontEach(buf, Make(fac, r, true))
    case DropFront(n) => PopFrontN(buf, n)
    case FetchBack(r) => PushBackEach(buf, Make(fac, r, false))
    case DropBack(n) => PopBackN(buf, n)
    case Clear => []
  }

  function ApplyAll<V>(buf: seq<V>, plan: seq<Edit>, fac: Factory<V>): seq<V>
    decreases |plan|
  {
    if |plan| == 0 then buf else ApplyAll(Apply(buf, plan[0], fac), plan[1..], fac)
  }

  /** One turn of the worker loop. */
  function Step<V>(st: State<V>, msg: Message, fac: Factory<V>): (st': State<V>)
    ensures msg.SetRange? ==> st'.last == msg.range
    ensures msg.Refresh? ==> st'.last == st.last && st'.buffer == Make(fac, st.last, false)
  {
    var buffer := ApplyAll(st.buffer, Plan(st.last, msg), fac);
    assert msg.Refresh? ==> buffer == ApplyAll([], [FetchBack(st.last)], fac);
    State(if msg.SetRange? then msg.range else st.last, buffer)
  }

  /** The worker draining its queue in order. */
  function Run<V>(st: State<V>, msgs: seq<Message>, fac: Factory<V>): State<V>
    decreases |msgs|
  {
    if |msgs| == 0 then st else Run(Step(st, msgs[0], fac), msgs[1..], fac)
  }

  /** `set` and `refresh`: append to the channel, nothing else. */
  function Send(queue: seq<Message>, msg: Message): seq<Message> {
    queue + [msg]
  }

  /** Buffer position `i` holds the value of index `last.start + i`, for every index of `last`. */
  ghost predicate Aligned<V>(st: State<V>, f: nat -> V) {
    st.last.WellFormed() && st.buffer == Span(f, st.last)
  }

  /** The requested ranges for which an aligned worker stays aligned: well formed,
      an empty range at or past the old end, a non-empty one starting at or before it. */
  predicate Admissible(last: IndexRange, r: IndexRange) {
    && r.start <= r.end
    && (r.start == r.end ==> r.start >= last.end)
    && (r.start < r.end ==> r.start <= last.end)
  }

  // ---------------------------------------------------------------------------
  // Edit-level facts

  lemma ApplyAllConcat<V>(buf: seq<V>, a: seq<Edit>, b: seq<Edit>, fac: Factory<V>)
    ensures ApplyAll(buf, a + b, fac) == ApplyAll(ApplyAll(buf, a, fac), b, fac)
    decreases |a|
  {
    if |a| > 0 {
      assert (a + b)[0] == a[0] && (a + b)[1..] == a[1..] + b;
      ApplyAllConcat(Apply(buf, a[0], fac), a[1..], b, fac);
    } else {
      assert a + b == b;
    }
  }

  lemma FetchesConcat(a: seq<Edit>, b: seq<Edit>)
    ensures Fetches(a + b) == Fetches(a) + Fetches(b)
    decreases |a|
  {
    if |a| > 0 {
      assert (a + b)[0] == a[0] && (a + b)[1..] == a[1..] + b;
      FetchesConcat(a[1..], b);
    } else {
      assert a + b == b;
    }
  }

  lemma ApplyOne<V>(buf: seq<V>, e: Edit, fac: Factory<V>)
    ensures ApplyAll(buf, [e], fac) == Apply(buf, e, fac)
  {
  }

  /** A step on a range is its front edit followed by its back edit. */
  lemma StepSplits<V>(st: State<V>, r: IndexRange, fac: Factory<V>)
    ensures Step(st, SetRange(r), fac).buffer
         == ApplyAll(ApplyAll(st.buffer, FrontEdit(st.last, r), fac), BackEdit(st.last, r), fac)
  {
    ApplyAllConcat(st.buffer, FrontEdit(st.last, r), BackEdit(st.last, r), fac);
  }

  // ---------------------------------------------------------------------------
  // The individual branches

  /** Requesting the range already applied fetches nothing and changes nothing. */
  lemma SameRangeNoOp<V>(st: State<V>, fac: Factory<V>)
    ensures Plan(st.last, SetRange(st.last)) == []
    ensures Fetches(Plan(st.last, SetRange(st.last))) == []
    ensures Step(st, SetRange(st.last), fac) == st
  {
  }

  /** Growing backwards fetches `r.start..last.start` reversed, once, and the front
      pushes leave those values in ascending order ahead of the old buffer. */
  lemma BackwardGrowth<V>(st: State<V>, r: IndexRange, fac: Factory<V>, f: nat -> V)
    requires Honors(fac, f)
    requires r.start < st.last.start
    ensures Fetches(FrontEdit(st.last, r)) == [(IndexRange(r.start, st.last.start), true)]
    ensures ApplyAll(st.buffer, FrontEdit(st.last, r), fac)
         == Span(f, IndexRange(r.start, st.last.start)) + st.buffer
  {
    var fetch := IndexRange(r.start, st.last.start);
    assert Make(fac, fetch, true) == Reverse(Span(f, fetch));
    PushFrontReversed(st.buffer, Span(f, fetch));
  }

  /** Moving the start forward pops `r.start - last.start` values, fetches nothing,
      and empties the buffer rather than failing when it holds fewer. */
  lemma FrontShrink<V>(st: State<V>, r: IndexRange, fac: Factory<V>)
    requires r.start > st.last.start
    ensures Fetches(FrontEdit(st.last, r)) == []
    ensures r.start - st.last.start <= |st.buffer| ==>
              ApplyAll(st.buffer, FrontEdit(st.last, r), fac) == st.buffer[r.start - st.last.start..]
    ensures r.start - st.last.start > |st.buffer| ==> ApplyAll(st.buffer, FrontEdit(st.last, r), fac) == []
  {
  }

  /** Growing forwards fetches `last.end..r.end` once, in order, and appends it. */
  lemma BackGrowth<V>(st: State<V>, r: IndexRange, fac: Factory<V>)
    requires r.start != r.end && r.end > st.last.end
    ensures Fetches(BackEdit(st.last, r)) == [(IndexRange(st.last.end, r.end), false)]
    ensures forall buf: seq<V> :: ApplyAll(buf, BackEdit(st.last, r), fac)
              == buf + Make(fac, IndexRange(st.last.end, r.end), false)
  {
  }

  /** Shrinking the back of a non-empty range pops `last.end - r.end` values and fetches nothing. */
  lemma BackShrink<V>(st: State<V>, r: IndexRange, fac: Factory<V>)
    requires r.start != r.end && r.end < st.last.end
    ensures Fetches(BackEdit(st.last, r)) == []
    ensures forall buf: seq<V> :: st.last.end - r.end <= |buf| ==>
              ApplyAll(buf, BackEdit(st.last, r), fac) == buf[..|buf| - (st.last.end - r.end)]
  {
  }

  /** An empty request skips the back edit; at or past the old end it drains the
      buffer without fetching anything. */
  lemma EmptyRangeDrains<V>(st: State<V>, r: IndexRange, fac: Factory<V>)
    requires r.start == r.end
    requires st.last.WellFormed() && |st.buffer| == st.last.Len()
    ensures BackEdit(st.last, r) == []
    ensures r.start >= st.last.end ==> Fetches(Plan(st.last, SetRange(r))) == []
    ensures r.start >= st.last.end ==> Step(st, SetRange(r), fac).buffer == []
  {
    StepSplits(st, r, fac);
  }

  /** Refresh keeps `last`, fetches it forwards once, and whatever the buffer held
      before, leaves it aligned. */
  lemma RefreshRealigns<V>(st: State<V>, fac: Factory<V>, f: nat -> V)
    requires Honors(fac, f) && st.last.WellFormed()
    ensures Fetches(Plan(st.last, Refresh)) == [(st.last, false)]
    ensures Step(st, Refresh, fac).last == st.last
    ensures Aligned(Step(st, Refresh, fac), f)
  {
    assert Fetches([FetchBack(st.last)]) == [(st.last, false)];
    assert Make(fac, st.last, false) == Span(f, st.last);
  }

  // ---------------------------------------------------------------------------
  // Alignment

  /** From an aligned state, the front edit leaves the values of `min(r.start, last.end)..last.end`. */
  lemma AfterFront<V>(st: State<V>, r: IndexRange, fac: Factory<V>, f: nat -> V)
    requires Honors(fac, f) && Aligned(st, f)
    ensures ApplyAll(st.buffer, FrontEdit(st.last, r), fac)
         == Span(f, IndexRange(Min(r.start, st.last.end), st.last.end))
  {
    var last := st.last;
    if r.start < last.start {
      BackwardGrowth(st, r, fac, f);
      SpanConcat(f, r.start, last.start, last.end);
    } else if r.start > last.start {
      var n := r.start - last.start;
      if n <= |st.buffer| {
        SpanDrop(f, last, n);
      }
    }
  }

  /** Sizes only: from a state whose buffer length matches a well-formed `last`, and a
      factory that returns one value per index, the buffer length after the step
      matches the requested range exactly for the admissible ranges. */
  lemma StepLengthIff<V>(st: State<V>, r: IndexRange, fac: Factory<V>)
    requires Sized(fac)
    requires st.last.WellFormed() && |st.buffer| == st.last.Len()
    ensures (r.WellFormed() && |Step(st, SetRange(r), fac).buffer| == r.Len()) <==> Admissible(st.last, r)
  {
    var last := st.last;
    var m := Min(r.start, last.end);
    var front := ApplyAll(st.buffer, FrontEdit(last, r), fac);
    assert |front| == last.end - m by {
      if r.start < last.start {
        var fetched := Make(fac, IndexRange(r.start, last.start), true);
        assert |fetched| == last.start - r.start;
        ApplyOne(st.buffer, FetchFront(IndexRange(r.start, last.start)), fac);
      } else if r.start > last.start {
        ApplyOne(st.buffer, DropFront(r.start - last.start), fac);
      }
    }
    StepSplits(st, r, fac);
    var after := Step(st, SetRange(r), fac).buffer;
    if r.start != r.end && r.end > last.end {
      assert |Make(fac, IndexRange(last.end, r.end), false)| == r.end - last.end;
      assert |after| == r.end - m;
    }
  }

  /** From an aligned state the step keeps the buffer aligned with the new range
      exactly when the range is admissible. */
  lemma StepAlignedIff<V>(st: State<V>, r: IndexRange, fac: Factory<V>, f: nat -> V)
    requires Honors(fac, f) && Aligned(st, f)
    ensures Aligned(Step(st, SetRange(r), fac), f) <==> Admissible(st.last, r)
  {
    HonorsIsSized(fac, f);
    StepLengthIff(st, r, fac);
    if Admissible(st.last, r) {
      StepAdmissibleAligned(st, r, fac, f);
    }
  }

  lemma StepAdmissibleAligned<V>(st: State<V>, r: IndexRange, fac: Factory<V>, f: nat -> V)
    requires Honors(fac, f) && Aligned(st, f) && Admissible(st.last, r)
    ensures Step(st, SetRange(r), fac).buffer == Span(f, r)
  {
    var last := st.last;
    AfterFront(st, r, fac, f);
    StepSplits(st, r, fac);
    var m := Min(r.start, last.end);
    var front := Span(f, IndexRange(m, last.end));
    if r.start != r.end {
      assert m == r.start;
      if r.end > last.end {
        assert Make(fac, IndexRange(last.end, r.end), false) == Span(f, IndexRange(last.end, r.end));
        SpanConcat(f, r.start, last.end, r.end);
      } else if r.end < last.end {
        SpanTake(f, IndexRange(m, last.end), r.end - m);
      }
    }
  }

  /** The first half of the forward-overlap case: popping `r.start - last.start` and
      appending the values of `last.end..r.end` gives exactly the new window. */
  lemma ForwardOverlap<V>(st: State<V>, r: IndexRange, fac: Factory<V>, f: nat -> V)
    requires Honors(fac, f) && Aligned(st, f)
    requires st.last.start <= r.start <= st.last.end <= r.end
    ensures Fetches(Plan(st.last, SetRange(r))) ==
              if r.end > st.last.end then [(IndexRange(st.last.end, r.end), false)] else []
    ensures Step(st, SetRange(r), fac).buffer
         == st.buffer[r.start - st.last.start..] + Make(fac, IndexRange(st.last.end, r.end), false)
    ensures Step(st, SetRange(r), fac).buffer == Span(f, r)
  {
    var last := st.last;
    StepAdmissibleAligned(st, r, fac, f);
    FetchesConcat(FrontEdit(last, r), BackEdit(last, r));
    SpanDrop(f, last, r.start - last.start);
    SpanConcat(f, r.start, last.end, r.end);
    assert Make(fac, IndexRange(last.end, r.end), false) == Span(f, IndexRange(last.end, r.end));
  }

  /** A non-empty request starting past the old end: the pops empty the buffer and
      the back edit still fetches from the old end, so the buffer holds the values
      of `last.end..r.end` while the range says `r.start..r.end`. */
  lemma ForwardJumpMisaligns<V>(st: State<V>, r: IndexRange, fac: Factory<V>, f: nat -> V)
    requires Honors(fac, f) && Aligned(st, f)
    requires st.last.end < r.start < r.end
    ensures Step(st, SetRange(r), fac).buffer == Span(f, IndexRange(st.last.end, r.end))
    ensures |Step(st, SetRange(r), fac).buffer| > r.Len()
    ensures !Aligned(Step(st, SetRange(r), fac), f)
  {
    AfterFront(st, r, fac, f);
    StepSplits(st, r, fac);
    StepAlignedIff(st, r, fac, f);
    assert Make(fac, IndexRange(st.last.end, r.end), false) == Span(f, IndexRange(st.last.end, r.end));
  }

  /** An empty request strictly inside the old window: the front pops run, the back
      edit is skipped, and the tail of the old window stays buffered. */
  lemma EmptyInsideMisaligns<V>(st: State<V>, r: IndexRange, fac: Factory<V>, f: nat -> V)
    requires Honors(fac, f) && Aligned(st, f)
    requires r.start == r.end && st.last.start <= r.start < st.last.end
    ensures Step(st, SetRange(r), fac).buffer == Span(f, IndexRange(r.start, st.last.end))
    ensures !Aligned(Step(st, SetRange(r), fac), f)
  {
    AfterFront(st, r, fac, f);
    StepSplits(st, r, fac);
  }

  // ---------------------------------------------------------------------------
  // The message queue

  lemma {:induction false} RunAppend<V>(st: State<V>, a: seq<Message>, b: seq<Message>, fac: Factory<V>)
    ensures Run(st, a + b, fac) == Run(Run(st, a, fac), b, fac)
    decreases |a|
  {
    if |a| > 0 {
      assert (a + b)[1..] == a[1..] + b;
      RunAppend(Step(st, a[0], fac), a[1..], b, fac);
    } else {
      assert a + b == b;
    }
  }

  /** Messages take effect strictly in the order they were sent: the newest one
      applies to the state all earlier ones produced. */
  lemma SendIsLast<V>(queue: seq<Message>, msg: Message, fac: Factory<V>)
    ensures Run(Init(), Send(queue, msg), fac) == Step(Run(Init(), queue, fac), msg, fac)
  {
    RunAppend(Init(), queue, [msg], fac);
  }

  /** The initial state is aligned for any item function. */
  lemma InitAligned<V>(f: nat -> V)
    ensures Aligned(Init<V>(), f)
    ensures Init<V>().last == IndexRange(0, 0) && |Init<V>().buffer| == 0
  {
  }

  /** Alignment survives a run in which every message is a refresh or an admissible range. */
  lemma {:induction false} RunStaysAligned<V>(st: State<V>, msgs: seq<Message>, fac: Factory<V>, f: nat -> V)
    requires Honors(fac, f) && Aligned(st, f)
    requires AdmissibleRun(st, msgs, fac)
    ensures Aligned(Run(st, msgs, fac), f)
    decreases |msgs|
  {
    if |msgs| > 0 {
      var next := Step(st, msgs[0], fac);
      if msgs[0].SetRange? {
        StepAlignedIff(st, msgs[0].range, fac, f);
      } else {
        RefreshRealigns(st, fac, f);
      }
      RunStaysAligned(next, msgs[1..], fac, f);
    }
  }

  /** Every range message in the run is admissible against the state it meets. */
  predicate AdmissibleRun<V>(st: State<V>, msgs: seq<Message>, fac: Factory<V>)
    decreases |msgs|
  {
    |msgs| > 0 ==>
      && (msgs[0].SetRange? ==> Admissible(st.last, msgs[0].range))
      && AdmissibleRun(Step(st, msgs[0], fac), msgs[1..], fac)
  }
}
