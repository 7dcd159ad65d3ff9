# dioxus-lazy windowing engine, modelled in Dafny

dioxus-lazy shows a long list through a viewport that holds a few rows. The library keeps
fetched values only for the rows in view. This project models its engine, with the
rendering and the reactive wiring removed. It has three parts:

- **Range calculator** (`Viewport`, `ScrollRange`). It maps a scroll offset, a viewport size,
  an item size and a length to a half-open range `start..end`:
  `start = floor(scroll / item_size)` and `end = min(start + floor(size / item_size) + 1, len)`.
  The `f64` arithmetic is modelled on exact reals, and the saturating `as usize` cast sends
  negative values to 0. The module also holds the builder's configuration, its defaults and
  setters, and the `start()` / `range()` accessors.
- **Factory** (`Factories`, `Lazy`). A factory produces the values of a sub-range, ascending, or
  descending when `is_rev` is set. The per-index adapter iterates `range` or `range.rev()`. The
  per-range adapter passes range and flag through untouched. The four `Lazy` sources turn into
  one of these two.
- **Worker step** (`Engine`, `Deque`, `UseList`). The worker keeps `last` (initially `0..0`) and a
  deque of values. A new range first runs the front edit: fetch in reverse and `push_front` each
  value, or `pop_front`. Then, only for a non-empty range, it runs the back edit: fetch forwards
  and `push_back`, or `pop_back`. Both edits are decided against the same `last`, which then
  becomes the new range. Refresh clears the deque and fetches `last` forwards.
  `Engine.Step` is written as a plan of at most two edits (`Plan`), applied by the deque loops.
  This lets the contracts say which factory calls a message makes (`Fetches`).

The worker is the same in `use_lazy_async`, `use_lazy` and the `(top_row, bottom_row)` loop of
`use_list`. The model has one `Engine.Step`, and `UseList` feeds it from the range effect.

The central results:

- **`Engine.StepAlignedIff`** (alignment). Start from an aligned state, where the buffer is
  exactly `f(last.start), …, f(last.end - 1)`, and use a factory that keeps the ordering
  contract for `f`. The step stays aligned **if and only if** the requested range is admissible:
  - it is well formed;
  - if it is empty, it starts at or past the old end;
  - if it is non-empty, it starts at or before the old end.
- **`Engine.ForwardJumpMisaligns`**. A forward jump past the window breaks the alignment. The
  pops saturate on the empty deque, and the back edit still fetches from the old end.
- **`Engine.EmptyInsideMisaligns`**. An empty range strictly inside the old window also breaks
  it, because the back edit is skipped.
- **`UseList.ScrollJumpMisaligns`**. This shows the forward jump in `use_list` on concrete
  numbers. With 100 rows and the defaults, scrolling from 0 to offset 1000 leaves row 21's value
  where row 50 belongs.
- **`Deque.PushFrontReversed`**. Front-pushing a reversed fetch rebuilds ascending order.

Some consequences of the code that a reader may not expect:

- **Empty list.** For an empty list the range is `start..0`, not `0..0`, once the scroll offset
  passes row 0 (`Viewport.VisibleRange`).
- **Refresh after `set`.** From `0..0`, a first `set` of a non-empty range starting past 0 is a forward
  jump. A later refresh then leaves a different buffer than that `set` did
  (`Engine.ForwardJumpMisaligns`).
- **Buffer length.** The buffer length matches the new range exactly when the range is
  admissible (`Engine.StepLengthIff`). An empty range strictly inside the old window keeps
  `last.end - start` values.
- **The `+ 1` row.** The `+ 1` covers the partly visible last row when the viewport height is a
  whole number of rows (`Viewport.VisibleRowsCovered`), and can miss it otherwise
  (`Viewport.PartialRowMissed`).
- **Factories cannot fail.** A factory's future yields its values, with no error case, so the
  model has no failure path.

## Model

| member | source | states |
|---|---|---|
| Factories.Ascending | src/factory.rs:46-48 | iterating `range` yields `f(start), …, f(end-1)` in ascending order, nothing for an empty range |
| Factories.Descending | src/factory.rs:41-44 | iterating `range.rev()` yields exactly the ascending values reversed |
| Factories.FromFnOrder | src/factory.rs:36-53 | `FromFn::make` returns one value per index; element `i` is `f(start+i)` forwards and `f(end-1-i)` reversed |
| Factories.FromFnReverseOfForward | src/factory.rs:41-49 | for a per-index function the reversed fetch is the forward fetch reversed |
| Factories.FromFnHonors | src/factory.rs:26-53 | the per-index factory keeps the `make(range, is_rev)` ordering contract for every range and flag |
| Factories.FromRangeFnPassThrough | src/factory.rs:82-84 | `FromRangeFn::make` hands range and flag to its function and returns the output unchanged |
| Factories.HonorsIsSized | src/factory.rs:9 | the model's `Honors` predicate (one value per index, in the order `is_rev` asks for) implies the output has exactly one value per index of the range; `make` itself promises no length |
| Lazy.CollectFromFn | src/lazy.rs:45-58 | the `FromFn::values` closure collects `f` over `range` ascending, or over `range.rev()` descending |
| Lazy.PerIndexSourcesHonor | src/lazy.rs:44-105 | the sync and async per-index sources both reach the engine as factories keeping the ordering contract |
| Lazy.RangeSourcesPassThrough | src/lazy.rs:75-135 | `FromRangeFn` and `FromAsyncRangeFn` reach the engine with their function's output unreordered |
| Lazy.SyncAndAsyncAgree | src/lazy.rs:44-106 | `FromAsyncFn`, via `factory::from_fn`, fetches the same values as the sync `FromFn` closure |
| Deque.PopFrontN | src/use_lazy_async.rs:32-34 | popping `n` from the front drops the first `n` values, or empties a shorter deque |
| Deque.PopBackN | src/use_lazy_async.rs:50-52 | popping `n` from the back drops the last `n` values, or empties a shorter deque |
| Deque.PushFrontEach | src/use_lazy_async.rs:26-28 | front-pushing the items in yield order puts them ahead of the buffer in reverse |
| Deque.PushBackEach | src/use_lazy_async.rs:44-46 | back-pushing the items in yield order appends them in that order |
| Deque.PushFrontReversed | src/use_lazy_async.rs:23-29 | front-pushing a reversed fetch rebuilds ascending order ahead of the buffer |
| Engine.Step | src/use_lazy_async.rs:20-69 | a range message makes `last` the requested range; refresh keeps `last` and leaves exactly `make(last, false)` |
| Engine.SameRangeNoOp | src/use_lazy_async.rs:22-56 | requesting the current range makes no factory call and changes neither `last` nor the buffer |
| Engine.BackwardGrowth | src/use_lazy_async.rs:23-29 | a smaller start fetches `start..last.start` reversed, once, and the buffer then begins with those values ascending |
| Engine.FrontShrink | src/use_lazy.rs:31-36 | a larger start pops `start - last.start` values without fetching, and empties a buffer holding fewer |
| Engine.BackGrowth | src/use_lazy.rs:42-48 | a larger end of a non-empty range fetches `last.end..end` forwards, once, and appends it in yield order |
| Engine.BackShrink | src/use_lazy.rs:49-54 | a smaller end of a non-empty range pops exactly `last.end - end` values and fetches nothing |
| Engine.EmptyRangeDrains | src/use_lazy_async.rs:30-39 | an empty range skips the back edit; at or past the old end it drains the buffer with no fetch |
| Engine.RefreshRealigns | src/use_lazy.rs:61-69 | refresh fetches `last` forwards once, keeps `last`, and leaves the buffer aligned whatever it held |
| Engine.StepLengthIff | src/use_lazy_async.rs:22-58 | with a factory returning one value per index, the buffer length matches the new range iff the range is admissible |
| Engine.StepAlignedIff | src/use_lazy.rs:22-59 | from an aligned state the step stays aligned iff the requested range is admissible |
| Engine.ForwardOverlap | src/use_lazy_async.rs:30-47 | for `last.start ≤ s ≤ last.end ≤ e` the buffer loses its first `s - last.start` values, gains `make(last.end..e)`, and equals `f` over `s..e` |
| Engine.ForwardJumpMisaligns | src/use_lazy.rs:31-48 | a non-empty range starting past the old end leaves the values of `last.end..end`, more than the range holds |
| Engine.EmptyInsideMisaligns | src/use_lazy_async.rs:39 | an empty range strictly inside the old window leaves the values of `start..last.end` buffered |
| Engine.RunAppend | src/use_lazy_async.rs:19-20 | draining two queued batches equals draining the first and then the second |
| Engine.SendIsLast | src/use_lazy_async.rs:91-97 | a sent message applies to the state all earlier messages produced |
| Engine.InitAligned | src/use_lazy.rs:16-18 | the worker starts at `0..0` with an empty buffer, aligned for every item function |
| Engine.RunStaysAligned | src/use_lazy_async.rs:18-70 | a run of refreshes and admissible ranges keeps the worker aligned |
| Viewport.FloorToUsize | src/use_scroll_range.rs:51 | `floor() as usize` is the floor for non-negative values and 0 for negative ones |
| Viewport.VisibleRange | src/use_scroll_range.rs:50-53 | `end ≤ len`; width at most `floor(size/item_size)+1`, exactly that when `len` allows, and `end == len` when `len` cuts the window; well formed iff `start ≤ len`; `start = floor(scroll/item_size)`, 0 for negative scroll |
| Viewport.VisibleRowsCovered | src/use_scroll_range.rs:52 | when the viewport is a whole number of rows high, every existing row it partly shows is inside the range |
| Viewport.PartialRowMissed | src/use_scroll_range.rs:52 | at offset 15, size 30 and item size 20 the range is `0..2` while row 2 is partly visible |
| Viewport.WithDirection | src/use_scroll_range.rs:18-21 | the `direction` setter changes that field only |
| Viewport.WithLen | src/use_scroll_range.rs:23-26 | the `len` setter changes that field only |
| Viewport.WithSize | src/use_scroll_range.rs:28-31 | the `size` setter changes that field only |
| Viewport.WithItemSize | src/use_scroll_range.rs:33-36 | the `item_size` setter changes that field only |
| Viewport.Open | src/use_scroll_range.rs:43-62 | a built handle starts at scroll 0 with the configured length, size and item size |
| Viewport.Start | src/use_scroll_range.rs:99-101 | `start()` is `floor(scroll / item_size)` and is the start of the effect's range |
| Viewport.RangeOf | src/use_scroll_range.rs:104-109 | `range()` computes the same range as the effect for the same signals |
| ScrollRange.OnScroll | src/use_scroll_range.rs:49-55 | the range passed to `onscroll` ends at or before `len` and spans at most `floor(size/item_size)+1` rows |
| ScrollRange.RangeMatchesOnScroll | src/use_scroll_range.rs:98-109 | `start()` and `range()` agree with the range handed to `onscroll` |
| ScrollRange.DefaultsAtScrollZero | src/use_scroll_range.rs:87-96 | the defaults are `Row`, length 0, size 400, item size 20, and give `0..0` at scroll 0 |
| ScrollRange.DefaultsWithLength | src/use_scroll_range.rs:87-96 | with only a length set, the defaults give `0..min(21, len)` at scroll 0 |
| UseList.Effect | src/use_list.rs:105-111 | the effect sends the range `range()` reports, which ends at or before `len`, and the worker records it |
| UseList.MountAligned | src/use_list.rs:46-111 | a mounted list holds exactly the values of `0..min(floor(size/item_size)+1, len)` |
| UseList.DefaultsMountEmpty | src/use_list.rs:146-156 | with the builder defaults the mounted list is at `0..0` and made no factory call |
| UseList.RangeMatchesWorker | src/use_list.rs:158-169 | `start()` and `range()` equal the range the effect sent to the worker |
| UseList.ScrollWithinWindowStaysAligned | src/use_list.rs:59-100 | a scroll whose first row is at most the window's end and at most `len` keeps the list aligned |
| UseList.ScrollJumpMisaligns | src/use_list.rs:63-96 | scrolling 100 default rows from 0 to offset 1000 records `50..71` but buffers rows `21..71` |

## Left out

- Floating point: `f64` division and `floor` are modelled on exact reals, so rounding, NaN and infinities are not covered.
- `as usize` saturation at the top of the `usize` range, and overflow of `top_row + total_rows`, are not modelled. The width of `usize` depends on the platform, and indices are unbounded `nat`.
- `item_size` must be positive. With `item_size == 0` the source divides by zero. Negative item sizes, which the source accepts and whose quotients the `as usize` cast saturates into some range, are not modelled.
- The scroll offset is an `i32` in the source and an unbounded `int` here.
- Reactive machinery is not modelled: signals, `use_effect`, `use_effect_signal`, the coroutine and its channel, and `async`/`await`. Each message is one atomic step over an ordered queue (`Engine.Run`). A factory's future is modelled by the values it resolves to.
- `UseList`: only scroll changes are modelled as triggers of the effect. A change of size or item size runs the same `Effect` on the updated handle.
- `lazy.rs` `FromFn` takes an `FnMut`. The model treats it as a pure function of the index, so a stateful closure is not covered.
- The rendering and DOM access in `list.rs`, the presentational `Direction` in `lib.rs`, and the example programs are not modelled.
- `Clone`, `Copy` and `PartialEq` on the handles are not modelled.
- The `Option::unwrap` panic when a builder is reused after `use_list` / `use_scroll_range` is not modelled.
- The type mismatches between `lazy.rs` and `use_lazy.rs`, which come from two API generations, are ignored. Both are modelled as the same algorithm.
