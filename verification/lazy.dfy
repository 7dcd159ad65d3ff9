/** The `Lazy` sources: how each kind of item source is turned into the factory
    the engine fetches from. */
module Lazy {
  import opened Ranges
  import F = Factories

  datatype Source<V> =
    | FromFn(f: nat -> V)                                  // synchronous, per index
    | FromRangeFn(g: (IndexRange, bool) -> seq<V>)         // synchronous, per range
    | FromAsyncFn(f: nat -> V)                             // asynchronous, per index
    | FromAsyncRangeFn(g: (IndexRange, bool) -> seq<V>)    // asynchronous, per range
  {
    predicate PerIndex() {
      FromFn? || FromAsyncFn?
    }
  }

  /** The body of the closure `FromFn::values` hands to the engine: collect `f`
      over the range, walking it backwards when `isRev`. */
  method CollectFromFn<V>(f: nat -> V, r: IndexRange, isRev: bool) returns (values: seq<V>)
    ensures values == F.Expected(f, r, isRev)
  {
    values := [];
    if isRev {
      var idx := r.end;
      while idx > r.start
        invariant r.start <= r.end ==> r.start <= idx <= r.end
        invariant r.start > r.end ==> idx == r.end
        invariant |values| == r.end - idx
        invariant forall k :: 0 <= k < |values| ==> values[k] == f(r.end - 1 - k)
      {
        idx := idx - 1;
        values := values + [f(idx)];
      }
    } else {
      var idx := r.start;
      while idx < r.end
        invariant r.start <= r.end ==> idx <= r.end
        invariant r.start > r.end ==> idx == r.start
        invariant |values| == idx - r.start
        invariant forall k :: 0 <= k < |values| ==> values[k] == f(r.start + k)
      {
        values := values + [f(idx)];
        idx := idx + 1;
      }
    }
  }

  /** `Lazy::values`: the factory each source hands to the engine. The per-index
      sync source builds a per-range closure (the one `CollectFromFn` runs); the
      async sources delegate to `factory::from_fn` and `factory::from_range_fn`. */
  function Values<V>(src: Source<V>): F.Factory<V> {
    match src
    case FromFn(f) => F.FromRangeFn((r, isRev) => F.Expected(f, r, isRev))
    case FromRangeFn(g) => F.FromRangeFn(g)
    case FromAsyncFn(f) => F.FromFn(f)
    case FromAsyncRangeFn(g) => F.FromRangeFn(g)
  }

  /** Both per-index sources fetch ascending, or descending when reversed. */
  lemma PerIndexSourcesHonor<V>(src: Source<V>)
    requires src.PerIndex()
    ensures F.Honors(Values(src), src.f)
  {
    if src.FromAsyncFn? {
      F.FromFnHonors(src.f);
    }
  }

  /** Both per-range sources reach the engine with no reordering of what their function returns. */
  lemma RangeSourcesPassThrough<V>(src: Source<V>, r: IndexRange, isRev: bool)
    requires !src.PerIndex()
    ensures F.Make(Values(src), r, isRev) == src.g(r, isRev)
  {
  }

  /** The sync and async per-index sources fetch exactly the same values. */
  lemma SyncAndAsyncAgree<V>(f: nat -> V, r: IndexRange, isRev: bool)
    ensures F.Make(Values(FromFn(f)), r, isRev) == F.Make(Values(FromAsyncFn(f)), r, isRev)
  {
  }
}
