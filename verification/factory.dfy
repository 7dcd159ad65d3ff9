/** The `Factory` capability: produce the values of a sub-range of indices, in
    ascending order, or in descending order when asked to fetch in reverse.
    Asynchronous factories are modelled by the values their futures resolve to. */
module Factories {
  import opened Ranges

  /** `for idx in range { values.push(f(idx)) }` */
  function Ascending<V>(f: nat -> V, lo: nat, hi: nat): (out: seq<V>)
    ensures out == Span(f, IndexRange(lo, hi))
    decreases hi - lo
  {
    if lo >= hi then [] else [f(lo)] + Ascending(f, lo + 1, hi)
  }

  /** `for idx in range.rev() { values.push(f(idx)) }` */
  function Descending<V>(f: nat -> V, lo: nat, hi: nat): (out: seq<V>)
    ensures out == Reverse(Span(f, IndexRange(lo, hi)))
    decreases hi - lo
  {
    if lo >= hi then []
    else
      var rest := Descending(f, lo, hi - 1);
      assert Span(f, IndexRange(lo, hi)) == Span(f, IndexRange(lo, hi - 1)) + [f(hi - 1)];
      [f(hi - 1)] + rest
  }

  /** The two adapters of the `Factory` trait. */
  datatype Factory<V> =
    | FromFn(f: nat -> V)                              // per-index function
    | FromRangeFn(g: (IndexRange, bool) -> seq<V>)     // per-range function, given `is_rev`

  /** `Factory::make(range, is_rev)`. */
  function Make<V>(fac: Factory<V>, r: IndexRange, isRev: bool): seq<V> {
    match fac
    case FromFn(f) => if isRev then Descending(f, r.start, r.end) else Ascending(f, r.start, r.end)
    case FromRangeFn(g) => g(r, isRev)
  }

  /** What the trait asks of every factory for the item function `f`: ascending
      order, or descending order when `isRev`. */
  function Expected<V>(f: nat -> V, r: IndexRange, isRev: bool): seq<V> {
    if isRev then Reverse(Span(f, r)) else Span(f, r)
  }

  /** `fac` keeps the ordering contract for items `f`. */
  ghost predicate Honors<V>(fac: Factory<V>, f: nat -> V) {
    forall r: IndexRange, isRev: bool :: Make(fac, r, isRev) == Expected(f, r, isRev)
  }

  /** `fac` returns one value per index of the requested range (order aside). */
  ghost predicate Sized<V>(fac: Factory<V>) {
    forall r: IndexRange, isRev: bool :: |Make(fac, r, isRev)| == r.Len()
  }

  /** `FromFn::make`: one call of `f` per index, ascending unless reversed. */
  lemma FromFnOrder<V>(f: nat -> V, r: IndexRange, isRev: bool)
    ensures |Make(FromFn(f), r, isRev)| == r.Len()
    ensures !isRev ==> forall i :: 0 <= i < r.Len() ==> Make(FromFn(f), r, isRev)[i] == f(r.start + i)
    ensures isRev ==> forall i :: 0 <= i < r.Len() ==> Make(FromFn(f), r, isRev)[i] == f(r.end - 1 - i)
  {
  }

  /** For a per-index factory the reversed fetch is exactly the forward fetch reversed. */
  lemma FromFnReverseOfForward<V>(f: nat -> V, r: IndexRange)
    ensures Make(FromFn(f), r, true) == Reverse(Make(FromFn(f), r, false))
  {
  }

  /** A per-index factory keeps the ordering contract for its own function. */
  lemma FromFnHonors<V>(f: nat -> V)
    ensures Honors(FromFn(f), f)
  {
  }

  /** `FromRangeFn::make` hands range and flag to the function and returns its output untouched. */
  lemma FromRangeFnPassThrough<V>(g: (IndexRange, bool) -> seq<V>, r: IndexRange, isRev: bool)
    ensures Make(FromRangeFn(g), r, isRev) == g(r, isRev)
  {
  }

  lemma HonorsIsSized<V>(fac: Factory<V>, f: nat -> V)
    requires Honors(fac, f)
    ensures Sized(fac)
  {
    forall r: IndexRange, isRev: bool
      ensures |Make(fac, r, isRev)| == r.Len()
    {
      assert Make(fac, r, isRev) == Expected(f, r, isRev);
    }
  }
}
