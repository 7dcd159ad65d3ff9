/** Half-open index ranges `start..end` over `usize` (modelled as `nat`), and the
    values a per-index function takes over such a range. */
module Ranges {

  /** A `Range<usize>`. As in Rust, `end < start` is representable and iterates
      over nothing. */
  datatype IndexRange = IndexRange(start: nat, end: nat) {

    /** Number of indices the range iterates over. */
    function Len(): nat {
      if start <= end then end - start else 0
    }

    predicate WellFormed() {
      start <= end
    }
  }

  function Min(a: nat, b: nat): nat {
    if a <= b then a else b
  }

  /** The values of `f` at `r.start, r.start + 1, ..., r.end - 1`, in that order:
      the reference definition every ordering property is stated against. */
  function Span<V>(f: nat -> V, r: IndexRange): seq<V> {
    seq(r.Len(), i requires 0 <= i < r.Len() => f(r.start + i))
  }

  function Reverse<T>(s: seq<T>): seq<T> {
    seq(|s|, i requires 0 <= i < |s| => s[|s| - 1 - i])
  }

  lemma ReverseInvolution<T>(s: seq<T>)
    ensures Reverse(Reverse(s)) == s
  {
  }

  /** Reversing a sequence whose head is `x` puts `x` last. */
  lemma ReverseCons<T>(x: T, s: seq<T>)
    ensures Reverse([x] + s) == Reverse(s) + [x]
  {
    var a, b := Reverse([x] + s), Reverse(s) + [x];
    assert |a| == |b|;
    forall i | 0 <= i < |a|
      ensures a[i] == b[i]
    {
      if i < |s| {
        assert a[i] == ([x] + s)[|s| - i];
      }
    }
  }

  /** Adjacent spans concatenate. */
  lemma SpanConcat<V>(f: nat -> V, a: nat, b: nat, c: nat)
    requires a <= b <= c
    ensures Span(f, IndexRange(a, b)) + Span(f, IndexRange(b, c)) == Span(f, IndexRange(a, c))
  {
    var lhs, rhs := Span(f, IndexRange(a, b)) + Span(f, IndexRange(b, c)), Span(f, IndexRange(a, c));
    assert |lhs| == |rhs|;
    forall i | 0 <= i < |lhs|
      ensures lhs[i] == rhs[i]
    {
      if i < b - a {
        assert lhs[i] == f(a + i);
      } else {
        assert lhs[i] == Span(f, IndexRange(b, c))[i - (b - a)];
      }
    }
  }

  /** Dropping `k` values from the front of a span leaves the span that starts `k` later. */
  lemma SpanDrop<V>(f: nat -> V, r: IndexRange, k: nat)
    requires r.WellFormed() && k <= r.Len()
    ensures Span(f, r)[k..] == Span(f, IndexRange(r.start + k, r.end))
  {
  }

  /** Keeping the first `k` values of a span gives the span that ends at `r.start + k`. */
  lemma SpanTake<V>(f: nat -> V, r: IndexRange, k: nat)
    requires r.WellFormed() && k <= r.Len()
    ensures Span(f, r)[..k] == Span(f, IndexRange(r.start, r.start + k))
  {
  }
}
