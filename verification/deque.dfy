/** The `VecDeque` edits the engine performs, each written as the loop of
    single-element operations the source runs, and given a closed form. */
module Deque {
  import opened Ranges

  /** `pop_front`: nothing happens on an empty deque. */
  function PopFront<T>(buf: seq<T>): seq<T> {
    if |buf| == 0 then [] else buf[1..]
  }

  /** `pop_back`: nothing happens on an empty deque. */
  function PopBack<T>(buf: seq<T>): seq<T> {
    if |buf| == 0 then [] else buf[..|buf| - 1]
  }

  /** `for _ in 0..n { pop_front() }`: drops the first `n` values, or all of them
      when there are fewer than `n`. */
  function PopFrontN<T>(buf: seq<T>, n: nat): (r: seq<T>)
    ensures n <= |buf| ==> r == buf[n..]
    ensures n > |buf| ==> r == []
  {
    if n == 0 then buf else PopFrontN(PopFront(buf), n - 1)
  }

  /** `for _ in 0..n { pop_back() }`: drops the last `n` values, or all of them
      when there are fewer than `n`. */
  function PopBackN<T>(buf: seq<T>, n: nat): (r: seq<T>)
    ensures n <= |buf| ==> r == buf[..|buf| - n]
    ensures n > |buf| ==> r == []
  {
    if n == 0 then buf else PopBackN(PopBack(buf), n - 1)
  }

  /** `for value in items { push_front(value) }`: the items end up in front,
      in the opposite order from the one they were yielded in. */
  function PushFrontEach<T>(buf: seq<T>, items: seq<T>): (r: seq<T>)
    ensures r == Reverse(items) + buf
    decreases |items|
  {
    if |items| == 0 then buf
    else
      assert items == [items[0]] + items[1..];
      ReverseCons(items[0], items[1..]);
      PushFrontEach([items[0]] + buf, items[1..])
  }

  /** `for value in items { push_back(value) }`: the items end up at the back, in yield order. */
  function PushBackEach<T>(buf: seq<T>, items: seq<T>): (r: seq<T>)
    ensures r == buf + items
    decreases |items|
  {
    if |items| == 0 then buf
    else
      assert buf + items == (buf + [items[0]]) + items[1..];
      PushBackEach(buf + [items[0]], items[1..])
  }

  /** Front-pushing a reversed fetch, one item at a time, rebuilds ascending order
      in front of the buffer. */
  lemma PushFrontReversed<T>(buf: seq<T>, xs: seq<T>)
    ensures PushFrontEach(buf, Reverse(xs)) == xs + buf
  {
    ReverseInvolution(xs);
  }
}
