/** Circular arrays that keep one slot free: their contents, and what pushing, popping and growing does to them. */
module Rings {

  /** The elements from head up to tail, around the end of the array. */
  function Ring<T>(q: seq<T>, head: nat, tail: nat): seq<T>
    requires head < |q| && tail < |q|
  {
    if head <= tail then q[head..tail] else q[head..] + q[..tail]
  }

  function Wrap(i: nat, cap: nat): nat
  {
    if i >= cap then 0 else i
  }

  lemma RingPop<T>(q: seq<T>, head: nat, tail: nat)
    requires head < |q| && tail < |q| && head != tail
    ensures Ring(q, head, tail) == [q[head]] + Ring(q, Wrap(head + 1, |q|), tail)
  {
  }

  lemma RingPushHead<T>(q: seq<T>, head: nat, tail: nat, x: T)
    requires head < |q| && tail < |q|
    requires var h := if head == 0 then |q| - 1 else head - 1; h != tail
    ensures var h := if head == 0 then |q| - 1 else head - 1;
            Ring(q[h := x], h, tail) == [x] + Ring(q, head, tail)
  {
  }

  lemma Around(head: nat, i: nat, cap: nat)
    requires head < cap && i < cap
    ensures (head + i) % cap == if head + i < cap then head + i else head + i - cap
  {
    if head + i >= cap {
      assert head + i == (head + i - cap) + cap;
      assert (head + i) / cap == 1;
    }
  }

  /** All of the array, in ring order from head. */
  function Rotated<T>(q: seq<T>, head: nat): seq<T>
    requires head <= |q|
  {
    q[head..] + q[..head]
  }

  /** The array of a queue with one free slot, regrown: the free slot ends up behind the contents. */
  lemma RingGrown<T>(q: seq<T>, head: nat, tail: nat, bigger: seq<T>)
    requires head < |q| && tail < |q| && Wrap(tail + 1, |q|) == head
    requires |bigger| == 2 * |q| && bigger[..|q|] == Rotated(q, head)
    ensures Ring(bigger, 0, |q| - 1) == Ring(q, head, tail)
  {
    assert Ring(bigger, 0, |q| - 1) == bigger[..|q|][..|q| - 1];
  }
}
