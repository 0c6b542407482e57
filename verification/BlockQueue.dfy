/** block_queue: a bounded queue in a circular array whose indices start at -1. Every operation is one lock section;
    a pop that finds the queue empty waits for the condition and changes nothing. */
module BlockQueue {
  import opened CStrings

  /** The slot of the `i`th element when `front` is the slot before the first. */
  function Slot(front: int, i: nat, maxSize: nat): int {
    if front + 1 + i < maxSize then front + 1 + i else front + 1 + i - maxSize
  }

  /** The `n` elements behind `front`. */
  function InQueue<T>(slots: seq<T>, front: int, n: nat): (s: seq<T>)
    requires -1 <= front < |slots| && n <= |slots|
    ensures |s| == n
  {
    seq(n, i requires 0 <= i < n => slots[Slot(front, i, |slots|)])
  }

  lemma NextSlot(k: int, maxSize: nat)
    requires -1 <= k < maxSize && maxSize > 0
    ensures (k + 1) % maxSize == if k + 1 < maxSize then k + 1 else 0
  {}

  class BlockQueue<T(0)> {
    const slots: array<T>
    const maxSize: nat
    var size: int
    var front: int
    var back: int
    ghost var pushed: seq<T>   // accepted since the last clear
    ghost var popped: seq<T>

    ghost predicate Indices()
      reads this
    {
      && slots.Length == maxSize > 0 && 0 <= size <= maxSize
      && -1 <= front < maxSize && -1 <= back < maxSize
      && (front + size == back || front + size == back + maxSize)
      && (back == -1 ==> size == 0)
    }

    ghost function Contents(): (s: seq<T>)
      requires Indices()
      reads this, slots
      ensures |s| == size
    {
      InQueue(slots[..], front, size)
    }

    /** First in, first out: what was popped, followed by what is in the queue, is what was pushed. */
    ghost predicate Valid()
      reads this, slots
    {
      Indices() && popped + Contents() == pushed
    }

    constructor (maxSize: nat)
      requires maxSize > 0
      ensures Valid() && Contents() == [] && this.maxSize == maxSize && pushed == popped == [] && fresh(slots)
    {
      this.maxSize := maxSize;
      slots := new T[maxSize];
      size, front, back := 0, -1, -1;
      pushed, popped := [], [];
    }

    /** clear. */
    method Clear()
      requires Valid()
      modifies this
      ensures Valid() && Contents() == [] && pushed == popped == []
    {
      size, front, back := 0, -1, -1;
      pushed, popped := [], [];
    }

    /** size, full and empty. */
    method Size() returns (n: int)
      requires Valid()
      ensures n == |Contents()|
    {
      n := size;
    }

    method Full() returns (full: bool)
      requires Valid()
      ensures full <==> |Contents()| == maxSize
    {
      full := size >= maxSize;
    }

    method Empty() returns (empty: bool)
      requires Valid()
      ensures empty <==> Contents() == []
    {
      empty := size == 0;
    }

    /** back. */
    method Back() returns (value: Option<T>)
      requires Valid()
      ensures value == if Contents() == [] then None else Some(Contents()[|Contents()| - 1])
    {
      if size == 0 { return None; }
      return Some(slots[back]);
    }

    /** push. */
    method Push(item: T) returns (ok: bool)
      requires Valid()
      modifies this`size, this`back, this`pushed, slots
      ensures Valid() && (ok <==> |old(Contents())| < maxSize)
      ensures Contents() == old(Contents()) + (if ok then [item] else [])
      ensures pushed == old(pushed) + (if ok then [item] else [])
    {
      if size >= maxSize { return false; }
      NextSlot(back, maxSize);
      back := (back + 1) % maxSize;
      slots[back] := item;
      size := size + 1;
      assert Slot(front, size - 1, maxSize) == back;
      assert Contents() == old(Contents()) + [item];
      pushed := pushed + [item];
      return true;
    }

    /** pop; None when it would wait. */
    method Pop() returns (item: Option<T>)
      requires Valid()
      modifies this`size, this`front, this`popped
      ensures Valid() && pushed == old(pushed)
      ensures item.None? <==> old(Contents()) == []
      ensures item.None? ==> Contents() == [] && popped == old(popped)
      ensures item.Some? ==> [item.value] + Contents() == old(Contents()) && popped == old(popped) + [item.value]
    {
      if size <= 0 { return None; }
      NextSlot(front, maxSize);
      front := (front + 1) % maxSize;
      item := Some(slots[front]);
      size := size - 1;
      assert [item.value] + Contents() == old(Contents());
      popped := popped + [item.value];
    }

    /** The indices are congruent from the -1 start on. */
    lemma BackIsCongruent()
      requires Valid()
      ensures (back - (front + size)) % maxSize == 0
    {}
  }
}
