/** The agent's offline buffer: a fixed ring that overwrites its oldest message when full. */
module AgentBuffer {
  type Message = seq<bv8>

  /** The last `n` elements, or all of them. */
  function LastN<T>(s: seq<T>, n: nat): seq<T> { if |s| <= n then s else s[|s| - n..] }

  /** A bounded queue: append, and forget the oldest element beyond the capacity. */
  function BoundedPush<T>(queue: seq<T>, x: T, capacity: nat): (r: seq<T>)
    ensures |queue| < capacity ==> r == queue + [x]
    ensures 0 < |queue| == capacity ==> r == queue[1..] + [x]
  { LastN(queue + [x], capacity) }

  function PushAll<T>(queue: seq<T>, xs: seq<T>, capacity: nat): seq<T>
    decreases |xs|
  {
    if xs == [] then queue else PushAll(BoundedPush(queue, xs[0], capacity), xs[1..], capacity)
  }

  /** Any number of pushes leaves the last `capacity` elements ever queued. */
  lemma {:induction false} PushAllKeepsLast<T>(queue: seq<T>, xs: seq<T>, capacity: nat)
    requires |queue| <= capacity
    ensures PushAll(queue, xs, capacity) == LastN(queue + xs, capacity)
    decreases |xs|
  {
    if xs == [] {
      assert queue + xs == queue;
    } else {
      PushAllKeepsLast(BoundedPush(queue, xs[0], capacity), xs[1..], capacity);
      assert queue + xs == (queue + [xs[0]]) + xs[1..];
      LastNOfLastN(queue + [xs[0]], xs[1..], capacity);
    }
  }

  lemma LastNOfLastN<T>(a: seq<T>, b: seq<T>, n: nat)
    ensures LastN(LastN(a, n) + b, n) == LastN(a + b, n)
  {
  }

  /** The index `i` places after `head` in a ring of `n` slots. */
  function Slot(head: int, i: int, n: int): int { if head + i < n then head + i else head + i - n }

  lemma SlotIsModulo(head: int, i: int, n: int)
    requires 0 <= head < n && 0 <= i <= n
    ensures (head + i) % n == Slot(head, i, n)
  {
  }

  /** `count` elements of a ring, oldest first, starting at index `head`. */
  ghost function Window<T>(ring: seq<T>, head: int, count: int): (w: seq<T>)
    requires 0 <= head < |ring| && 0 <= count <= |ring|
    ensures |w| == count
    ensures forall i :: 0 <= i < count ==> w[i] == ring[Slot(head, i, |ring|)]
  {
    (ring[head..] + ring[..head])[..count]
  }

  lemma WriteWithRoom<T>(ring: seq<T>, head: int, count: int, x: T)
    requires 0 <= head < |ring| && 0 <= count < |ring|
    ensures Window(ring[Slot(head, count, |ring|) := x], head, count + 1) == Window(ring, head, count) + [x]
  {
    hide Window;
  }

  lemma WriteWhenFull<T>(ring: seq<T>, head: int, x: T)
    requires 0 <= head < |ring|
    ensures Window(ring[head := x], Slot(head, 1, |ring|), |ring|) == Window(ring, head, |ring|)[1..] + [x]
  {
    hide Window;
    var after := Window(ring[head := x], Slot(head, 1, |ring|), |ring|);
    var expected := Window(ring, head, |ring|)[1..] + [x];
    forall i | 0 <= i < |ring| ensures after[i] == expected[i] {
      if i < |ring| - 1 {
        assert Slot(Slot(head, 1, |ring|), i, |ring|) == Slot(head, i + 1, |ring|) != head;
      }
    }
  }

  class RingBuffer {
    const capacity: int
    const items: array<Message>
    var head: int
    var count: int
    ghost var pushed: seq<Message>  // everything pushed since the last drain

    ghost predicate Valid()
      reads this, items
    {
      && 0 < capacity == items.Length
      && 0 <= head < capacity && 0 <= count <= capacity
      && Contents() == LastN(pushed, capacity)
    }

    ghost function Contents(): seq<Message>
      requires 0 < items.Length && 0 <= head < items.Length && 0 <= count <= items.Length
      reads this, items
    { Window(items[..], head, count) }

    constructor (capacity: int)
      requires capacity > 0
      ensures Valid() && fresh(items) && this.capacity == capacity && Contents() == [] && pushed == []
    {
      this.capacity := capacity;
      items := new Message[capacity](_ => []);
      head, count := 0, 0;
      pushed := [];
    }

    method Push(data: Message)
      requires Valid()
      modifies this, items
      ensures Valid()
      ensures pushed == old(pushed) + [data]
      ensures Contents() == BoundedPush(old(Contents()), data, capacity)
    {
      hide Window, LastN;
      ghost var ring, before := items[..], Contents();
      SlotIsModulo(head, count, capacity);
      SlotIsModulo(head, 1, capacity);
      LastNOfLastN(pushed, [data], capacity);
      var idx := (head + count) % capacity;
      if count == capacity {
        WriteWhenFull(ring, head, data);
        head := (head + 1) % capacity;
      } else {
        WriteWithRoom(ring, head, count, data);
        count := count + 1;
      }
      items[idx] := data;
      assert items[..] == ring[idx := data];
      assert Contents() == BoundedPush(before, data, capacity);
      pushed := pushed + [data];
    }

    method DrainAll() returns (result: seq<Message>)
      requires Valid()
      modifies this
      ensures Valid()
      ensures result == old(Contents()) == LastN(old(pushed), capacity)
      ensures Contents() == [] && pushed == []
    {
      result := [];
      var i := 0;
      while i < count
        invariant Valid() && Contents() == old(Contents())
        invariant 0 <= i <= count
        invariant result == Contents()[..i]
      {
        SlotIsModulo(head, i, capacity);
        var idx := (head + i) % capacity;
        result := result + [items[idx]];
        i := i + 1;
      }
      head := 0;
      count := 0;
      pushed := [];
    }
  }
}
