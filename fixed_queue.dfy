/**
 * `FixedCapacityQueue<T>` (core/bfs_sampler.hpp): a ring buffer over a
 * vector of `capacity` slots.  `begin` is the slot of the oldest element
 * and `end` the slot the next push writes; one slot always stays free, so
 * the queue holds at most capacity - 1 elements.
 */
module FixedQueue {

  class FixedCapacityQueue<T(0)> {
    const capacity: nat
    const storage: array<T>
    var begin: nat
    var end: nat

    ghost predicate Valid()
      reads this
    {
      storage.Length == capacity
      && (capacity == 0 ==> begin == 0 && end == 0)
      && (capacity > 0 ==> begin < capacity && end < capacity)
    }

    /** The queued elements, oldest first: the slots from `begin` up to `end`, wrapping around. */
    ghost function Contents(): seq<T>
      requires Valid()
      reads this, storage
    {
      Window(storage[..], begin, end)
    }

    /** One slot is always free. */
    lemma ContentsBound()
      requires Valid() && capacity > 0
      ensures |Contents()| == if begin <= end then end - begin else capacity - begin + end
      ensures |Contents()| <= capacity - 1
    {
    }

    constructor (capacity: nat)
      ensures Valid() && this.capacity == capacity && fresh(storage)
      ensures Contents() == []
    {
      this.capacity := capacity;
      storage := new T[capacity];
      begin, end := 0, 0;
    }

    /** `empty()` */
    function Empty(): (b: bool)
      requires Valid()
      reads this, storage
      ensures b <==> Contents() == []
    {
      begin == end
    }

    /** `clear()` */
    method Clear()
      requires Valid()
      modifies this
      ensures Valid() && begin == 0 && end == 0
      ensures Contents() == []
    {
      begin, end := 0, 0;
    }

    /**
     * `push(elem)`: fails (the source throws `logic_error`) when advancing
     * `end` would meet `begin`, that is when the queue already holds
     * capacity - 1 elements; otherwise the element joins the back.
     */
    method Push(x: T) returns (ok: bool)
      requires Valid() && capacity > 0
      modifies this, storage
      ensures Valid() && begin == old(begin)
      ensures ok <==> |old(Contents())| < capacity - 1
      ensures ok ==> Contents() == old(Contents()) + [x] && end == (old(end) + 1) % capacity
      ensures !ok ==> end == old(end) && storage[..] == old(storage[..])
      ensures !ok ==> Contents() == old(Contents())
    {
      NextSlot(end, capacity);
      ContentsBound();
      var newEnd := (end + 1) % capacity;
      if newEnd == begin {
        return false;
      }
      WindowPush(storage[..], begin, end, x);
      storage[end] := x;
      end := newEnd;
      ok := true;
    }

    /** `pop()`: takes the oldest element from a non-empty queue. */
    method Pop() returns (x: T)
      requires Valid() && !Empty()
      modifies this
      ensures Valid() && end == old(end) && begin == (old(begin) + 1) % capacity
      ensures x == old(Contents())[0] && Contents() == old(Contents())[1..]
    {
      NextSlot(begin, capacity);
      WindowPop(storage[..], begin, end);
      x := storage[begin];
      begin := (begin + 1) % capacity;
    }
  }

  /** The slots from b up to e of a ring buffer, wrapping around at the end. */
  ghost function Window<T>(slots: seq<T>, b: nat, e: nat): seq<T>
    requires b <= |slots| && e <= |slots|
  {
    if b <= e then slots[b..e] else slots[b..] + slots[..e]
  }

  /** Writing slot e and advancing e, unless it would meet b, appends to the window. */
  lemma WindowPush<T>(slots: seq<T>, b: nat, e: nat, x: T)
    requires b < |slots| && e < |slots|
    requires (if e + 1 == |slots| then 0 else e + 1) != b
    ensures Window(slots[e := x], b, if e + 1 == |slots| then 0 else e + 1) == Window(slots, b, e) + [x]
  {
    var slots' := slots[e := x];
    if b <= e {
      if e + 1 == |slots| {
        assert slots'[b..] == slots[b..e] + [x];
        assert slots'[..0] == [];
      } else {
        assert slots'[b..e + 1] == slots[b..e] + [x];
      }
    } else {
      assert slots'[b..] == slots[b..];
      assert slots'[..e + 1] == slots[..e] + [x];
    }
  }

  /** Advancing b past a non-empty window drops the window's first element. */
  lemma WindowPop<T>(slots: seq<T>, b: nat, e: nat)
    requires b < |slots| && e < |slots| && b != e
    ensures Window(slots, b, e) != [] && Window(slots, b, e)[0] == slots[b]
    ensures Window(slots, if b + 1 == |slots| then 0 else b + 1, e) == Window(slots, b, e)[1..]
  {
    if b > e {
      if b + 1 == |slots| {
        assert slots[b..] == [slots[b]];
        assert slots[0..e] == slots[..e];
      } else {
        assert slots[b..] == [slots[b]] + slots[b + 1..];
      }
    }
  }

  /** Advancing a slot index modulo the capacity. */
  lemma NextSlot(i: nat, capacity: nat)
    requires i < capacity
    ensures (i + 1) % capacity == if i + 1 == capacity then 0 else i + 1
  {
  }

  /**
   * Elements leave in the order they came: a queue of three slots takes a
   * and b, refuses a third element, and returns a, then b.
   */
  method FirstInFirstOut<T(0)>(a: T, b: T) returns (first: T, second: T, full: bool)
    ensures first == a && second == b
    ensures full
  {
    var q := new FixedCapacityQueue<T>(3);
    var ok1 := q.Push(a);
    var ok2 := q.Push(b);
    assert q.Contents() == [a, b];
    var ok3 := q.Push(a);
    full := !ok3;
    first := q.Pop();
    second := q.Pop();
  }
}
