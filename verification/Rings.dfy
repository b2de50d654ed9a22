/** Ring buffers as sequences: the stored elements in order, oldest first. */
module Rings {

  /** The `count` elements of the ring that starts at index `start` of buffer `buf`. */
  function Ring<T>(buf: seq<T>, start: nat, count: nat): (r: seq<T>)
    requires start < |buf| && count <= |buf|
    ensures |r| == count
    ensures forall k :: 0 <= k < count ==> r[k] == buf[Slot(start, k, |buf|)]
  {
    seq(count, k requires 0 <= k < count => buf[Slot(start, k, |buf|)])
  }

  /** `(start + offset) % capacity`, for an offset of at most one turn. */
  function Slot(start: nat, offset: nat, capacity: nat): (i: nat)
    requires start < capacity && offset <= capacity
    ensures i < capacity
  {
    if start + offset < capacity then start + offset else start + offset - capacity
  }

  lemma SlotsDiffer(start: nat, a: nat, b: nat, capacity: nat)
    requires start < capacity && a < b < capacity
    ensures Slot(start, a, capacity) != Slot(start, b, capacity)
  {
  }

  /** Writing behind the last element appends. */
  lemma Push<T>(buf: seq<T>, start: nat, count: nat, x: T)
    requires start < |buf| && count < |buf|
    ensures Ring(buf[Slot(start, count, |buf|) := x], start, count + 1) == Ring(buf, start, count) + [x]
  {
    var after := buf[Slot(start, count, |buf|) := x];
    forall k | 0 <= k < count ensures after[Slot(start, k, |buf|)] == buf[Slot(start, k, |buf|)] {
      SlotsDiffer(start, k, count, |buf|);
    }
  }

  /** Advancing the start drops the oldest element. */
  lemma Pop<T>(buf: seq<T>, start: nat, count: nat)
    requires start < |buf| && 0 < count <= |buf|
    ensures Ring(buf, Slot(start, 1, |buf|), count - 1) == Ring(buf, start, count)[1..]
  {
    forall k | 0 <= k < count - 1
      ensures Slot(Slot(start, 1, |buf|), k, |buf|) == Slot(start, k + 1, |buf|)
    {
    }
  }

  /** Writing at the start replaces the oldest element. */
  lemma ReplaceHead<T>(buf: seq<T>, start: nat, count: nat, x: T)
    requires start < |buf| && 0 < count <= |buf|
    ensures Ring(buf[start := x], start, count) == [x] + Ring(buf, start, count)[1..]
  {
    forall k | 0 < k < count ensures Slot(start, k, |buf|) != start {
    }
  }

  /** Writing over the oldest element of a full ring and advancing the start appends and drops one. */
  lemma Overwrite<T>(buf: seq<T>, start: nat, x: T)
    requires start < |buf|
    ensures Ring(buf[start := x], Slot(start, 1, |buf|), |buf|) == Ring(buf, start, |buf|)[1..] + [x]
  {
    var n := |buf|;
    forall k | 0 <= k < n - 1
      ensures Slot(Slot(start, 1, n), k, n) == Slot(start, k + 1, n) != start
    {
    }
    assert Slot(Slot(start, 1, n), n - 1, n) == start;
  }
}
