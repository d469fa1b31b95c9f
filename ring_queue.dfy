/**
 * LockFreeQueue<T>: a bounded FIFO kept in a ring of capacity + 1 slots.
 * head_ is the next slot to write, tail_ the next slot to read; one slot
 * always stays free so that head_ == tail_ means "empty" and
 * (head_ + 1) % capacity_ == tail_ means "full". Only the sequential
 * behaviour is modelled (no atomics or memory orders).
 */
module RingQueue {

  /** (k + 1) mod m, for k < m, without nonlinear reasoning. */
  lemma NextSlot(k: nat, m: nat)
    requires k < m
    ensures (k + 1) % m == if k + 1 == m then 0 else k + 1
  {
    if k + 1 == m {
      assert (k + 1) % m == 0;
    }
  }

  class LockFreeQueue<T(0)> {
    /** The items in the queue, oldest first. */
    ghost var Contents: seq<T>
    /** The capacity the queue was constructed with. */
    ghost const Capacity: nat

    const buffer: array<T>
    /** capacity_: one more than the requested capacity. */
    const slots: nat
    var head: nat
    var tail: nat

    ghost predicate Valid()
      reads this, buffer
    {
      slots == Capacity + 1 && buffer.Length == slots &&
      head < slots && tail < slots &&
      Contents == if tail <= head then buffer[tail..head] else buffer[tail..] + buffer[..head]
    }

    constructor (capacity: nat)
      ensures Valid() && fresh(buffer)
      ensures Contents == [] && Capacity == capacity
    {
      buffer := new T[capacity + 1];
      slots := capacity + 1;
      Capacity := capacity;
      head, tail := 0, 0;
      Contents := [];
    }

    /** enqueue: false (and no change) when full, otherwise the item joins the back. */
    method Enqueue(item: T) returns (ok: bool)
      requires Valid()
      modifies this, buffer
      ensures Valid()
      ensures ok <==> |old(Contents)| < Capacity
      ensures ok ==> Contents == old(Contents) + [item]
      ensures !ok ==> Contents == old(Contents) && head == old(head) && tail == old(tail)
    {
      NextSlot(head, slots);
      var nextHead := (head + 1) % slots;
      if nextHead == tail {
        return false;
      }
      buffer[head] := item;
      if tail <= head {
        assert buffer[tail..head + 1] == old(buffer[tail..head]) + [item];
        if nextHead == 0 {
          assert buffer[..0] == [];
          assert buffer[tail..] == buffer[tail..head + 1];
        }
      } else {
        assert buffer[tail..] == old(buffer[tail..]);
        assert buffer[..head + 1] == old(buffer[..head]) + [item];
      }
      head := nextHead;
      Contents := Contents + [item];
      ok := true;
    }

    /**
     * dequeue: false (and `item` left as it was) when empty, otherwise the
     * oldest item is removed and returned.
     */
    method Dequeue(current: T) returns (ok: bool, item: T)
      requires Valid()
      modifies this
      ensures Valid()
      ensures ok <==> old(Contents) != []
      ensures ok ==> item == old(Contents)[0] && Contents == old(Contents)[1..]
      ensures !ok ==> item == current && Contents == old(Contents) && head == old(head) && tail == old(tail)
    {
      if tail == head {
        return false, current;
      }
      item := buffer[tail];
      NextSlot(tail, slots);
      var nextTail := (tail + 1) % slots;
      if tail < head {
        assert buffer[nextTail..head] == Contents[1..];
      } else if nextTail == 0 {
        assert buffer[tail..] == [item];
        assert Contents[1..] == buffer[..head];
      } else {
        assert buffer[nextTail..] == buffer[tail..][1..];
      }
      tail := nextTail;
      Contents := Contents[1..];
      ok := true;
    }

    /** empty: head_ == tail_. */
    method Empty() returns (r: bool)
      requires Valid()
      ensures r <==> Contents == []
    {
      r := head == tail;
    }

    /** size: the distance from tail_ to head_ around the ring. */
    method Size() returns (n: nat)
      requires Valid()
      ensures n == |Contents| && n <= Capacity
    {
      if head >= tail {
        n := head - tail;
      } else {
        n := slots - (tail - head);
      }
    }
  }
}
