/**
 The bounded queue: what one critical section of each operation does to it.
*/
module RingBuffers {
  /** The capacity every buffer is constructed with. */
  const CAPACITY: nat := 10000

  const SIZE_RANGE: nat := 0x1_0000_0000_0000_0000

  /** A C++ `int`. */
  type Int32 = n: int | -0x8000_0000 <= n < 0x8000_0000

  datatype Operation<T> = Push(value: T) | PushData(value: T, threshold: Int32) | WaitAndPopValue

  /** An `int` threshold as the unsigned number the queue size is compared with. */
  function Bound(threshold: Int32): nat
  {
    threshold % SIZE_RANGE
  }

  /** True if the operation may go on, false if it has to wait. */
  predicate Guard<T>(op: Operation<T>, size: nat)
  {
    match op
    case Push(_) => true
    case PushData(_, threshold) => size < Bound(threshold)
    case WaitAndPopValue => size > 0
  }

  /** No buffer is large enough for a negative threshold to make anybody wait. */
  lemma GuardIs<T>(value: T, threshold: Int32, size: nat)
    requires size <= 10000
    ensures Guard(PushData(value, threshold), size) <==> threshold < 0 || size < threshold
  {
  }

  /** Appending to a full circular buffer overwrites its oldest element. */
  function Enqueue<T>(queue: seq<T>, value: T): seq<T>
  {
    (if |queue| >= CAPACITY then queue[1..] else queue) + [value]
  }

  function After<T>(op: Operation<T>, queue: seq<T>): seq<T>
    requires Guard(op, |queue|)
  {
    match op
    case Push(value) => Enqueue(queue, value)
    case PushData(value, _) => Enqueue(queue, value)
    case WaitAndPopValue => queue[1..]
  }

  /**
   The buffer itself. `Push`, `PushDataPass` and `WaitAndPopValuePass` are the
   stretches of code between taking the mutex and giving it up, be it to
   return or to wait; the interleaving of such stretches is in `Monitor`.
  */
  class RingBuffer<T> {
    var queue: seq<T>

    ghost predicate Valid()
      reads this
    {
      |queue| <= CAPACITY
    }

    constructor ()
      ensures Valid() && queue == []
    {
      queue := [];
    }

    constructor CopyOf(other: RingBuffer<T>)
      requires other.Valid()
      ensures Valid() && queue == other.queue
    {
      queue := other.queue;
    }

    method Size() returns (size: nat)
      requires Valid()
      ensures size == |queue| <= 10000
    {
      size := |queue|;
    }

    method Empty() returns (empty: bool)
      ensures empty <==> queue == []
    {
      empty := |queue| == 0;
    }

    method PushBack(value: T)
      requires Valid()
      modifies this
      ensures Valid() && queue == Enqueue(old(queue), value)
    {
      if |queue| == CAPACITY {
        queue := queue[1..];
      }
      queue := queue + [value];
    }

    method Push(value: T)
      requires Valid()
      modifies this
      ensures Valid() && queue == After(Operation.Push(value), old(queue))
      ensures queue == (if |old(queue)| == 10000 then old(queue)[1..] else old(queue)) + [value]
    {
      PushBack(value);
    }

    /**
     `waits` tells that the pass ends in the condition variable. It does so exactly
     when the queue holds at least `threshold` elements, and never for a negative one.
    */
    method PushDataPass(value: T, threshold: Int32) returns (waits: bool)
      requires Valid()
      modifies this
      ensures Valid()
      ensures waits <==> 0 <= threshold <= |old(queue)|
      ensures waits ==> queue == old(queue)
      ensures !waits ==> queue == (if |old(queue)| == 10000 then old(queue)[1..] else old(queue)) + [value]
      ensures waits <==> !Guard(PushData(value, threshold), |old(queue)|)
      ensures queue == if waits then old(queue) else After(PushData(value, threshold), old(queue))
    {
      // The comparison converts a negative threshold to a huge unsigned number.
      var limit := if threshold < 0 then SIZE_RANGE + threshold else threshold;
      waits := |queue| >= limit;
      if !waits {
        PushBack(value);
      }
    }

    method WaitAndPopValuePass() returns (waits: bool, result: seq<T>)
      requires Valid()
      modifies this
      ensures Valid()
      ensures waits <==> !Guard(Operation<T>.WaitAndPopValue, |old(queue)|)
      ensures waits ==> queue == old(queue) && result == []
      ensures waits <==> old(queue) == []
      ensures !waits ==> result + queue == old(queue) && |result| == 1
      ensures !waits ==> queue == After(Operation<T>.WaitAndPopValue, old(queue))
    {
      waits, result := |queue| == 0, [];
      if !waits {
        result := [queue[0]];
        queue := queue[1..];
      }
    }
  }
}
