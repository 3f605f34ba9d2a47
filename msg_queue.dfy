/** A bounded FIFO message queue with the non-blocking put and get of a kernel
    message queue (k_msgq_put / k_msgq_get with K_NO_WAIT). */
module MsgQueue {
  import opened RadarTypes

  /** The contents after a non-blocking put: `x` is appended when there is room, dropped otherwise. */
  function PutResult<T>(items: seq<T>, capacity: nat, x: T): seq<T>
  {
    if |items| < capacity then items + [x] else items
  }

  /** The contents after putting every message of `xs`, in order, each one non-blocking. */
  function PutAll<T>(items: seq<T>, capacity: nat, xs: seq<T>): seq<T>
    decreases |xs|
  {
    if xs == [] then items
    else PutResult(PutAll(items, capacity, xs[..|xs| - 1]), capacity, xs[|xs| - 1])
  }

  /** A put never overfills the queue, and grows it by exactly one message iff there was room. */
  lemma PutResultBounded<T>(items: seq<T>, capacity: nat, x: T)
    requires |items| <= capacity
    ensures |PutResult(items, capacity, x)| <= capacity
    ensures |items| < capacity <==> |PutResult(items, capacity, x)| == |items| + 1
  {
  }

  /** Putting a batch fills the queue up to its capacity and no further, keeping what was already queued. */
  lemma {:induction false} PutAllLength<T>(items: seq<T>, capacity: nat, xs: seq<T>)
    requires |items| <= capacity
    ensures |PutAll(items, capacity, xs)| == if |items| + |xs| <= capacity then |items| + |xs| else capacity
    ensures items <= PutAll(items, capacity, xs)
    decreases |xs|
  {
    if xs != [] {
      PutAllLength(items, capacity, xs[..|xs| - 1]);
    }
  }

  /** Every message in the queue after a batch of puts was either already queued or part of the batch. */
  lemma {:induction false} PutAllFrom<T>(items: seq<T>, capacity: nat, xs: seq<T>, y: T)
    requires y in PutAll(items, capacity, xs)
    ensures y in items || y in xs
    decreases |xs|
  {
    if xs != [] {
      var init := xs[..|xs| - 1];
      if y in PutAll(items, capacity, init) {
        PutAllFrom(items, capacity, init, y);
        assert y in init ==> y in xs;
      }
    }
  }

  class BoundedQueue<T> {
    var items: seq<T>
    const capacity: nat

    ghost predicate Valid()
      reads this
    {
      |items| <= capacity
    }

    constructor (capacity: nat)
      ensures Valid() && items == [] && this.capacity == capacity
    {
      this.capacity := capacity;
      items := [];
    }

    /** Non-blocking put: fails (and leaves the queue unchanged) when the queue is full. */
    method Put(x: T) returns (ok: bool)
      requires Valid()
      modifies this
      ensures Valid()
      ensures ok <==> old(|items|) < capacity
      ensures items == PutResult(old(items), capacity, x)
    {
      ok := |items| < capacity;
      if ok {
        items := items + [x];
      }
    }

    /** Non-blocking get: the oldest message, if any. */
    method Get() returns (x: Option<T>)
      requires Valid()
      modifies this
      ensures Valid()
      ensures old(items) == [] ==> x == None && items == []
      ensures old(items) != [] ==> x == Some(old(items)[0]) && items == old(items)[1..]
    {
      if items == [] {
        x := None;
      } else {
        x := Some(items[0]);
        items := items[1..];
      }
    }
  }
}
