/** The bounded FIFO queue in front of the workers. */
module Queue {
  import opened Counting

  /** What a buffered channel of the given capacity does with a non-blocking send. */
  function Offer<T>(items: seq<T>, capacity: nat, closed: bool, item: T): (seq<T>, bool) {
    if closed || |items| >= capacity then (items, false) else (items + [item], true)
  }

  /** An item is taken, at the end, exactly while the queue is open and below its capacity. */
  lemma AcceptsIff<T>(items: seq<T>, capacity: nat, closed: bool, item: T)
    ensures var (items', ok) := Offer(items, capacity, closed, item);
            && (ok <==> !closed && |items| < capacity)
            && items' == if ok then items + [item] else items
  {
  }

  class FIFOQueue<T> {
    const capacity: nat
    var items: seq<T>
    var closed: bool

    ghost predicate Valid()
      reads this
    {
      |items| <= capacity
    }

    constructor (capacity: nat)
      ensures Valid() && this.capacity == capacity && items == [] && !closed
    {
      this.capacity := capacity;
      items := [];
      closed := false;
    }

    method Enqueue(item: T) returns (accepted: bool)
      requires Valid()
      modifies this
      ensures Valid() && closed == old(closed)
      ensures (items, accepted) == Offer(old(items), capacity, old(closed), item)
      ensures accepted <==> !old(closed) && |old(items)| < capacity
      ensures items == if accepted then old(items) + [item] else old(items)
    {
      if closed {
        return false;
      }
      if |items| < capacity {
        items := items + [item];
        return true;
      }
      return false;
    }

    /** Takes the oldest item, also from a closed queue; never waits. */
    method Dequeue() returns (r: Option<T>)
      requires Valid()
      modifies this
      ensures Valid() && closed == old(closed)
      ensures old(items) == [] ==> r == None && items == []
      ensures old(items) != [] ==> r.Some? && [r.value] + items == old(items)
    {
      if items == [] {
        return None;
      }
      r := Some(items[0]);
      items := items[1..];
    }

    method Size() returns (n: nat)
      requires Valid()
      ensures n == |items| <= capacity
    {
      return |items|;
    }

    /** Later sends are refused; what is queued stays readable. */
    method Close()
      requires Valid()
      modifies this
      ensures Valid() && closed && items == old(items)
    {
      if !closed {
        closed := true;
      }
    }

    /** Empties an open queue; does nothing to a closed one. */
    method Clear()
      requires Valid()
      modifies this
      ensures Valid() && closed == old(closed)
      ensures items == if old(closed) then old(items) else []
    {
      if closed {
        return;
      }
      while items != []
        invariant Valid() && closed == old(closed)
        decreases |items|
      {
        items := items[1..];
      }
    }
  }
}
