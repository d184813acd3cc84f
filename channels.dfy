/** A buffered Go channel (`make(chan T, capacity)`) with its non-blocking send, receive and close. */
module Channels {

  class Channel<T> {
    const capacity: nat
    var buffer: seq<T>   // the values sent and not yet received, oldest first
    var closed: bool

    ghost predicate Valid()
      reads this
    {
      |buffer| <= capacity
    }

    constructor (capacity: nat)
      ensures Valid()
      ensures this.capacity == capacity && buffer == [] && !closed
    {
      this.capacity := capacity;
      buffer := [];
      closed := false;
    }

    /** A send that finds room in the buffer; a send on a closed channel panics, so it is excluded. */
    method Send(x: T)
      requires Valid() && !closed && |buffer| < capacity
      modifies this
      ensures Valid()
      ensures buffer == old(buffer) + [x] && closed == old(closed)
    {
      buffer := buffer + [x];
    }

    /** A receive that finds a buffered value: values come out in the order they went in. */
    method Receive() returns (x: T)
      requires Valid() && buffer != []
      modifies this
      ensures Valid()
      ensures x == old(buffer)[0] && buffer == old(buffer)[1..] && closed == old(closed)
    {
      x := buffer[0];
      buffer := buffer[1..];
    }

    /** `close`: values still buffered can be received afterwards; closing twice panics, so it is excluded. */
    method Close()
      requires !closed
      modifies this
      ensures closed && buffer == old(buffer)
    {
      closed := true;
    }
  }
}
