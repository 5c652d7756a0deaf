/** ThreadSafeQueue (src/ThreadSafeQueue.h) without its mutex: a FIFO. */
module Queues {

  class Queue<T> {
    /** The elements, front first. */
    var items: seq<T>

    constructor ()
      ensures items == []
    {
      items := [];
    }

    method Empty() returns (e: bool)
      ensures e <==> items == []
    {
      e := |items| == 0;
    }

    /** Appends at the back. */
    method Emplace(x: T)
      modifies this
      ensures items == old(items) + [x]
    {
      items := items + [x];
    }

    /** Removes and returns the front element; the queue must not be empty. */
    method Pop() returns (x: T)
      requires items != []
      modifies this
      ensures x == old(items)[0] && items == old(items)[1..]
    {
      x := items[0];
      items := items[1..];
    }
  }
}
