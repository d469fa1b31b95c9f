/**
 * The mutex-protected FIFOs, with their sequential semantics: a call that
 * would wait on the condition variable forever is excluded by a
 * precondition. Shared byte buffers are modelled by their contents.
 */
module Queues {
  import opened Bytes

  /**
   * BlockingQueue: a FIFO of byte buffers with a sticky cancel flag. Once
   * cancelled, dequeue returns null even when items are queued.
   */
  class BlockingQueue {
    var items: seq<seq<byte>>
    var cancelled: bool

    constructor ()
      ensures items == [] && !cancelled
    {
      items := [];
      cancelled := false;
    }

    /** enqueue: the buffer joins the back, whether or not the queue was cancelled. */
    method Enqueue(data: seq<byte>)
      modifies this
      ensures items == old(items) + [data] && cancelled == old(cancelled)
    {
      items := items + [data];
    }

    /**
     * dequeue: waits until there is an item or the queue is cancelled; a
     * cancelled queue yields None and keeps its items, otherwise the oldest
     * item is removed and returned.
     */
    method Dequeue() returns (r: Option<seq<byte>>)
      requires items != [] || cancelled
      modifies this
      ensures cancelled == old(cancelled)
      ensures old(cancelled) ==> r == None && items == old(items)
      ensures !old(cancelled) ==> r == Some(old(items)[0]) && items == old(items)[1..]
    {
      if cancelled {
        return None;
      }
      r := Some(items[0]);
      items := items[1..];
    }

    /** cancelWait: sets the flag for good; the items stay. */
    method CancelWait()
      modifies this
      ensures cancelled && items == old(items)
    {
      cancelled := true;
    }
  }

  /** TcpDataQueue: a FIFO of (socket, buffer) pairs. */
  class TcpDataQueue {
    var items: seq<(int, seq<byte>)>

    constructor ()
      ensures items == []
    {
      items := [];
    }

    /** enqueue: the pair joins the back. */
    method Enqueue(socket: int, data: seq<byte>)
      modifies this
      ensures items == old(items) + [(socket, data)]
    {
      items := items + [(socket, data)];
    }

    /** dequeue: waits for an item, then removes and returns the oldest pair. */
    method Dequeue() returns (socket: int, data: seq<byte>)
      requires items != []
      modifies this
      ensures (socket, data) == old(items)[0] && items == old(items)[1..]
    {
      socket, data := items[0].0, items[0].1;
      items := items[1..];
    }
  }

  /** TcpToUdpQueue: a FIFO of strings whose dequeue never waits. */
  class TcpToUdpQueue {
    var items: seq<string>

    constructor ()
      ensures items == []
    {
      items := [];
    }

    /** enqueue: the string joins the back. */
    method Enqueue(data: string)
      modifies this
      ensures items == old(items) + [data]
    {
      items := items + [data];
    }

    /** dequeue: "" when empty, otherwise the oldest string, which is removed. */
    method Dequeue() returns (r: string)
      modifies this
      ensures old(items) == [] ==> r == "" && items == []
      ensures old(items) != [] ==> r == old(items)[0] && items == old(items)[1..]
    {
      if items == [] {
        return "";
      }
      r := items[0];
      items := items[1..];
    }
  }
}
