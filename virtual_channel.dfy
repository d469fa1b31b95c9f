/**
 * TcpVirtualChannel: one logical channel over several TCP connections.
 * Outgoing payloads become DATA packets with consecutive message ids on a
 * shared send queue; incoming messages go through the reorder buffer and
 * reach the receive callback in id order. Threads are modelled by their
 * running flags, and the receive callback by the log of its calls.
 */
module VirtualChannel {
  import opened Bytes
  import opened VcWire
  import opened Queues
  import opened Connection
  import opened Reorder
  import VcReader

  predicate Stopped(threads: seq<bool>)
  {
    forall k :: 0 <= k < |threads| ==> !threads[k]
  }

  /** What disconnect did to a connection that was live when the loop reached it. */
  twostate predicate Disconnected(c: TcpConnection)
    reads c
  {
    !c.connected && c.socketFd == NoSocket && c.sent == old(c.sent) &&
    c.closedFds == old(c.closedFds) + (if old(c.socketFd) != NoSocket then [old(c.socketFd)] else [])
  }

  /** The outcome of the delivery loop resumed at window w, after `fired` was delivered. */
  function Resume(w: Window, fired: seq<seq<byte>>): (s: Step)
    ensures s.window == Flush(w).window
  {
    var f := Flush(w);
    Step(f.window, fired + f.delivered)
  }

  lemma FlushFrom(w: Window)
    ensures Flush(w) == Resume(w, [])
  {
    assert [] + Flush(w).delivered == Flush(w).delivered;
  }

  /** One turn of the delivery loop keeps its outcome. */
  lemma FlushAdvance(w: Window, fired: seq<seq<byte>>)
    requires w.next in w.pending
    ensures (w.pending - {w.next}).Keys < w.pending.Keys
    ensures Resume(w, fired) == Resume(Window(w.next + 1, w.pending - {w.next}), fired + [w.pending[w.next]])
  {
    var rest := Flush(Window(w.next + 1, w.pending - {w.next}));
    assert fired + ([w.pending[w.next]] + rest.delivered) == (fired + [w.pending[w.next]]) + rest.delivered;
  }

  /** The loop stops when `next` is not buffered, having delivered `fired`. */
  lemma FlushDone(w: Window, fired: seq<seq<byte>>)
    requires w.next !in w.pending
    ensures Resume(w, fired) == Step(w, fired)
  {
    assert fired + [] == fired;
  }

  class TcpVirtualChannel {
    const connections: seq<TcpConnection>
    const sendQueue: BlockingQueue
    var isOpen: bool
    var lastSendMessageId: nat
    var nextMessageId: nat
    var receivedDataMap: map<nat, seq<byte>>
    /** The payloads passed to the receive callback, in order. */
    var delivered: seq<seq<byte>>
    /** Running flags of the read and write threads started by open. */
    var readThreads: seq<bool>
    var writeThreads: seq<bool>

    ghost predicate Valid()
      reads this
    {
      Ordered(Window(nextMessageId, receivedDataMap)) &&
      forall i, j :: 0 <= i < j < |connections| ==> connections[i] != connections[j]
    }

    /** One new, connected TcpConnection per descriptor, and a fresh send queue. */
    constructor (fds: seq<int>)
      ensures Valid() && !isOpen && fresh(sendQueue) && sendQueue.items == [] && !sendQueue.cancelled
      ensures |connections| == |fds| && forall i :: 0 <= i < |fds| ==>
        fresh(connections[i]) && connections[i].connected && connections[i].socketFd == fds[i] &&
        connections[i].closedFds == [] && connections[i].sent == []
      ensures lastSendMessageId == 0 && nextMessageId == 0 && receivedDataMap == map[] && delivered == []
      ensures readThreads == [] && writeThreads == []
    {
      var cs: seq<TcpConnection> := [];
      for i := 0 to |fds|
        invariant |cs| == i
        invariant forall k :: 0 <= k < i ==>
          fresh(cs[k]) && cs[k].connected && cs[k].socketFd == fds[k] && cs[k].closedFds == [] && cs[k].sent == []
        invariant forall k, l :: 0 <= k < l < i ==> cs[k] != cs[l]
      {
        var c := new TcpConnection(fds[i]);
        cs := cs + [c];
      }
      connections := cs;
      sendQueue := new BlockingQueue();
      isOpen := false;
      lastSendMessageId, nextMessageId := 0, 0;
      receivedDataMap := map[];
      delivered := [];
      readThreads, writeThreads := [], [];
    }

    /** open: one running read thread and one running write thread per connection. */
    method Open()
      modifies this
      ensures isOpen && |readThreads| == |old(readThreads)| + |connections|
      ensures |writeThreads| == |old(writeThreads)| + |connections|
      ensures readThreads[..|old(readThreads)|] == old(readThreads) && writeThreads[..|old(writeThreads)|] == old(writeThreads)
      ensures forall k :: |old(readThreads)| <= k < |readThreads| ==> readThreads[k]
      ensures forall k :: |old(writeThreads)| <= k < |writeThreads| ==> writeThreads[k]
      ensures lastSendMessageId == old(lastSendMessageId) && nextMessageId == old(nextMessageId)
      ensures receivedDataMap == old(receivedDataMap) && delivered == old(delivered)
    {
      for i := 0 to |connections|
        invariant |readThreads| == |old(readThreads)| + i && |writeThreads| == |old(writeThreads)| + i
        invariant readThreads[..|old(readThreads)|] == old(readThreads)
        invariant writeThreads[..|old(writeThreads)|] == old(writeThreads)
        invariant forall k :: |old(readThreads)| <= k < |readThreads| ==> readThreads[k]
        invariant forall k :: |old(writeThreads)| <= k < |writeThreads| ==> writeThreads[k]
        invariant lastSendMessageId == old(lastSendMessageId) && nextMessageId == old(nextMessageId)
        invariant receivedDataMap == old(receivedDataMap) && delivered == old(delivered)
      {
        readThreads := readThreads + [true];
        writeThreads := writeThreads + [true];
      }
      isOpen := true;
    }

    /**
     * send: on an open channel a non-empty payload (a null pointer is an
     * empty payload here) takes the next message id and is queued as one
     * DATA packet; otherwise nothing happens and no id is used.
     */
    method Send(data: seq<byte>)
      modifies this, sendQueue
      ensures sendQueue.cancelled == old(sendQueue.cancelled) && isOpen == old(isOpen)
      ensures readThreads == old(readThreads) && writeThreads == old(writeThreads)
      ensures nextMessageId == old(nextMessageId) && receivedDataMap == old(receivedDataMap) && delivered == old(delivered)
      ensures old(isOpen) && data != [] ==>
        sendQueue.items == old(sendQueue.items) + [DataPacket(old(lastSendMessageId), data)] &&
        lastSendMessageId == old(lastSendMessageId) + 1
      ensures !old(isOpen) || data == [] ==>
        sendQueue.items == old(sendQueue.items) && lastSendMessageId == old(lastSendMessageId)
    {
      if !isOpen {
        return;
      }
      if data != [] {
        var messageId := lastSendMessageId;
        lastSendMessageId := lastSendMessageId + 1;
        sendQueue.Enqueue(DataPacket(messageId, data));
      }
    }

    method IsOpen() returns (r: bool)
      ensures r == isOpen
    {
      r := isOpen;
    }

    /**
     * processReceivedData: the reorder buffer, proved against
     * Reorder.Receive; the window stays ordered.
     */
    method ProcessReceivedData(messageId: nat, data: seq<byte>)
      requires Valid()
      modifies this
      ensures Valid()
      ensures var s := Receive(old(Window(nextMessageId, receivedDataMap)), messageId, data);
        Window(nextMessageId, receivedDataMap) == s.window && delivered == old(delivered) + s.delivered
      ensures isOpen == old(isOpen) && lastSendMessageId == old(lastSendMessageId)
      ensures readThreads == old(readThreads) && writeThreads == old(writeThreads)
    {
      ReceiveOrdered(Window(nextMessageId, receivedDataMap), messageId, data);
      if messageId < nextMessageId {
        return;
      }
      receivedDataMap := receivedDataMap[messageId := data];
      ghost var start := Window(nextMessageId, receivedDataMap);
      ghost var fired: seq<seq<byte>> := [];
      ghost var w := start;
      FlushFrom(start);
      while nextMessageId in receivedDataMap
        invariant w == Window(nextMessageId, receivedDataMap)
        invariant Flush(start) == Resume(w, fired)
        invariant delivered == old(delivered) + fired
        invariant isOpen == old(isOpen) && lastSendMessageId == old(lastSendMessageId)
        invariant readThreads == old(readThreads) && writeThreads == old(writeThreads)
        decreases receivedDataMap.Keys
      {
        FlushAdvance(w, fired);
        var payload := receivedDataMap[nextMessageId];
        delivered := delivered + [payload];
        fired := fired + [payload];
        receivedDataMap := receivedDataMap - {nextMessageId};
        nextMessageId := nextMessageId + 1;
        w := Window(w.next + 1, w.pending - {w.next});
      }
      FlushDone(w, fired);
    }

    /** The disconnect loop of close as written: only connections still connected are disconnected. */
    method DisconnectConnectedOnly()
      requires Valid()
      modifies connections
      ensures forall j :: 0 <= j < |connections| ==>
        if old(connections[j].connected) then Disconnected(connections[j]) else unchanged(connections[j])
    {
      for i := 0 to |connections|
        invariant forall j :: 0 <= j < i ==>
          if old(connections[j].connected) then Disconnected(connections[j]) else unchanged(connections[j])
        invariant forall j :: i <= j < |connections| ==> unchanged(connections[j])
      {
        var c := connections[i];
        var live := c.IsConnected();
        if live {
          c.Disconnect();
        }
      }
    }

    /** The disconnect loop as intended: every connection is disconnected, which closes any descriptor it holds. */
    method DisconnectAll()
      requires Valid()
      modifies connections
      ensures forall j :: 0 <= j < |connections| ==> Disconnected(connections[j])
    {
      for i := 0 to |connections|
        invariant forall j :: 0 <= j < i ==> Disconnected(connections[j])
        invariant forall j :: i <= j < |connections| ==> unchanged(connections[j])
      {
        connections[i].Disconnect();
      }
    }

    /** Stops every read and write thread. */
    method StopThreads()
      modifies this
      ensures Stopped(readThreads) && Stopped(writeThreads)
      ensures |readThreads| == |old(readThreads)| && |writeThreads| == |old(writeThreads)|
      ensures isOpen == old(isOpen) && lastSendMessageId == old(lastSendMessageId) && nextMessageId == old(nextMessageId)
      ensures receivedDataMap == old(receivedDataMap) && delivered == old(delivered)
    {
      for k := 0 to |readThreads|
        invariant |readThreads| == |old(readThreads)| && forall j :: 0 <= j < k ==> !readThreads[j]
        invariant writeThreads == old(writeThreads)
        invariant isOpen == old(isOpen) && lastSendMessageId == old(lastSendMessageId) && nextMessageId == old(nextMessageId)
        invariant receivedDataMap == old(receivedDataMap) && delivered == old(delivered)
      {
        readThreads := readThreads[k := false];
      }
      for k := 0 to |writeThreads|
        invariant |writeThreads| == |old(writeThreads)| && forall j :: 0 <= j < k ==> !writeThreads[j]
        invariant Stopped(readThreads) && |readThreads| == |old(readThreads)|
        invariant isOpen == old(isOpen) && lastSendMessageId == old(lastSendMessageId) && nextMessageId == old(nextMessageId)
        invariant receivedDataMap == old(receivedDataMap) && delivered == old(delivered)
      {
        writeThreads := writeThreads[k := false];
      }
    }

    /**
     * close as written: the first call marks the channel closed, cancels
     * the send queue, disconnects the connections still connected and stops
     * the threads; later calls return at once.
     */
    method CloseAsWritten()
      requires Valid()
      modifies this, sendQueue, connections
      ensures Valid() && !isOpen
      ensures !old(isOpen) ==>
        unchanged(this) && unchanged(sendQueue) && forall j :: 0 <= j < |connections| ==> unchanged(connections[j])
      ensures old(isOpen) ==>
        sendQueue.cancelled && sendQueue.items == old(sendQueue.items) &&
        Stopped(readThreads) && Stopped(writeThreads) &&
        forall j :: 0 <= j < |connections| ==>
          if old(connections[j].connected) then Disconnected(connections[j]) else unchanged(connections[j])
    {
      if !isOpen {
        return;
      }
      isOpen := false;
      sendQueue.CancelWait();
      DisconnectConnectedOnly();
      StopThreads();
    }

    /**
     * close as intended: as CloseAsWritten, but every connection is
     * disconnected, so no descriptor stays open.
     */
    method Close()
      requires Valid()
      modifies this, sendQueue, connections
      ensures Valid() && !isOpen
      ensures !old(isOpen) ==>
        unchanged(this) && unchanged(sendQueue) && forall j :: 0 <= j < |connections| ==> unchanged(connections[j])
      ensures old(isOpen) ==>
        sendQueue.cancelled && sendQueue.items == old(sendQueue.items) &&
        Stopped(readThreads) && Stopped(writeThreads) &&
        forall j :: 0 <= j < |connections| ==> Disconnected(connections[j])
    {
      if !isOpen {
        return;
      }
      isOpen := false;
      sendQueue.CancelWait();
      DisconnectAll();
      StopThreads();
    }

    /**
     * The disconnect callback installed by open, as written: the first
     * call closes the channel like CloseAsWritten (disconnecting only the
     * connections still connected, stopping threads without joining them);
     * `notify` tells whether the upper layer's callback is then run.
     */
    method OnDisconnect(hasDisconnectCallback: bool) returns (notify: bool)
      requires Valid()
      modifies this, sendQueue, connections
      ensures Valid() && !isOpen
      ensures notify == (old(isOpen) && hasDisconnectCallback)
      ensures !old(isOpen) ==>
        unchanged(this) && unchanged(sendQueue) && forall j :: 0 <= j < |connections| ==> unchanged(connections[j])
      ensures old(isOpen) ==>
        sendQueue.cancelled && sendQueue.items == old(sendQueue.items) &&
        Stopped(readThreads) && Stopped(writeThreads) &&
        forall j :: 0 <= j < |connections| ==>
          if old(connections[j].connected) then Disconnected(connections[j]) else unchanged(connections[j])
    {
      if !isOpen {
        return false;
      }
      isOpen := false;
      notify := hasDisconnectCallback;
      sendQueue.CancelWait();
      DisconnectConnectedOnly();
      StopThreads();
    }

    /**
     * The disconnect callback as intended: as OnDisconnect, but every
     * connection is disconnected, so no descriptor stays open.
     */
    method OnDisconnectCorrected(hasDisconnectCallback: bool) returns (notify: bool)
      requires Valid()
      modifies this, sendQueue, connections
      ensures Valid() && !isOpen
      ensures notify == (old(isOpen) && hasDisconnectCallback)
      ensures !old(isOpen) ==>
        unchanged(this) && unchanged(sendQueue) && forall j :: 0 <= j < |connections| ==> unchanged(connections[j])
      ensures old(isOpen) ==>
        sendQueue.cancelled && sendQueue.items == old(sendQueue.items) &&
        Stopped(readThreads) && Stopped(writeThreads) &&
        forall j :: 0 <= j < |connections| ==> Disconnected(connections[j])
    {
      if !isOpen {
        return false;
      }
      isOpen := false;
      notify := hasDisconnectCallback;
      sendQueue.CancelWait();
      DisconnectAll();
      StopThreads();
    }
  }

  /**
   * A connection whose receive failed is no longer connected but still
   * holds its descriptor: close as written leaves that descriptor open,
   * close as intended closes it.
   */
  method FailedConnectionLeaks() returns (leftOpen: int, closed: seq<int>)
    ensures leftOpen == 5 && closed == [5]
  {
    var vc := new TcpVirtualChannel([5]);
    vc.Open();
    var c := vc.connections[0];
    var n, data := c.Receive(1500, -1, []);
    vc.CloseAsWritten();
    leftOpen := c.socketFd;

    var vc2 := new TcpVirtualChannel([5]);
    vc2.Open();
    var c2 := vc2.connections[0];
    n, data := c2.Receive(1500, -1, []);
    vc2.Close();
    closed := c2.closedFds;
  }

  /**
   * The same leak through the disconnect callback: after a failed receive
   * the callback as written leaves the descriptor open, the callback as
   * intended closes it; both report that the upper layer is notified.
   */
  method FailedConnectionLeaksOnDisconnect() returns (leftOpen: int, closed: seq<int>, notified: bool)
    ensures leftOpen == 5 && closed == [5] && notified
  {
    var vc := new TcpVirtualChannel([5]);
    vc.Open();
    var c := vc.connections[0];
    var n, data := c.Receive(1500, -1, []);
    var notify1 := vc.OnDisconnect(true);
    leftOpen := c.socketFd;

    var vc2 := new TcpVirtualChannel([5]);
    vc2.Open();
    var c2 := vc2.connections[0];
    n, data := c2.Receive(1500, -1, []);
    var notify2 := vc2.OnDisconnectCorrected(true);
    closed := c2.closedFds;
    notified := notify1 && notify2;
  }

  /** The (id, payload) pairs of consecutive sends starting at id `first`. */
  function Numbered(first: nat, payloads: seq<seq<byte>>): (msgs: seq<(nat, seq<byte>)>)
    ensures |msgs| == |payloads|
    ensures forall i :: 0 <= i < |msgs| ==> msgs[i] == (first + i, payloads[i])
    decreases |payloads|
  {
    if payloads == [] then [] else [(first, payloads[0])] + Numbered(first + 1, payloads[1..])
  }

  /** The payload of id k among consecutive sends from 0. */
  function PayloadOf(payloads: seq<seq<byte>>): nat -> seq<byte>
  {
    (k: nat) => if k < |payloads| then payloads[k] else []
  }

  function EventIds(events: seq<Event>): (ids: seq<nat>)
    ensures |ids| == |events|
    ensures forall i :: 0 <= i < |events| ==> ids[i] == events[i].messageId
  {
    if events == [] then [] else [events[0].messageId] + EventIds(events[1..])
  }

  /**
   * End to end: payloads sent on a fresh channel, read back from the byte
   * stream of their packets and passed through the reorder buffer, reach
   * the receive callback unchanged, once each and in order.
   */
  lemma SendsDeliverInOrder(payloads: seq<seq<byte>>)
    requires |payloads| < U64
    requires forall i :: 0 <= i < |payloads| ==> |payloads[i]| <= MaxDataPayloadSize
    ensures var msgs := Numbered(0, payloads);
      VcReader.Drain(VcReader.Packets(msgs)) == VcReader.Drained(VcReader.DataEvents(msgs), [], None)
    ensures var s := ReceiveAll(Window(0, map[]), EventIds(VcReader.DataEvents(Numbered(0, payloads))), PayloadOf(payloads));
      s.delivered == payloads && s.window == Window(|payloads|, map[])
  {
    var msgs := Numbered(0, payloads);
    VcReader.DrainPackets(msgs);
    ConsecutiveIds(payloads);
    DeliverConsecutive(EventIds(VcReader.DataEvents(msgs)), PayloadOf(payloads));
    RunOf(payloads, 0);
  }

  /** The data callbacks of consecutive sends from 0 carry the ids 0, 1, 2, ... */
  lemma ConsecutiveIds(payloads: seq<seq<byte>>)
    ensures var ids := EventIds(VcReader.DataEvents(Numbered(0, payloads)));
      |ids| == |payloads| && forall i :: 0 <= i < |ids| ==> ids[i] == i
  {
    DataEventIds(Numbered(0, payloads));
  }

  /** Ids arriving in order 0, 1, 2, ... are each delivered at once, leaving nothing buffered. */
  lemma DeliverConsecutive(ids: seq<nat>, payload: nat -> seq<byte>)
    requires forall i :: 0 <= i < |ids| ==> ids[i] == i
    ensures ReceiveAll(Window(0, map[]), ids, payload) == Step(Window(|ids|, map[]), Run(payload, 0, |ids|))
  {
    ReceiveAllDelivers(ids, payload);
    var s := ReceiveAll(Window(0, map[]), ids, payload);
    var arrived: set<nat> := set i | i in ids;
    assert Describes(s.window, arrived, payload);
    assert forall k: nat :: k in arrived <==> k < |ids| by {
      forall k: nat | k < |ids| ensures k in arrived { assert ids[k] == k; }
    }
    assert s.window.next !in arrived;
    assert |ids| < s.window.next ==> |ids| in arrived;
    assert |ids| !in arrived;
    assert s.window.next == |ids|;
    assert s.window.pending == map[];
  }

  lemma {:induction false} DataEventIds(msgs: seq<(nat, seq<byte>)>)
    ensures forall i :: 0 <= i < |msgs| ==> VcReader.DataEvents(msgs)[i] == DataEvent(msgs[i].0, msgs[i].1)
  {
    if msgs != [] {
      DataEventIds(msgs[1..]);
    }
  }

  lemma {:induction false} RunOf(payloads: seq<seq<byte>>, from: nat)
    requires from <= |payloads|
    ensures Run(PayloadOf(payloads), from, |payloads|) == payloads[from..]
    decreases |payloads| - from
  {
    if from < |payloads| {
      RunOf(payloads, from + 1);
      assert payloads[from..] == [payloads[from]] + payloads[from + 1..];
    }
  }
}
