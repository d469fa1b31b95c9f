/**
 * The server's UdpDataQueue: datagrams received from local UDP sockets are
 * framed with UVT headers and handed, as (socket, bytes) pairs, to a
 * LockFreeQueue read by the TCP sender. With BUFFER_UDP_DATA defined,
 * frames are first collected per socket and emitted as one batch once
 * more than 1400 bytes would be buffered or more than 50 ms have passed
 * since the last emission; without it every datagram is emitted at once.
 */
module UdpBatching {
  import opened Bytes
  import opened Uvt
  import opened RingQueue

  /** A batch is emitted once buffered bytes plus the new datagram exceed this. */
  const BatchLimit: nat := 1400
  /** The capacity of the default-constructed LockFreeQueue. */
  const QueueCapacity: nat := 1024

  /**
   * The history of one socket: the frames, as (payload, id), buffered now,
   * those already emitted, and the datagrams handed to enqueue, in order.
   */
  datatype SocketLog = SocketLog(pending: seq<(seq<byte>, byte)>, emitted: seq<(seq<byte>, byte)>, received: seq<seq<byte>>)

  function LogOf(logs: map<int, SocketLog>, socket: int): (l: SocketLog)
    ensures socket !in logs ==> l == SocketLog([], [], [])
  {
    if socket in logs then logs[socket] else SocketLog([], [], [])
  }

  /**
   * A socket's buffer is its pending frames back to back and stays within
   * BatchLimit plus one header (and empty without BUFFER_UDP_DATA); what was
   * emitted followed by what is pending is every datagram received, in order.
   */
  ghost predicate Consistent(bufferUdpData: bool, buffer: seq<byte>, log: SocketLog)
  {
    buffer == Frames(log.pending) &&
    |buffer| <= BatchLimit + HeaderSize &&
    (!bufferUdpData ==> buffer == []) &&
    Payloads(log.emitted + log.pending) == log.received
  }

  /** A socket never seen before is consistent. */
  lemma FreshConsistent(bufferUdpData: bool)
    ensures Consistent(bufferUdpData, [], SocketLog([], [], []))
  {
    var none: seq<(seq<byte>, byte)> := [];
    assert none + none == none;
  }

  /** Buffering one more datagram keeps a socket consistent. */
  lemma BufferStep(buffer: seq<byte>, log: SocketLog, data: seq<byte>, id: byte)
    requires Consistent(true, buffer, log) && |buffer| + |data| <= BatchLimit
    ensures Consistent(true, buffer + Frame(data, id),
      SocketLog(log.pending + [(data, id)], log.emitted, log.received + [data]))
  {
    FramesAppend(log.pending, [(data, id)]);
    FramesSingle(data, id);
    PayloadsAppend(log.emitted + log.pending, [(data, id)]);
    assert log.emitted + (log.pending + [(data, id)]) == (log.emitted + log.pending) + [(data, id)];
  }

  /**
   * Emitting the buffer followed by the new datagram sends exactly the
   * pending frames and the new one, and leaves the socket consistent.
   */
  lemma EmitStep(bufferUdpData: bool, buffer: seq<byte>, log: SocketLog, data: seq<byte>, id: byte)
    requires Consistent(bufferUdpData, buffer, log)
    ensures buffer + Frame(data, id) == Frames(log.pending + [(data, id)])
    ensures Consistent(bufferUdpData, [],
      SocketLog([], log.emitted + (log.pending + [(data, id)]), log.received + [data]))
  {
    FramesAppend(log.pending, [(data, id)]);
    FramesSingle(data, id);
    PayloadsAppend(log.emitted + log.pending, [(data, id)]);
    assert (log.emitted + (log.pending + [(data, id)])) + [] == (log.emitted + log.pending) + [(data, id)];
  }

  ghost predicate AllConsistent(bufferUdpData: bool, buffers: map<int, seq<byte>>, logs: map<int, SocketLog>)
  {
    logs.Keys == buffers.Keys &&
    forall s :: s in buffers ==> Consistent(bufferUdpData, buffers[s], logs[s])
  }

  /** Replacing one socket's entries by consistent ones keeps every socket consistent. */
  lemma UpdateConsistent(bufferUdpData: bool, buffers: map<int, seq<byte>>, logs: map<int, SocketLog>,
                         socket: int, buffer: seq<byte>, log: SocketLog)
    requires AllConsistent(bufferUdpData, buffers, logs) && Consistent(bufferUdpData, buffer, log)
    ensures AllConsistent(bufferUdpData, buffers[socket := buffer], logs[socket := log])
  {
  }

  /** Emitting one socket's batch, as a step on the whole map of buffers and histories. */
  lemma EmitConsistent(bufferUdpData: bool, buffers: map<int, seq<byte>>, logs: map<int, SocketLog>,
                       socket: int, data: seq<byte>, id: byte)
    requires AllConsistent(bufferUdpData, buffers, logs)
    ensures var log := LogOf(logs, socket);
      ListAt(buffers, socket) + Frame(data, id) == Frames(log.pending + [(data, id)]) &&
      AllConsistent(bufferUdpData, buffers[socket := []],
        logs[socket := SocketLog([], log.emitted + (log.pending + [(data, id)]), log.received + [data])])
  {
    var log := LogOf(logs, socket);
    FreshConsistent(bufferUdpData);
    EmitStep(bufferUdpData, ListAt(buffers, socket), log, data, id);
    UpdateConsistent(bufferUdpData, buffers, logs, socket, [],
      SocketLog([], log.emitted + (log.pending + [(data, id)]), log.received + [data]));
  }

  /** Buffering one datagram for a socket, as a step on the whole map of buffers and histories. */
  lemma BufferConsistent(buffers: map<int, seq<byte>>, logs: map<int, SocketLog>,
                         socket: int, data: seq<byte>, id: byte)
    requires AllConsistent(true, buffers, logs) && |ListAt(buffers, socket)| + |data| <= BatchLimit
    ensures var log := LogOf(logs, socket);
      ListAt(buffers, socket) + Frame(data, id) == Frames(log.pending + [(data, id)]) &&
      AllConsistent(true, buffers[socket := ListAt(buffers, socket) + Frame(data, id)],
        logs[socket := SocketLog(log.pending + [(data, id)], log.emitted, log.received + [data])])
  {
    var log := LogOf(logs, socket);
    var buffered := ListAt(buffers, socket);
    FreshConsistent(true);
    BufferStep(buffered, log, data, id);
    UpdateConsistent(true, buffers, logs, socket, buffered + Frame(data, id),
      SocketLog(log.pending + [(data, id)], log.emitted, log.received + [data]));
  }

  class UdpDataQueue {
    /** Whether BUFFER_UDP_DATA was defined at build time. */
    const bufferUdpData: bool
    const queue: LockFreeQueue<(int, seq<byte>)>
    var bufferedNewDataMap: map<int, seq<byte>>
    /** The 8-bit frame id counter. */
    var sendId: nat
    var dataAvailable: bool
    /** The history of every socket that has a buffer. */
    ghost var Logs: map<int, SocketLog>

    ghost predicate Valid()
      reads this, queue, queue.buffer
    {
      queue.Valid() && sendId < U8 && AllConsistent(bufferUdpData, bufferedNewDataMap, Logs)
    }

    constructor (bufferUdpData: bool)
      ensures Valid() && fresh(queue) && fresh(queue.buffer)
      ensures this.bufferUdpData == bufferUdpData && queue.Contents == [] && queue.Capacity == QueueCapacity
      ensures bufferedNewDataMap == map[] && sendId == 0 && !dataAvailable
    {
      this.bufferUdpData := bufferUdpData;
      queue := new LockFreeQueue(QueueCapacity);
      bufferedNewDataMap := map[];
      sendId := 0;
      dataAvailable := false;
      Logs := map[];
    }

    /**
     * enqueue. `timeElapsed` says whether more than 50 ms have passed since
     * the last emission. An emission needs room in the queue: the source
     * spins until a consumer makes some.
     */
    method Enqueue(socket: int, data: seq<byte>, timeElapsed: bool)
      requires Valid()
      requires !bufferUdpData || timeElapsed || |ListAt(bufferedNewDataMap, socket)| + |data| > BatchLimit ==>
        |queue.Contents| < queue.Capacity
      modifies this, queue, queue.buffer
      ensures Valid() && sendId == (old(sendId) + 1) % U8
      ensures var log := LogOf(old(Logs), socket);
        var fs := log.pending + [(data, old(sendId) as byte)];
        if !bufferUdpData || |ListAt(old(bufferedNewDataMap), socket)| + |data| > BatchLimit || timeElapsed then
          queue.Contents == old(queue.Contents) + [(socket, Frames(fs))] &&
          bufferedNewDataMap == old(bufferedNewDataMap)[socket := []] && dataAvailable &&
          Logs == old(Logs)[socket := SocketLog([], log.emitted + fs, log.received + [data])]
        else
          queue.Contents == old(queue.Contents) && dataAvailable == old(dataAvailable) &&
          bufferedNewDataMap == old(bufferedNewDataMap)[socket := Frames(fs)] &&
          Logs == old(Logs)[socket := SocketLog(fs, log.emitted, log.received + [data])]
    {
      var buffered := ListAt(bufferedNewDataMap, socket);
      if !bufferUdpData || |buffered| + |data| > BatchLimit || timeElapsed {
        EnqueueAndNotify(socket, data);
      } else {
        var id := sendId as byte;
        ghost var log := LogOf(Logs, socket);
        BufferConsistent(bufferedNewDataMap, Logs, socket, data, id);
        bufferedNewDataMap := bufferedNewDataMap[socket := buffered + Frame(data, id)];
        Logs := Logs[socket := SocketLog(log.pending + [(data, id)], log.emitted, log.received + [data])];
        sendId := (sendId + 1) % U8;
      }
    }

    /**
     * enqueueAndNotify: the buffered frames, followed by the frame of the
     * new datagram, become one queue item; the buffer is cleared.
     */
    method EnqueueAndNotify(socket: int, data: seq<byte>)
      requires Valid() && |queue.Contents| < queue.Capacity
      modifies this, queue, queue.buffer
      ensures Valid() && sendId == (old(sendId) + 1) % U8 && dataAvailable
      ensures var log := LogOf(old(Logs), socket);
        var fs := log.pending + [(data, old(sendId) as byte)];
        queue.Contents == old(queue.Contents) + [(socket, Frames(fs))] &&
        bufferedNewDataMap == old(bufferedNewDataMap)[socket := []] &&
        Logs == old(Logs)[socket := SocketLog([], log.emitted + fs, log.received + [data])]
    {
      var id := sendId as byte;
      var next := (sendId + 1) % U8;
      var buffered := ListAt(bufferedNewDataMap, socket);
      ghost var log := LogOf(Logs, socket);
      ghost var fs := log.pending + [(data, id)];
      EmitConsistent(bufferUdpData, bufferedNewDataMap, Logs, socket, data, id);
      var newData := buffered + Frame(data, id);
      bufferedNewDataMap := bufferedNewDataMap[socket := []];
      Logs := Logs[socket := SocketLog([], log.emitted + fs, log.received + [data])];
      sendId := next;
      var ok := queue.Enqueue((socket, newData));
      dataAvailable := true;
    }

    /**
     * dequeue: waits until an item is available (the wait is excluded by
     * the precondition), removes the oldest, and clears dataAvailable when
     * the queue is left empty.
     */
    method Dequeue() returns (socket: int, data: seq<byte>)
      requires Valid() && queue.Contents != []
      modifies this, queue
      ensures Valid()
      ensures (socket, data) == old(queue.Contents)[0] && queue.Contents == old(queue.Contents)[1..]
      ensures dataAvailable == (old(dataAvailable) && queue.Contents != [])
      ensures bufferedNewDataMap == old(bufferedNewDataMap) && sendId == old(sendId) && Logs == old(Logs)
    {
      var ok, item := queue.Dequeue((0, []));
      socket, data := item.0, item.1;
      var empty := queue.Empty();
      if empty {
        dataAvailable := false;
      }
    }
  }
}
