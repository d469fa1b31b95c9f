# tcpudp core, modelled in Dafny

tcpudp carries UDP datagrams over one or more TCP connections. A client
frames each datagram with a 4-byte UVT header (big-endian length, an 8-bit
id and an XOR checksum) and sends the frames over TCP. The server takes the
frames back out of the byte stream and hands them to per-client UDP sockets.
The "virtual channel" layer spreads numbered DATA/ACK packets over several
TCP connections and reassembles them in id order at the other end.

This project models the core of that system:

- the UVT codec, including the MsgBind and MsgBindResponse messages (`Uvt`);
- the virtual-channel wire format and its reader (`VcWire`, `VcReader`);
- the channel itself and its reorder buffer (`VirtualChannel`, `Reorder`);
- the server's TCP ingress loop (`TcpIngress`) and UDP batching queue (`UdpBatching`);
- the queues (`Queues`, `RingQueue`, `QueueManagers`);
- the buffer pool (`BufferPool`) and memory accounting (`MemoryAccounting`);
- the connection and socket registries (`Connection`, `ConnectionRegistry`, `SocketMaps`,
  `ClientUdpSockets`, `Peers`);
- the counters (`Counters`), the client's handshake states (`Handshake`), and the reverse
  server's byte inversion (`Reverse`).

`Bytes` holds the byte type, the fixed-width integer bounds and the little-
and big-endian encodings, with their lemmas.

Sockets, clocks and other operating-system calls are parameters: the model
takes whatever value the call returned as input. Descriptors passed to
SocketClose are recorded in a sequence, and so are the buffers handed to
SendTcpData. Mutex-protected operations get their sequential meaning, and a
wait that could never end is excluded by a precondition. The host is taken
to be little-endian, which matters only where the source copies integers in
host order.

## Model

| member | source | states |
|---|---|---|
| Uvt.XorChecksum | src/common/Protocol.cpp:4-10 | The loop computes the XOR fold of the first `length` bytes; no byte at or past `length` is read. |
| Uvt.ChecksumAppend | src/common/Protocol.cpp:4-10 | The checksum of a concatenation is the XOR of the two checksums. |
| Uvt.ChecksumSwap | src/common/Protocol.cpp:4-10 | Rotation invariance: swapping two halves of the bytes keeps the checksum. |
| Uvt.ChecksumPermutation | src/common/Protocol.cpp:4-10 | The checksum does not depend on byte order: any two byte sequences with the same multiset of bytes have the same checksum. |
| Uvt.ChecksumSingle | src/common/Protocol.cpp:4-10 | The checksum of one byte is that byte. |
| Uvt.ChecksumExample | src/common/Protocol.cpp:4-10 | {1,2,3,4} has checksum 4. |
| Uvt.ValidateOwnChecksum | src/common/Protocol.h:42-45 | A buffer always validates against its own checksum. |
| Uvt.ValidateDetectsSingleByteChange | src/common/Protocol.h:42-45 | Changing any one byte makes validation against the old checksum fail. |
| Uvt.Frame | src/common/Protocol.h:47-63 | A frame is exactly 4 + \|data\| bytes. |
| Uvt.FrameHeader | src/common/Protocol.h:52-56 | The header holds the big-endian payload length, the id and the payload's XOR, followed by the payload. |
| Uvt.AppendUdpData | src/common/Protocol.h:47-63 | The output grows by the frame; the bytes already there are unchanged. |
| Uvt.Frames | src/common/Protocol.h:47-63 | A list of frames back to back is empty exactly when the list is. |
| Uvt.Payloads | src/common/Protocol.h:47-63 | The payloads of a frame list, in order. |
| Uvt.FramesAppend | src/common/Protocol.h:47-63 | Framing distributes over concatenation of frame lists. |
| Uvt.PayloadsAppend | src/common/Protocol.h:47-63 | Payloads distribute over concatenation of frame lists. |
| Uvt.FramesSingle | src/common/Protocol.h:47-63 | A one-frame list is that frame. |
| Uvt.ExtractUdpData | src/common/Protocol.h:67-106 | Three outcomes. Incomplete input comes back unchanged with empty output. A complete, valid frame gives its payload, and the remainder is the input minus the frame. A checksum mismatch raises an error. |
| Uvt.ExtractedIsFrame | src/common/Protocol.h:80-105 | A prefix accepted by the extraction is a frame of the extracted payload and id. |
| Uvt.ExtractFrame | src/common/Protocol.h:67-106 | Round trip: extracting from a frame followed by any bytes gives the payload and exactly those bytes. |
| Uvt.ExtractIncomplete | src/common/Protocol.h:74-89 | Every proper prefix of a frame is incomplete: empty output, and the input is returned. |
| Uvt.ExtractCorrupted | src/common/Protocol.h:93-101 | A frame with one payload byte changed is rejected with a checksum error. |
| Uvt.EncodeMsgBind | src/common/Protocol.h:108-115 | MsgBind is 4 bytes. |
| Uvt.AppendMsgBind | src/common/Protocol.h:108-115 | Appends exactly the 4-byte encoding. |
| Uvt.ExtractMsgBind | src/common/Protocol.h:117-125 | Fails exactly when fewer than 4 bytes are given; the client id fits in 32 bits. |
| Uvt.EncodeMsgBindResponse | src/common/Protocol.h:127-136 | MsgBindResponse is 4 bytes. |
| Uvt.AppendMsgBindResponse | src/common/Protocol.h:127-136 | Appends exactly the 4-byte encoding. |
| Uvt.ExtractMsgBindResponse | src/common/Protocol.h:138-147 | Fails exactly when fewer than 4 bytes are given; the connection id fits in 32 bits. |
| Uvt.MsgBindRoundTrip | src/common/Protocol.h:108-125 | Extracting an appended MsgBind gives it back, whatever follows. |
| Uvt.MsgBindResponseRoundTrip | src/common/Protocol.h:127-147 | Extracting an appended MsgBindResponse gives it back, whatever follows. |
| ConnectionRegistry.ConnectionManager.GenerateConnectionId | src/common/Protocol.h:244-251 | The new id is below 1000000, was not in use, and is recorded. |
| ConnectionRegistry.FreeIdBelow | src/common/Protocol.h:244-251 | With fewer than 1000000 ids in use an unused one exists, so the draw can succeed. |
| ConnectionRegistry.ConnectionManager.CreateConnection | src/common/Protocol.h:169-180 | The record carries the client and a fresh id. It is appended to the list and to the client's entry, and the three views stay consistent. |
| ConnectionRegistry.AddConsistent | src/common/Protocol.h:169-180 | Adding a record with an unused id keeps list, id set and per-client lists in agreement. |
| ConnectionRegistry.ConnectionManager.IndexOf | src/common/Protocol.h:184-185 | Finds the first record with the id, or reports the end when the id is not there. |
| ConnectionRegistry.ConnectionManager.RemoveConnection | src/common/Protocol.h:183-209 | Returns true exactly when the id was live, and the id is then gone from every view. The owner's entry loses the id and is erased when it becomes empty; every other client entry is unchanged. An unknown id changes nothing. |
| ConnectionRegistry.RemoveConsistent | src/common/Protocol.h:183-209 | Erasing the first match removes the id altogether and keeps the three views consistent. |
| ConnectionRegistry.EraseFirstMatch | src/common/Protocol.h:189-195 | With unique ids, erasing the first record carrying an id removes every record carrying it. |
| ConnectionRegistry.RemoveTwice | src/common/Protocol.h:183-209 | A live id is removed once; the second removal reports false. |
| ConnectionRegistry.ConnectionManager.GetClientConnections | src/common/Protocol.h:212-214 | The client's connections in creation order; an absent client gets an empty entry. |
| ConnectionRegistry.ConnectionManager.GetClientConnectionCount | src/common/Protocol.h:217-219 | The number of that client's connections. Like operator[], it leaves an entry, possibly empty, for the client in the map; nothing else changes. |
| ConnectionRegistry.ConnectionManager.RemoveAllConnections | src/common/Protocol.h:222-229 | All three views become empty. |
| ConnectionRegistry.OfClientRemove | src/common/Protocol.h:183-209 | Taking a client's part and removing an id commute. |
| ConnectionRegistry.OwnClientOnly | src/common/Protocol.h:183-209 | An id belongs to its own client's list only. |
| ConnectionRegistry.SetEntry | src/common/Protocol.h:197-200 | The client's entry is replaced, or erased when it becomes empty; other entries are unchanged. |
| VcWire.Layout | src/common/VcProtocol.h:8-37 | DATA is 0 and ACK is 1. The packed header is 1 + 8 = 9 bytes, the minimum DATA packet 11 bytes and the ACK packet 9 bytes. |
| VcWire.DataPacket | src/common/TcpVirtualChannel.cpp:106-113 | A DATA packet is 11 + \|payload\| bytes. |
| VcWire.DataPacketFields | src/common/TcpVirtualChannel.cpp:109-113 | The packet holds the type DATA, the id and the length in host order, followed by the payload. |
| VcWire.HasEnoughDataForData | src/common/TcpVCReadThread.cpp:79-95 | An error exactly when a declared length above 1400 is readable. True exactly when 11 + length bytes are buffered. |
| VcWire.HasEnoughData | src/common/TcpVCReadThread.cpp:52-72 | False below 9 bytes. True only for ACK, or for DATA with the whole payload buffered. An unknown type byte is an error. |
| VcWire.HasEnoughDataForPacket | src/common/TcpVCReadThread.cpp:52-95 | A buffered packet with at most 1400 payload bytes is recognised as complete. |
| VcWire.HasEnoughDataIncomplete | src/common/TcpVCReadThread.cpp:52-95 | Every proper prefix of a DATA packet is reported incomplete. |
| VcWire.OversizedPayloadRejected | src/common/TcpVCReadThread.cpp:88-92 | A declared payload above 1400 bytes is an error. |
| VcWire.ProcessAckBuffer | src/common/TcpVCReadThread.cpp:97-106 | One ACK event; 9 bytes consumed. |
| VcWire.ProcessDataBuffer | src/common/TcpVCReadThread.cpp:108-124 | One DATA event whose payload is exactly the bytes after the 11-byte header; 11 + length consumed. |
| VcWire.ProcessBuffer | src/common/TcpVCReadThread.cpp:35-50 | A complete packet yields one event of its own type and consumes a positive prefix. |
| VcWire.ProcessDataPacket | src/common/TcpVCReadThread.cpp:35-50 | A sent DATA packet is decoded back to its id and payload, with 11 + \|payload\| consumed. |
| VcWire.ProcessAckPacket | src/common/TcpVCReadThread.cpp:35-50 | An ACK packet is decoded back to its id, with 9 consumed. |
| VcWire.ProcessAckBufferAsWritten | src/common/TcpVCReadThread.cpp:97-106 | As written: one ACK event and 9 bytes consumed, whatever the id bytes. |
| VcWire.ProcessDataBufferAsWritten | src/common/TcpVCReadThread.cpp:108-124 | As written: when it succeeds, one event and between 11 and \|buf\| bytes consumed. |
| VcWire.ProcessBufferAsWritten | src/common/TcpVCReadThread.cpp:35-50 | As written: never succeeds. |
| VcWire.IdByteOrderMismatch | src/common/TcpVCReadThread.cpp:103 | Id 1 is sent as bytes 1,0,...,0. ntohll reads it as 2^56; the corrected decoder reads 1. |
| VcWire.LengthByteOrderMismatch | src/common/TcpVCReadThread.cpp:111-115 | A 6-byte payload passes the raw length check but is rejected once decoded with ntohs; the corrected reader consumes 17 bytes. |
| VcWire.FallThroughThrows | src/common/TcpVCReadThread.cpp:39-49 | A complete DATA packet makes the as-written processBuffer throw; the corrected one decodes it. |
| VcReader.Drain | src/common/TcpVCReadThread.cpp:20-31 | Corrected (see Findings): the consume-prefix loop stops at an error or when the buffer no longer holds a complete packet. |
| VcReader.DrainPackets | src/common/TcpVCReadThread.cpp:20-31 | Corrected (see Findings): a stream of well-formed DATA packets drains completely into their events, in order. |
| VcReader.DrainSplit | src/common/TcpVCReadThread.cpp:12-31 | Corrected (see Findings): receiving a stream in two chunks gives the same events and leftover bytes as receiving it at once. |
| VcReader.HasEnoughDataExtend | src/common/TcpVCReadThread.cpp:52-95 | Corrected (see Findings): bytes appended after a complete packet change neither the check nor its decoding. |
| VcReader.DrainStep | src/common/TcpVCReadThread.cpp:20-31 | Corrected (see Findings): one turn of the loop: process the head packet, then drain the rest. |
| VcReader.TcpVCReadThread.ReceiveAndProcess | src/common/TcpVCReadThread.cpp:7-33 | Corrected (see Findings): the chunk is appended to bufferVector. The events are those of draining the result, and bufferVector keeps exactly what is left. |
| Reorder.Flush | src/common/TcpVirtualChannel.cpp:188-201 | Advances nextMessageId past every delivered message; afterwards nextMessageId is not buffered. |
| Reorder.Receive | src/common/TcpVirtualChannel.cpp:172-202 | A message below nextMessageId is ignored: nothing stored, nothing delivered. |
| Reorder.RunAppend | src/common/TcpVirtualChannel.cpp:188-201 | Consecutive runs of deliveries concatenate. |
| Reorder.FlushOrdered | src/common/TcpVirtualChannel.cpp:184-201 | After a flush every buffered id is above nextMessageId. |
| Reorder.ReceiveOrdered | src/common/TcpVirtualChannel.cpp:172-202 | Receiving keeps every buffered id above nextMessageId. |
| Reorder.FlushDescribes | src/common/TcpVirtualChannel.cpp:188-201 | The flush delivers the payloads of nextMessageId, nextMessageId+1, ... up to the first gap. |
| Reorder.ReceiveDescribes | src/common/TcpVirtualChannel.cpp:172-202 | One arrival delivers exactly the next consecutive run of arrived messages. |
| Reorder.ReceiveAllDelivers | src/common/TcpVirtualChannel.cpp:172-202 | Whatever the arrival order, every delivery is the consecutive run from 0, each message once. |
| Reorder.ReceiveAllFrom | src/common/TcpVirtualChannel.cpp:172-202 | The same claim, starting from any consistent window. |
| Reorder.ArrivalFlushes | src/common/TcpVirtualChannel.cpp:188-201 | With 1, 2 and 4 buffered, the arrival of 0 delivers 0, 1 and 2 in one call. |
| VirtualChannel.TcpVirtualChannel.constructor | src/common/TcpVirtualChannel.cpp:204-211 | One fresh connected TcpConnection per descriptor, an empty send queue, and a closed channel. |
| VirtualChannel.TcpVirtualChannel.Open | src/common/TcpVirtualChannel.cpp:9-90 | Starts one read and one write thread per connection and marks the channel open. |
| VirtualChannel.TcpVirtualChannel.Send | src/common/TcpVirtualChannel.cpp:92-118 | Closed channel or empty payload: nothing happens and no id is consumed. Otherwise one DATA packet with the next id is queued. The open flag, the threads, the reorder state and the queue's cancel flag are unchanged. |
| VirtualChannel.TcpVirtualChannel.IsOpen | src/common/TcpVirtualChannel.cpp:119-122 | Reports the open flag. |
| VirtualChannel.TcpVirtualChannel.ProcessReceivedData | src/common/TcpVirtualChannel.cpp:172-202 | nextMessageId, the buffered map and the deliveries follow `Reorder.Receive`; the open flag, the send id and the threads are unchanged. |
| VirtualChannel.FlushAdvance | src/common/TcpVirtualChannel.cpp:188-201 | One turn of the delivery loop takes one step of the flush. |
| VirtualChannel.TcpVirtualChannel.DisconnectConnectedOnly | src/common/TcpVirtualChannel.cpp:136-147 | As written: only connections still flagged connected are disconnected. |
| VirtualChannel.TcpVirtualChannel.DisconnectAll | src/common/TcpVirtualChannel.cpp:136-147 | Corrected: every connection ends disconnected with its descriptor closed. |
| VirtualChannel.TcpVirtualChannel.StopThreads | src/common/TcpVirtualChannel.cpp:150-170 | Every read and write thread is stopped. |
| VirtualChannel.TcpVirtualChannel.CloseAsWritten | src/common/TcpVirtualChannel.cpp:123-171 | Idempotent: a second call changes nothing. The first cancels the send queue and stops the threads, but disconnects only connected connections. |
| VirtualChannel.TcpVirtualChannel.Close | src/common/TcpVirtualChannel.cpp:123-171 | Idempotent. The first call cancels the send queue, stops the threads, and leaves every connection disconnected with its descriptor closed. |
| VirtualChannel.TcpVirtualChannel.OnDisconnect | src/common/TcpVirtualChannel.cpp:23-75 | As written: the disconnect callback closes an open channel as CloseAsWritten does (only connections still flagged connected are disconnected, the threads are stopped, the send queue is cancelled), and notifies exactly when it closed one and a callback is set; on a closed channel nothing changes. |
| VirtualChannel.TcpVirtualChannel.OnDisconnectCorrected | src/common/TcpVirtualChannel.cpp:23-75 | Corrected (see Findings): as OnDisconnect, but every connection ends disconnected with its descriptor closed. |
| VirtualChannel.FailedConnectionLeaks | src/common/TcpVirtualChannel.cpp:136-147 | After a failed receive, the as-written close leaves descriptor 5 open; the corrected close closes it. |
| VirtualChannel.FailedConnectionLeaksOnDisconnect | src/common/TcpVirtualChannel.cpp:50-54 | After a failed receive, the as-written disconnect callback leaves descriptor 5 open; the corrected one closes it; both notify the upper layer. |
| VirtualChannel.SendsDeliverInOrder | src/common/TcpVirtualChannel.cpp:92-202 | Corrected (see Findings, as the reader decodes in host order and returns each case): payloads sent in order, framed, read back and reordered, are delivered exactly and in order. |
| VirtualChannel.DeliverConsecutive | src/common/TcpVirtualChannel.cpp:172-202 | Arrivals 0, 1, 2, ... in order are each delivered at once. |
| Connection.TcpConnection.constructor | src/common/TcpConnection.h:12-21 | A new connection is connected on its descriptor. |
| Connection.TcpConnection.Disconnect | src/common/TcpConnection.cpp:3-12 | Closes the descriptor when there is one, then clears it and the flag; a second call closes nothing. |
| Connection.TcpConnection.IsConnected | src/common/TcpConnection.cpp:13-16 | Reports the flag. |
| Connection.TcpConnection.Receive | src/common/TcpConnection.cpp:18-38 | No live socket: 0 bytes, nothing changes. A receive error gives 0 bytes and marks the connection disconnected, keeping its descriptor. Otherwise the received bytes are returned. |
| Connection.TcpConnection.Send | src/common/TcpConnection.cpp:40-57 | With a live socket the buffer is sent, and a failure marks the connection disconnected. Otherwise nothing happens. |
| TcpIngress.Kept | src/server/TcpToQueueThread.cpp:76-86 | An empty payload is not enqueued; a non-empty one is, once. |
| TcpIngress.ReceiveAsWritten | src/server/TcpToQueueThread.cpp:72-87 | As written: at most one payload per receive, and the rest of the stream is kept. |
| TcpIngress.Drain | src/server/TcpToQueueThread.cpp:72-87 | Corrected (see Findings; the loop as written stops after one frame): extraction is repeated until no frame is consumed. On success what is left holds no complete frame. |
| TcpIngress.DrainFrames | src/server/TcpToQueueThread.cpp:72-87 | A stream of frames drains completely: every non-empty payload once, in stream order. |
| TcpIngress.DrainSplit | src/server/TcpToQueueThread.cpp:63-87 | Receiving a stream in two chunks enqueues the same payloads and keeps the same bytes as receiving it at once. |
| TcpIngress.ExtractExtend | src/common/Protocol.h:67-106 | An extraction that fails or consumes a frame does not depend on the bytes after it. |
| TcpIngress.OneFramePerReceive | src/server/TcpToQueueThread.cpp:72-87 | Two frames received together: the as-written loop enqueues only the first, the corrected one both. |
| TcpIngress.TcpToQueueThread.Step | src/server/TcpToQueueThread.cpp:41-91 | Corrected (see Findings): timeout, would-block and unreadable continue. Other non-positive results stop. A positive receive appends exactly the received bytes and enqueues the drained payloads in order, or ends on a checksum error. |
| TcpIngress.TcpToQueueThread.ExtractAll | src/server/TcpToQueueThread.cpp:72-87 | Corrected (see Findings): the loop enqueues exactly the payloads of draining the pending bytes and keeps what is left. |
| TcpIngress.TcpToQueueThread.ExtractOne | src/server/TcpToQueueThread.cpp:74-86 | Corrected (see Findings): one extraction, and the enqueue of a non-empty payload. It either makes progress consistent with the drain or stops exactly where the drain stops. |
| UdpBatching.FreshConsistent | src/server/UdpDataQueue.cpp:13-17 | A socket's buffer starts empty and consistent. |
| UdpBatching.BufferStep | src/server/UdpDataQueue.cpp:37-43 | Buffering a datagram appends its frame and keeps the buffer within the batch limit. |
| UdpBatching.EmitStep | src/server/UdpDataQueue.cpp:88-115 | An emission sends exactly the pending frames followed by the new one. Emitted plus pending is every datagram received, in order. |
| UdpBatching.UpdateConsistent | src/server/UdpDataQueue.cpp:8-57 | Updating one socket keeps every socket consistent. |
| UdpBatching.UdpDataQueue.constructor | src/server/UdpDataQueue.h:24-37 | No buffers, id 0, an empty ring queue of capacity 1024, and dataAvailable false. |
| UdpBatching.UdpDataQueue.Enqueue | src/server/UdpDataQueue.cpp:8-57 | Emission happens without buffering, past 1400 bytes, or after the timer; otherwise the frame is buffered. Either way the id advances mod 256. |
| UdpBatching.UdpDataQueue.EnqueueAndNotify | src/server/UdpDataQueue.cpp:88-127 | The buffered frames and the new frame form one queue item. The buffer is cleared and dataAvailable is set. |
| UdpBatching.UdpDataQueue.Dequeue | src/server/UdpDataQueue.cpp:59-86 | Returns the oldest item; dataAvailable is cleared when the queue is left empty. |
| RingQueue.LockFreeQueue.constructor | src/common/LockFreeQueue.h:14-19 | An empty ring of capacity + 1 slots. |
| RingQueue.LockFreeQueue.Enqueue | src/common/LockFreeQueue.h:26-37 | Succeeds exactly when not full, appending the item; when full nothing changes. |
| RingQueue.LockFreeQueue.Dequeue | src/common/LockFreeQueue.h:40-50 | Succeeds exactly when not empty, returning and removing the oldest item. |
| RingQueue.LockFreeQueue.Empty | src/common/LockFreeQueue.h:74-77 | True exactly when no items are held. |
| RingQueue.LockFreeQueue.Size | src/common/LockFreeQueue.h:80-89 | The number of items held, never above the capacity. |
| Queues.BlockingQueue.Enqueue | src/common/BlockingQueue.cpp:9-21 | The buffer joins the back. |
| Queues.BlockingQueue.Dequeue | src/common/BlockingQueue.cpp:23-45 | Cancelled: null, and the items stay. Otherwise the oldest item is removed and returned. |
| Queues.BlockingQueue.CancelWait | src/common/BlockingQueue.cpp:47-54 | The cancel flag is set for good; the items stay. |
| Queues.TcpDataQueue.Enqueue | src/server/TcpDataQueue.cpp:6-12 | The pair joins the back. |
| Queues.TcpDataQueue.Dequeue | src/server/TcpDataQueue.cpp:14-22 | The oldest pair is removed and returned. |
| Queues.TcpToUdpQueue.Enqueue | src/client/TcpToUdpQueue.cpp:3-6 | The string joins the back. |
| Queues.TcpToUdpQueue.Dequeue | src/client/TcpToUdpQueue.cpp:8-14 | "" when empty; otherwise the oldest string, removed. |
| BufferPool.CategoryOf | src/common/MemoryPool.cpp:115-139 | The thresholds are tried in order; a size above all three has no bucket. |
| BufferPool.DefaultCategories | src/common/MemoryPool.cpp:100-104 | With the defaults the buckets are sizes up to 1 KiB, 16 KiB and 64 KiB. |
| BufferPool.Resized | src/common/MemoryPool.cpp:15 | Resizing cuts or zero-pads to the size. |
| BufferPool.MemoryPool.constructor | src/common/MemoryPool.cpp:100-109 | The default thresholds, 100 buffers per bucket, empty buckets and zero counters. |
| BufferPool.MemoryPool.GetFromPool | src/common/MemoryPool.h:160-185 | The oldest buffer of the size's bucket, removed from it. None when that bucket is empty or the size has none. |
| BufferPool.MemoryPool.GetBuffer | src/common/MemoryPool.cpp:12-22 | Always exactly `size` zero bytes. A pooled buffer is reused with the counters unchanged; otherwise a fresh buffer is allocated and counted. |
| BufferPool.MemoryPool.RecycleBuffer | src/common/MemoryPool.cpp:24-52 | Null or empty buffers are ignored. Otherwise the buffer, cleared, joins the bucket for its capacity if that bucket has room, and is counted. Buckets never exceed maxPoolSize. |
| BufferPool.MemoryPool.GetStats | src/common/MemoryPool.h:101-121 | The three counters and the three bucket lengths. |
| BufferPool.MemoryPool.SetMaxPoolSize | src/common/MemoryPool.h:131-133 | The limit is set; the buckets stay as they are. |
| BufferPool.MemoryPool.SetBufferSizes | src/common/MemoryPool.cpp:94-98 | The thresholds are set; the buckets stay as they are. |
| BufferPool.ReuseInOrder | src/common/MemoryPool.cpp:12-52 | Recycled buffers come back in the order they went in, with no new allocation. |
| MemoryAccounting.AddWrap | src/common/MemoryMonitor.cpp:31-36 | size_t addition wraps modulo 2^64. |
| MemoryAccounting.SubWrap | src/common/MemoryMonitor.cpp:38-40 | size_t subtraction wraps: freeing more than is counted gives a huge value. |
| MemoryAccounting.AddSubRestores | src/common/MemoryMonitor.h:172-178 | Freeing what was just allocated restores the count, wrap-around included. |
| MemoryAccounting.MemoryMonitor.constructor | src/common/MemoryMonitor.h:114-119 | Stopped, zero usage and peak, and a 100 MiB threshold. |
| MemoryAccounting.MemoryMonitor.Start | src/common/MemoryMonitor.cpp:13-19 | Sets the running flag; a no-op while running. |
| MemoryAccounting.MemoryMonitor.Stop | src/common/MemoryMonitor.h:34-43 | Clears the running flag; a no-op while stopped. |
| MemoryAccounting.MemoryMonitor.TrackAllocation | src/common/MemoryMonitor.h:46-51 | Usage grows by the bytes (mod 2^64), and the peak follows it up and stays at least the usage. |
| MemoryAccounting.MemoryMonitor.TrackDeallocation | src/common/MemoryMonitor.cpp:38-40 | Usage drops (wrapping) and the peak stays. The peak still covers the usage when no more than the usage is freed. |
| MemoryAccounting.MemoryMonitor.GetCurrentMemoryUsage | src/common/MemoryMonitor.cpp:42-44 | Reports the usage. |
| MemoryAccounting.MemoryMonitor.GetPeakMemoryUsage | src/common/MemoryMonitor.cpp:46-48 | Reports the peak. |
| MemoryAccounting.MemoryMonitor.ResetPeakMemoryUsage | src/common/MemoryMonitor.cpp:50-52 | The peak becomes the current usage. |
| MemoryAccounting.MemoryMonitor.SetMemoryThreshold | src/common/MemoryMonitor.cpp:54-56 | Sets the threshold. |
| MemoryAccounting.MemoryMonitor.RegisterAlertCallback | src/common/MemoryMonitor.cpp:58-61 | Appends the callback. |
| MemoryAccounting.Invocations | src/common/MemoryMonitor.cpp:100-105 | One call per callback, in registration order, each with the same usage. |
| MemoryAccounting.MemoryMonitor.TriggerAlerts | src/common/MemoryMonitor.cpp:100-105 | Every registered callback is called once, in order, with the usage. |
| MemoryAccounting.MemoryMonitor.CheckUsage | src/common/MemoryMonitor.cpp:94-96 | Alerts fire exactly when the usage is above the threshold. |
| MemoryAccounting.TrackedBuffer.constructor | src/common/MemoryMonitor.h:172-174 | Reports size * sizeof(T) bytes as allocated; the monitor's running flag, threshold, callbacks and alerts are unchanged. |
| MemoryAccounting.TrackedBuffer.Move | src/common/MemoryMonitor.h:185-187 | Takes the other's elements without reporting, and leaves the other empty. |
| MemoryAccounting.TrackedBuffer.Destroy | src/common/MemoryMonitor.h:176-178 | Reports the current bytes as freed; the monitor's running flag, threshold, callbacks and alerts are unchanged. |
| MemoryAccounting.TrackedBuffer.MoveAssign | src/common/MemoryMonitor.h:189-200 | Frees this buffer's bytes and takes the other's without reporting them; self-assignment does nothing. The monitor's running flag, threshold, callbacks and alerts are unchanged. |
| MemoryAccounting.TrackedBuffer.Resize | src/common/MemoryMonitor.h:203-212 | Exactly the size difference is reported, up or down; the monitor's running flag, threshold, callbacks and alerts are unchanged. |
| MemoryAccounting.TrackedBuffer.Clear | src/common/MemoryMonitor.h:225-228 | Reports the current bytes as freed and empties the buffer; the monitor's running flag, threshold, callbacks and alerts are unchanged. |
| MemoryAccounting.TrackedLifetime | src/common/MemoryMonitor.h:172-212 | Create n, resize to m, destroy: the usage returns to its start and the peak is max(n, m). |
| SocketMaps.Pick | src/server/UdpToTcpSocketMap.cpp:13-18 | The socket at the cursor (mod the list length), and the next cursor. |
| SocketMaps.Retrievals | src/server/UdpToTcpSocketMap.cpp:13-18 | k retrievals in a row give k sockets of the list. |
| SocketMaps.RoundRobin | src/server/UdpToTcpSocketMap.cpp:13-18 | The i-th retrieval from cursor c is the socket at (c + i) mod n. |
| SocketMaps.InsertionOrder | src/server/UdpToTcpSocketMap.cpp:13-18 | From a fresh cursor, retrievals follow mapping order and wrap. |
| SocketMaps.EveryRoundVisitsAll | src/server/UdpToTcpSocketMap.cpp:13-18 | Any n consecutive retrievals visit every mapped socket. |
| SocketMaps.UdpToTcpSocketMap.MapSockets | src/server/UdpToTcpSocketMap.cpp:3-11 | Appends the TCP socket to the UDP socket's list unless it is already there, keeping the list free of duplicates. |
| SocketMaps.UdpToTcpSocketMap.RetrieveMappedTcpSocket | src/server/UdpToTcpSocketMap.cpp:13-18 | Returns `Pick` at the stored cursor and stores the next cursor. |
| SocketMaps.UdpToTcpSocketMap.Reset | src/server/UdpToTcpSocketMap.cpp:19-22 | Both maps become empty. |
| SocketMaps.AlternatesBetweenTwo | src/server/UdpToTcpSocketMap.cpp:3-18 | With 100 and 101 mapped, retrievals alternate 100, 101, 100. |
| SocketMaps.Lookup | src/server/TcpToUdpSocketMap.cpp:7-13 | -1 for an unmapped TCP socket. |
| SocketMaps.TcpToUdpSocketMap.MapSockets | src/server/TcpToUdpSocketMap.cpp:3-5 | The TCP socket now maps to the UDP socket; others are unchanged. |
| SocketMaps.TcpToUdpSocketMap.RetrieveMappedUdpSocket | src/server/TcpToUdpSocketMap.cpp:7-13 | The mapped UDP socket, or -1. |
| SocketMaps.RemapOverwrites | src/server/TcpToUdpSocketMap.cpp:3-13 | A second mapping overwrites the first; an unmapped socket gives -1. |
| ClientUdpSockets.InKeyOrder | src/server/ClientUdpSocketManager.h:71-79 | Lists each stored socket once, by ascending client id. |
| ClientUdpSockets.InKeyOrderCovers | src/server/ClientUdpSocketManager.h:71-79 | Every stored socket is among those cleanup closes. |
| ClientUdpSockets.ClientUdpSocketManager.GetOrCreateUdpSocket | src/server/ClientUdpSocketManager.h:21-45 | An existing socket is returned. A failed creation returns -1. A failed switch to non-blocking mode closes the new socket and returns -1. Only a socket passing both is stored. |
| ClientUdpSockets.ClientUdpSocketManager.GetUdpSocket | src/server/ClientUdpSocketManager.h:48-57 | -1 exactly when the client has no socket; nothing is inserted. |
| ClientUdpSockets.ClientUdpSocketManager.RemoveUdpSocket | src/server/ClientUdpSocketManager.h:60-68 | Closes and forgets the client's socket, if any. |
| ClientUdpSockets.ClientUdpSocketManager.Cleanup | src/server/ClientUdpSocketManager.h:71-79 | Closes every socket by ascending client id, then empties the map. |
| QueueManagers.GetOrCreate | src/common/QueueManager.cpp:3-16 | The stored queue, or a new empty one that is then stored. |
| QueueManagers.QueueManager.GetTcpToUdpQueueForClient | src/common/QueueManager.cpp:18-20 | The same queue for the same client every time, and distinct from every other queue. The other direction's map is untouched. |
| QueueManagers.QueueManager.GetUdpToTcpQueueForClient | src/common/QueueManager.cpp:22-24 | As above, for the other direction. |
| QueueManagers.SeparateDirections | src/common/QueueManager.cpp:3-24 | One client gets two different queues, one per direction, and the same one again on a repeat. |
| QueueManagers.ServerQueueManager.GetQueueForClient | src/server/ServerQueueManager.cpp:3-16 | Get-or-create with one queue per client. |
| Peers.Peer.constructor | src/server/Peer.cpp:84-86 | The address is set, with no sockets and an unset UDP socket. |
| Peers.Peer.Default | src/server/Peer.h:15 | The default peer: empty address, no sockets, unset UDP socket. |
| Peers.Peer.GetIpAddress | src/server/Peer.cpp:6-9 | The address. |
| Peers.Peer.AddSocket | src/server/Peer.cpp:11-14 | Appends, with no cap and no duplicate check. |
| Peers.Peer.GetSocketCount | src/server/Peer.cpp:16-20 | The number of sockets. |
| Peers.Peer.SetUdpSocket | src/server/Peer.cpp:22-25 | Sets only the UDP socket. |
| Peers.Peer.SetUdpAddress | src/server/Peer.cpp:27-30 | Sets only the UDP address. |
| Peers.Peer.GetSockets | src/server/Peer.cpp:32-36 | The socket list. |
| Peers.Peer.GetUdpSocket | src/server/Peer.cpp:38-41 | The UDP socket. |
| Peers.Peer.RemoveAllSockets | src/server/Peer.cpp:43-48 | Forgets the TCP sockets without closing them. |
| Peers.Peer.Assign | src/server/Peer.cpp:88-99 | Copies all four fields; self-assignment changes nothing. |
| Peers.PeerManager.GetPeerByIp | src/server/Peer.cpp:50-58 | The registered peer, or null. |
| Peers.PeerManager.AddPeer | src/server/Peer.cpp:59-66 | A new address gets a fresh peer with no sockets. A registered address is left as it is. |
| Peers.PeerManager.RemovePeer | src/server/Peer.cpp:67-70 | Erases only that address. |
| Peers.PeerManager.CloseAllSockets | src/server/Peer.cpp:71-83 | Visits each peer once and closes its TCP sockets, then its UDP socket; the registry ends empty. |
| Peers.ClosingsCover | src/server/Peer.cpp:71-83 | Every descriptor of every visited peer (its TCP sockets and its UDP socket, as recorded when the sweep starts) is among those closed. |
| Peers.PeerManager.CloseEach | src/server/Peer.cpp:76-79 | SocketClose is called on each TCP socket of a peer, in order, and the registry is untouched. |
| Peers.ReAddKeepsSockets | src/server/Peer.cpp:59-66 | Re-adding a registered address keeps its two sockets. |
| Counters.Next | src/common/Counter.h:15-17 | The count moves on by one and wraps at the modulus. |
| Counters.Consecutive | src/common/Counter.h:15-17 | k calls in a row hand out n, n+1, ..., mod the modulus. |
| Counters.Counter.constructor | src/common/Counter.h:12 | Starts at 0. |
| Counters.Counter.GetAndIncrement | src/common/Counter.h:15-17 | Returns the old count and advances it by one, wrapping. |
| Counters.Counter.Reset | src/common/Counter.h:20-22 | Back to 0. |
| Counters.CountAndReset | src/common/Counter.h:12-22 | Hands out 0, 1, 2, and then 0 after a reset. |
| Handshake.MsgTypeOf | src/common/MsgDeserializer.cpp:2-9 | The first byte; none for an empty buffer. |
| Handshake.StateSyncSent.constructor | src/client/StateSyncSent.h:13 | The next state starts as SyncSent. |
| Handshake.StateSyncSent.ProcessData | src/client/StateSyncSent.cpp:11-50 | An Ack matching the sync count increments it, queues a Bind with the new value and leads to BindSent. Anything else leads to Error with nothing sent. |
| Handshake.StateSyncSent.TransitionToNextState | src/client/StateSyncSent.cpp:52-73 | Installs BindSent or Error; otherwise nothing is installed. |
| Handshake.StateBindSent.constructor | src/client/StateBindSent.h:12 | The next state starts as BindSent. |
| Handshake.StateBindSent.ProcessData | src/client/StateBindSent.cpp:9-36 | Empty data sets Error and throws. A non-Data type or an unparsable Data sets Error. Parsed Data leaves the state. |
| Handshake.StateBindSent.TransitionToNextState | src/client/StateBindSent.cpp:37-39 | Does nothing. |
| Handshake.HandshakeRun | src/client/StateSyncSent.cpp:11-73 | A matching Ack installs BindSent with Bind 1 queued; a wrong one installs Error. |
| Reverse.Reverted | src/reverse/udpserver.cpp:57-62 | The first `len` bytes are inverted; the rest stay. |
| Reverse.RevertTwice | src/reverse/udpserver.cpp:57-62 | Inverting twice restores the data. |
| Reverse.NothingBelowOne | src/reverse/udpserver.cpp:57-62 | A non-positive length changes nothing. |
| Reverse.RevertInjective | src/reverse/udpserver.cpp:57-62 | Different inputs give different outputs. |
| Reverse.RevertData | src/reverse/udpserver.cpp:57-62 | The array in place becomes `Reverted` of its old contents. |

## Left out

- Threads, mutexes, atomics and condition variables: only sequential behaviour is modelled. A wait that would never end is excluded by a precondition (BlockingQueue.Dequeue, TcpDataQueue.Dequeue, UdpDataQueue.Dequeue).
- Socket, clock and OS calls are parameters: readability, receive results, CreateSocket, SetSocketNonBlocking, and the 50 ms timer as a boolean. Logging, performance counters and singletons are left out.
- BUFFER_UDP_DATA is a constructor parameter of UdpDataQueue instead of a build flag.
- MemoryPool::trim, trimQueue and the trim thread: they scale bucket sizes by a float and run on a timer.
- MemoryPool::getRecyclableBuffer: it relies on a custom deleter.
- The capacity a resized std::vector gets is modelled as the larger of its old capacity and the new size; a freshly allocated buffer (MemoryPool.GetBuffer) has capacity exactly `size`. Real std::vector growth policies may reserve more.
- MemoryPool's size_t counters are unbounded here.
- src/common/MemoryPool.h and src/common/MemoryPool.cpp hold the same pool operations and are modelled once.
- MemoryMonitor's monitor thread, logMemoryUsage and formatMemorySize are left out. Only the alert check of one loop turn is kept (CheckUsage).
- Alert callbacks, data callbacks and the disconnect callback are identities or booleans; their effects are not modelled.
- VirtualChannel message ids and lastSendMessageId are unbounded; the 64-bit wrap of the source is not modelled.
- The UDP address of a Peer is raw bytes (a sockaddr_in). In the source it is uninitialised until set.
- Peer::RemoveSocket is declared but never defined, so it is not part of this model.
- src/tests/Peer_Test.cpp expects APIs the code lacks: a flush on re-adding a peer, integer peer ids, a socket cap. The model follows src/server/Peer.cpp.
- src/tests/ConnectionManager_Test.cpp expects connection ids to be non-zero. The code's rand() % 1000000 can return 0, and the model follows the code.
- Peers.PeerManager.CloseAllSockets: the order in which the std::unordered_map visits peers (hash order, unspecified) is modelled as some order, returned as a ghost sequence.
- A Peer with no UDP socket has SocketClose(-1) called on it, as the source does.
- SocketMaps.UdpToTcpSocketMap.RetrieveMappedTcpSocket: requires a non-empty list for the UDP socket; the source divides by zero otherwise.
- src/server/UdpToTcpSocketMap.h is out of step with its .cpp; the .cpp is followed.
- Counters: the counter is generic over a modulus. The modulus stands for the counter's integer width. CounterManager is not part of this model.
- Protobuf decoding is left out. The Ack number and whether a Data message parses are parameters of the handshake states.
- `Counter<int>::get` and `Counter<int>::incrementAndGet`, which src/client/StateSyncSent.cpp:34 and :43 call, are not defined by src/common/Counter.h (it has only getAndIncrement and reset); the model reads the counter directly and increments it before use, as the names say.
- MsgDeserializer overloads that the handshake states call but the deserializer does not define are not part of this model, and neither is src/client/CommunicateStates.h.
- Handshake.StateSyncSent.ProcessData: requires a non-null context, which the source dereferences unchecked.
- VcWire.ProcessDataBufferAsWritten: when the length decoded with ntohs is within the maximum but larger than the bytes buffered, the source copies past the end of the vector (undefined behaviour); the model returns the error ReadPastEnd instead.
- Reverse.RevertData: requires `len <= data.Length`; the source writes past the buffer otherwise.
- ConnectionRegistry.ConnectionManager.GenerateConnectionId: requires fewer than 1000000 live ids, because the source draws forever otherwise; the random draws are a free choice.
- UdpBatching.UdpDataQueue.Enqueue: requires room in the ring queue when it emits; the source spins until a consumer makes room.
- src/server/UdpDataQueue.h declares a std::queue, a plain uint8_t sendId and no dataAvailable flag, while src/server/UdpDataQueue.cpp uses a LockFreeQueue, an atomic sendId and dataAvailable. The model follows the .cpp.

## Findings

| source | as written | input that shows it | evidently intended | confidence | as-written member | corrected member |
|---|---|---|---|---|---|---|
| src/common/TcpVCReadThread.cpp:103 | The message id is sent in host order (TcpVirtualChannel.cpp:102) but decoded with ntohll. | Id 1 sent from a little-endian host is read as 2^56. | Decode in the order it was written. | not executed | VcWire.IdByteOrderMismatch | VcWire.ProcessDataPacket |
| src/common/TcpVCReadThread.cpp:111-115 | The data length is sent in host order and checked raw (line 88), but decoded with ntohs. | A 6-byte payload passes the check, is then read as length 1536, and is rejected. | One byte order for the length everywhere. | not executed | VcWire.LengthByteOrderMismatch | VcWire.ProcessDataBuffer |
| src/common/TcpVCReadThread.cpp:39-49 | The switch in processBuffer has no break or return, so every packet type falls into default and throws. | Any complete DATA packet, e.g. id 0 with 257 payload bytes. | Return the consumed size of each case. | not executed | VcWire.FallThroughThrows | VcWire.ProcessBuffer |
| src/server/TcpToQueueThread.cpp:72-87 | decodedData is cleared inside the loop before the loop test, so each receive extracts at most one frame. | Two frames received in one chunk: only the first is enqueued. | Extract every complete frame of each receive. | not executed | TcpIngress.OneFramePerReceive | TcpIngress.Drain |
| src/common/TcpVirtualChannel.cpp:136-147 | close skips connections whose connected flag is false. A failed receive or send clears the flag but keeps the descriptor, which is then never closed. | A connection on descriptor 5 whose receive failed stays open after close. | Disconnect every connection, so every descriptor is closed. | not executed | VirtualChannel.FailedConnectionLeaks | VirtualChannel.TcpVirtualChannel.Close |
| src/common/TcpVirtualChannel.cpp:50-54 | The disconnect callback skips connections whose connected flag is false, as close does. | A connection on descriptor 5 whose receive failed stays open after the callback runs. | Disconnect every connection, so every descriptor is closed. | not executed | VirtualChannel.FailedConnectionLeaksOnDisconnect | VirtualChannel.TcpVirtualChannel.OnDisconnectCorrected |
