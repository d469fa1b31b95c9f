/**
 * The server's TcpToQueueThread: bytes received from a client's TCP
 * connection are appended to remainingData, UVT frames are extracted from
 * its front, and every non-empty payload is enqueued on the client's
 * TCP-to-UDP BlockingQueue.
 */
module TcpIngress {
  import opened Bytes
  import opened Uvt
  import opened Queues

  /** Return codes of RecvTcpDataNonBlocking (SocketErrorCode). */
  const SocketErrorWouldBlock: int := -1
  const SocketErrorTimeout: int := -2
  const SocketErrorClosed: int := -3

  /**
   * The payloads a receive enqueues, the bytes left in remainingData, and
   * the checksum exception that escaped, if any.
   */
  datatype Ingress = Ingress(payloads: seq<seq<byte>>, remaining: seq<byte>, error: Option<ExtractError>)

  /** An empty payload is not enqueued. */
  function Kept(payload: seq<byte>): (ps: seq<seq<byte>>)
    ensures ps == [] <==> payload == []
    ensures ps != [] ==> ps == [payload]
  {
    if payload == [] then [] else [payload]
  }

  /** The non-empty payloads of a list, in order. */
  function NonEmpty(ps: seq<seq<byte>>): (r: seq<seq<byte>>)
    ensures |r| <= |ps|
    ensures forall i :: 0 <= i < |r| ==> r[i] != []
  {
    if ps == [] then [] else Kept(ps[0]) + NonEmpty(ps[1..])
  }

  /**
   * The extraction loop of run as written: a single call of
   * ExtractUdpData per receive, because decodedData is cleared before the
   * loop condition tests its size.
   */
  function ReceiveAsWritten(remainingData: seq<byte>, received: seq<byte>): (d: Ingress)
    ensures |d.payloads| <= 1
    ensures d.error.None? ==>
      |d.remaining| <= |remainingData + received| &&
      d.remaining == (remainingData + received)[|remainingData + received| - |d.remaining|..]
  {
    var stream := remainingData + received;
    match ExtractUdpData(stream)
    case Err(e) => Ingress([], stream, Some(e))
    case Ok(x) => Ingress(Kept(x.output), x.remaining, None)
  }

  /**
   * The extraction loop as intended: extract while a frame was consumed
   * and bytes remain, enqueueing every non-empty payload.
   */
  function Drain(stream: seq<byte>): (d: Ingress)
    ensures d.error.None? ==> ExtractUdpData(d.remaining) == Ok(Extraction([], d.remaining))
    decreases |stream|
  {
    match ExtractUdpData(stream)
    case Err(e) => Ingress([], stream, Some(e))
    case Ok(x) =>
      if x.remaining == stream then Ingress([], stream, None)
      else
        var d := Drain(x.remaining);
        Ingress(Kept(x.output) + d.payloads, d.remaining, d.error)
  }

  predicate Framable(fs: seq<(seq<byte>, byte)>)
  {
    forall i :: 0 <= i < |fs| ==> |fs[i].0| < U16
  }

  /** A stream of frames drains completely, every non-empty payload once, in order. */
  lemma {:induction false} DrainFrames(fs: seq<(seq<byte>, byte)>)
    requires Framable(fs)
    ensures Drain(Frames(fs)) == Ingress(NonEmpty(Payloads(fs)), [], None)
  {
    if fs == [] {
      assert ExtractUdpData([]) == Ok(Extraction([], []));
    } else {
      var tail := Frames(fs[1..]);
      ExtractFrame(fs[0].0, fs[0].1, tail);
      assert Frame(fs[0].0, fs[0].1) + tail != tail;
      assert Payloads(fs)[1..] == Payloads(fs[1..]);
      DrainFrames(fs[1..]);
    }
  }

  /**
   * An extraction that fails or consumes a frame gives the same outcome
   * whatever bytes follow.
   */
  lemma ExtractExtend(a: seq<byte>, b: seq<byte>)
    requires ExtractUdpData(a).Err? || ExtractUdpData(a).value.remaining != a
    ensures ExtractUdpData(a).Err? ==> ExtractUdpData(a + b) == ExtractUdpData(a)
    ensures ExtractUdpData(a).Ok? ==>
      var x := ExtractUdpData(a).value;
      ExtractUdpData(a + b) == Ok(Extraction(x.output, x.remaining + b))
  {
    var s := a + b;
    if ExtractUdpData(a).Err? {
      assert s[..2] == a[..2];
      var n := HeaderSize + ReadBE(a[..2]);
      assert s[HeaderSize..n] == a[HeaderSize..n];
    } else {
      var x := ExtractUdpData(a).value;
      assert s == Frame(x.output, a[2]) + (x.remaining + b);
      ExtractFrame(x.output, a[2], x.remaining + b);
    }
  }

  /**
   * Splitting the byte stream between two receives changes nothing:
   * draining a, then what is left of it followed by b, enqueues the same
   * payloads and leaves the same bytes as draining a + b at once.
   */
  lemma {:induction false} DrainSplit(a: seq<byte>, b: seq<byte>)
    ensures var d1 := Drain(a); var d2 := Drain(d1.remaining + b);
      Drain(a + b) == Ingress(d1.payloads + d2.payloads, d2.remaining, d2.error)
    decreases |a|
  {
    var r := ExtractUdpData(a);
    if r.Ok? && r.value.remaining != a {
      DrainSplit(r.value.remaining, b);
      DrainSplitStep(a, b);
    } else {
      DrainSplitStop(a, b);
    }
  }

  /** DrainSplit when a holds no complete frame, or a corrupted one. */
  lemma DrainSplitStop(a: seq<byte>, b: seq<byte>)
    requires ExtractUdpData(a).Err? || ExtractUdpData(a).value.remaining == a
    ensures var d1 := Drain(a); var d2 := Drain(d1.remaining + b);
      Drain(a + b) == Ingress(d1.payloads + d2.payloads, d2.remaining, d2.error)
  {
    if ExtractUdpData(a).Err? {
      ExtractExtend(a, b);
    }
    var d := Drain(a + b);
    assert Drain(a).payloads == [] && Drain(a).remaining == a;
    assert [] + d.payloads == d.payloads;
  }

  /** DrainSplit when a starts with a complete frame, given the claim for the rest of a. */
  lemma DrainSplitStep(a: seq<byte>, b: seq<byte>)
    requires ExtractUdpData(a).Ok? && ExtractUdpData(a).value.remaining != a
    requires var x := ExtractUdpData(a).value;
      var d1 := Drain(x.remaining); var d2 := Drain(d1.remaining + b);
      Drain(x.remaining + b) == Ingress(d1.payloads + d2.payloads, d2.remaining, d2.error)
    ensures var d1 := Drain(a); var d2 := Drain(d1.remaining + b);
      Drain(a + b) == Ingress(d1.payloads + d2.payloads, d2.remaining, d2.error)
  {
    var x := ExtractUdpData(a).value;
    var e1 := Drain(x.remaining);
    var e2 := Drain(e1.remaining + b);
    var t := Drain(x.remaining + b);
    ExtractExtend(a, b);
    assert x.remaining + b != a + b;
    Compose(Kept(x.output), e1, e2, t, Drain(a), Drain(a + b));
  }

  /** One turn of the intended loop, when a frame is consumed. */
  lemma DrainAdvance(stream: seq<byte>)
    requires ExtractUdpData(stream).Ok? && ExtractUdpData(stream).value.remaining != stream
    ensures var x := ExtractUdpData(stream).value; var d := Drain(x.remaining);
      Drain(stream) == Ingress(Kept(x.output) + d.payloads, d.remaining, d.error)
  {
  }

  /** The bookkeeping of the loop invariant of Step, over plain values. */
  lemma Advance(total: Ingress, sent: seq<seq<byte>>, head: seq<seq<byte>>, d: Ingress, next: Ingress)
    requires total == Ingress(sent + d.payloads, d.remaining, d.error)
    requires d == Ingress(head + next.payloads, next.remaining, next.error)
    ensures total == Ingress((sent + head) + next.payloads, next.remaining, next.error)
  {
    assert sent + (head + next.payloads) == (sent + head) + next.payloads;
  }

  /** The bookkeeping of DrainSplitStep, over plain values. */
  lemma Compose(head: seq<seq<byte>>, e1: Ingress, e2: Ingress, t: Ingress, da: Ingress, dab: Ingress)
    requires da == Ingress(head + e1.payloads, e1.remaining, e1.error)
    requires t == Ingress(e1.payloads + e2.payloads, e2.remaining, e2.error)
    requires dab == Ingress(head + t.payloads, t.remaining, t.error)
    ensures dab == Ingress(da.payloads + e2.payloads, e2.remaining, e2.error)
  {
    assert head + (e1.payloads + e2.payloads) == (head + e1.payloads) + e2.payloads;
  }

  /**
   * The loop as written leaves the second of two frames received together
   * in remainingData, where the intended loop enqueues both.
   */
  lemma OneFramePerReceive(p1: seq<byte>, p2: seq<byte>)
    requires p1 != [] && p2 != [] && |p1| < U16 && |p2| < U16
    ensures ReceiveAsWritten([], Frame(p1, 0) + Frame(p2, 1)) == Ingress([p1], Frame(p2, 1), None)
    ensures Drain(Frame(p1, 0) + Frame(p2, 1)) == Ingress([p1, p2], [], None)
  {
    var fs := [(p1, 0 as byte), (p2, 1 as byte)];
    assert Frames(fs[1..][1..]) == [];
    assert Frames(fs) == Frame(p1, 0) + Frame(p2, 1);
    ExtractFrame(p1, 0, Frame(p2, 1));
    assert [] + (Frame(p1, 0) + Frame(p2, 1)) == Frame(p1, 0) + Frame(p2, 1);
    DrainFrames(fs);
    assert Payloads(fs) == [p1, p2];
    assert NonEmpty([p1, p2]) == [p1] + NonEmpty([p2]);
  }

  datatype StepResult = Continue | Stop | Failed(error: ExtractError)

  /** One TcpToQueueThread: its pending bytes and its client's TCP-to-UDP queue. */
  class TcpToQueueThread {
    /** Bytes received but not yet extracted. */
    var remainingData: seq<byte>
    /** QueueManager's TCP-to-UDP queue for this thread's client. */
    const queue: BlockingQueue
    /** The exception that ended the thread, if any. */
    var failure: Option<ExtractError>

    /** Between two receives the pending bytes hold no complete frame. */
    ghost predicate Valid()
      reads this
    {
      failure.None? ==> ExtractUdpData(remainingData) == Ok(Extraction([], remainingData))
    }

    constructor (queue: BlockingQueue)
      ensures Valid() && this.queue == queue && remainingData == [] && failure == None
    {
      this.queue := queue;
      remainingData := [];
      failure := None;
    }

    /**
     * One iteration of the main loop of run: `readable` is what
     * IsSocketReadable answered, `result` what RecvTcpDataNonBlocking
     * returned, and `received` the bytes it stored.
     */
    method Step(readable: bool, result: int, received: seq<byte>) returns (r: StepResult)
      requires Valid() && failure.None?
      requires result > 0 ==> |received| == result
      modifies this, queue
      ensures Valid() && queue.cancelled == old(queue.cancelled)
      ensures !readable || result == SocketErrorTimeout || result == SocketErrorWouldBlock ==>
        r == Continue && remainingData == old(remainingData) && queue.items == old(queue.items) && failure == None
      ensures readable && result <= 0 && result != SocketErrorTimeout && result != SocketErrorWouldBlock ==>
        r == Stop && remainingData == old(remainingData) && queue.items == old(queue.items) && failure == None
      ensures readable && result > 0 ==>
        var d := Drain(old(remainingData) + received);
        queue.items == old(queue.items) + d.payloads && remainingData == d.remaining && failure == d.error &&
        r == (if d.error.None? then Continue else Failed(d.error.value))
    {
      if !readable || result == SocketErrorTimeout || result == SocketErrorWouldBlock {
        return Continue;
      }
      if result == SocketErrorClosed || result <= 0 {
        return Stop;
      }
      remainingData := remainingData + received;
      r := ExtractAll();
    }

    /** The extraction loop of run, over everything pending. */
    method ExtractAll() returns (r: StepResult)
      requires failure.None?
      modifies this, queue
      ensures Valid() && queue.cancelled == old(queue.cancelled)
      ensures var d := Drain(old(remainingData));
        queue.items == old(queue.items) + d.payloads && remainingData == d.remaining && failure == d.error &&
        r == (if d.error.None? then Continue else Failed(d.error.value))
    {
      ghost var start := remainingData;
      ghost var sent: seq<seq<byte>> := [];
      while true
        invariant failure.None? && queue.cancelled == old(queue.cancelled)
        invariant Drain(start) == (var d := Drain(remainingData); Ingress(sent + d.payloads, d.remaining, d.error))
        invariant queue.items == old(queue.items) + sent
        decreases |remainingData|
      {
        ghost var before := queue.items;
        ghost var d := Drain(remainingData);
        var progressed := ExtractOne();
        if failure.Some? {
          assert sent + [] == sent;
          return Failed(failure.value);
        }
        if !progressed {
          break;
        }
        ghost var head := queue.items[|before|..];
        Advance(Drain(start), sent, head, d, Drain(remainingData));
        assert queue.items == before + head;
        AppendAssoc(old(queue.items), sent, head);
        sent := sent + head;
        if remainingData == [] {
          assert ExtractUdpData([]) == Ok(Extraction([], []));
          break;
        }
      }
      assert sent + [] == sent;
      r := Continue;
    }

    /**
     * One turn of the extraction loop: extract a frame from the front of
     * the pending bytes and enqueue its payload when it is not empty.
     * `progressed` tells whether a frame was consumed.
     */
    method ExtractOne() returns (progressed: bool)
      requires failure.None?
      modifies this, queue
      ensures queue.cancelled == old(queue.cancelled)
      ensures failure.Some? ==>
        !progressed && failure == Drain(old(remainingData)).error &&
        remainingData == Drain(old(remainingData)).remaining && queue.items == old(queue.items) &&
        Drain(old(remainingData)).payloads == []
      ensures failure.None? && !progressed ==>
        Drain(old(remainingData)) == Ingress([], remainingData, None) &&
        remainingData == old(remainingData) && queue.items == old(queue.items)
      ensures progressed ==>
        failure.None? && |remainingData| < |old(remainingData)| &&
        |old(queue.items)| <= |queue.items| && queue.items == old(queue.items) + queue.items[|old(queue.items)|..] &&
        Drain(old(remainingData)) ==
          (var d := Drain(remainingData); Ingress(queue.items[|old(queue.items)|..] + d.payloads, d.remaining, d.error))
    {
      var extracted := ExtractUdpData(remainingData);
      if extracted.Err? {
        failure := Some(extracted.error);
        return false;
      }
      var x := extracted.value;
      if x.remaining == remainingData {
        return false;
      }
      if x.output != [] {
        queue.Enqueue(x.output);
      }
      assert queue.items[|old(queue.items)|..] == Kept(x.output);
      DrainAdvance(remainingData);
      remainingData := x.remaining;
      progressed := true;
    }
  }
}
