/**
 * The receive loop of TcpVCReadThread::run: received bytes are appended to
 * bufferVector, and complete packets are processed and erased from its
 * front for as long as hasEnoughData holds. The loop uses the corrected
 * packet reader (VcWire.ProcessBuffer).
 */
module VcReader {
  import opened Bytes
  import opened VcWire

  /** The callbacks fired while draining a buffer, what is left of it, and what was thrown. */
  datatype Drained = Drained(events: seq<Event>, rest: seq<byte>, error: Option<VcError>)

  /** The inner while loop of run, as a function of the buffered bytes. */
  function Drain(buf: seq<byte>): (d: Drained)
    ensures d.error.None? ==> HasEnoughData(d.rest) == Ok(false)
    decreases |buf|
  {
    var enough := HasEnoughData(buf);
    if enough.Err? then Drained([], buf, Some(enough.error))
    else if !enough.value then Drained([], buf, None)
    else
      var p := ProcessBuffer(buf);
      var n := p.outcome.value;
      var d := Drain(buf[n..]);
      Drained(p.events + d.events, d.rest, d.error)
  }

  /** The data packets of a list of (id, payload) messages, back to back. */
  function Packets(msgs: seq<(nat, seq<byte>)>): seq<byte>
  {
    if msgs == [] then [] else DataPacket(msgs[0].0, msgs[0].1) + Packets(msgs[1..])
  }

  /** The data callbacks those messages should produce. */
  function DataEvents(msgs: seq<(nat, seq<byte>)>): (es: seq<Event>)
    ensures |es| == |msgs|
  {
    if msgs == [] then [] else [DataEvent(msgs[0].0, msgs[0].1)] + DataEvents(msgs[1..])
  }

  predicate WellFormed(msgs: seq<(nat, seq<byte>)>)
  {
    forall i :: 0 <= i < |msgs| ==> msgs[i].0 < U64 && |msgs[i].1| <= MaxDataPayloadSize
  }

  /** A stream of well-formed packets drains completely, one data callback per packet, in order. */
  lemma {:induction false} DrainPackets(msgs: seq<(nat, seq<byte>)>)
    requires WellFormed(msgs)
    ensures Drain(Packets(msgs)) == Drained(DataEvents(msgs), [], None)
  {
    if msgs != [] {
      var id, payload := msgs[0].0, msgs[0].1;
      var tail := Packets(msgs[1..]);
      ProcessDataPacket(id, payload, tail);
      var s := DataPacket(id, payload) + tail;
      assert s[MinDataPacketSize + |payload|..] == tail;
      DrainPackets(msgs[1..]);
    }
  }

  /**
   * Whether the packet at the front of a buffer is complete, and what
   * processing it yields, do not depend on bytes that arrive later.
   */
  lemma HasEnoughDataExtend(a: seq<byte>, b: seq<byte>)
    requires HasEnoughData(a).Err? || HasEnoughData(a) == Ok(true)
    ensures HasEnoughData(a + b) == HasEnoughData(a)
    ensures HasEnoughData(a) == Ok(true) ==> ProcessBuffer(a + b) == ProcessBuffer(a)
  {
    var s := a + b;
    assert s[0] == a[0];
    if |a| >= MinDataPacketSize {
      assert s[9..11] == a[9..11];
    }
    assert s[1..9] == a[1..9];
    if HasEnoughData(a) == Ok(true) && a[0] == TypeData {
      var n := MinDataPacketSize + RawDataLength(a);
      assert s[MinDataPacketSize..n] == a[MinDataPacketSize..n];
    }
  }

  /**
   * Splitting the byte stream between two receives changes nothing: draining
   * a, then draining what is left of it followed by b, fires the same
   * callbacks and leaves the same bytes as draining a + b at once.
   */
  lemma {:induction false} DrainSplit(a: seq<byte>, b: seq<byte>)
    ensures var d1 := Drain(a); var d2 := Drain(d1.rest + b);
      Drain(a + b) == Drained(d1.events + d2.events, d2.rest, d2.error)
    decreases |a|
  {
    if HasEnoughData(a) == Ok(true) {
      var n := ProcessBuffer(a).outcome.value;
      DrainSplit(a[n..], b);
      DrainSplitStep(a, b);
    } else {
      DrainSplitStop(a, b);
    }
  }

  /** DrainSplit when a holds no complete packet: a is left as it is. */
  lemma DrainSplitStop(a: seq<byte>, b: seq<byte>)
    requires HasEnoughData(a) != Ok(true)
    ensures var d1 := Drain(a); var d2 := Drain(d1.rest + b);
      Drain(a + b) == Drained(d1.events + d2.events, d2.rest, d2.error)
  {
    if HasEnoughData(a).Err? {
      HasEnoughDataExtend(a, b);
    }
    var d := Drain(a + b);
    assert Drain(a).events == [] && Drain(a).rest == a;
    assert [] + d.events == d.events;
  }

  /** DrainSplit when a starts with a complete packet, given the claim for the rest of a. */
  lemma DrainSplitStep(a: seq<byte>, b: seq<byte>)
    requires HasEnoughData(a) == Ok(true)
    requires var n := ProcessBuffer(a).outcome.value;
      var d1 := Drain(a[n..]); var d2 := Drain(d1.rest + b);
      Drain(a[n..] + b) == Drained(d1.events + d2.events, d2.rest, d2.error)
    ensures var d1 := Drain(a); var d2 := Drain(d1.rest + b);
      Drain(a + b) == Drained(d1.events + d2.events, d2.rest, d2.error)
  {
    var p := ProcessBuffer(a);
    var n := p.outcome.value;
    var e1 := Drain(a[n..]);
    var e2 := Drain(e1.rest + b);
    var t := Drain(a[n..] + b);
    DrainStep(a);
    DrainHead(a, b);
    Compose(p.events, e1, e2, t, Drain(a), Drain(a + b));
  }

  /** The bookkeeping of DrainSplitStep, over plain values. */
  lemma Compose(head: seq<Event>, e1: Drained, e2: Drained, t: Drained, da: Drained, dab: Drained)
    requires da == Drained(head + e1.events, e1.rest, e1.error)
    requires t == Drained(e1.events + e2.events, e2.rest, e2.error)
    requires dab == Drained(head + t.events, t.rest, t.error)
    ensures dab == Drained(da.events + e2.events, e2.rest, e2.error)
  {
    assert head + (e1.events + e2.events) == (head + e1.events) + e2.events;
  }

  /** Draining a + b when a starts with a complete packet: that packet is processed first. */
  lemma DrainHead(a: seq<byte>, b: seq<byte>)
    requires HasEnoughData(a) == Ok(true)
    ensures var p := ProcessBuffer(a); var t := Drain(a[p.outcome.value..] + b);
      Drain(a + b) == Drained(p.events + t.events, t.rest, t.error)
  {
    HasEnoughDataExtend(a, b);
    var n := ProcessBuffer(a).outcome.value;
    assert (a + b)[n..] == a[n..] + b;
    DrainStep(a + b);
  }

  /** One turn of the inner loop, when a complete packet is buffered. */
  lemma DrainStep(buf: seq<byte>)
    requires HasEnoughData(buf) == Ok(true)
    ensures var p := ProcessBuffer(buf); var d := Drain(buf[p.outcome.value..]);
      Drain(buf) == Drained(p.events + d.events, d.rest, d.error)
  {
  }

  /** A drain resumed after `fired` was already fired. */
  function Resumed(fired: seq<Event>, d: Drained): Drained
  {
    Drained(fired + d.events, d.rest, d.error)
  }

  /** One turn of the inner loop, seen from the loop's start. */
  lemma DrainAdvance(buf: seq<byte>, fired: seq<Event>)
    requires HasEnoughData(buf) == Ok(true)
    ensures var p := ProcessBuffer(buf);
      Resumed(fired, Drain(buf)) == Resumed(fired + p.events, Drain(buf[p.outcome.value..]))
  {
    var p := ProcessBuffer(buf);
    var d := Drain(buf[p.outcome.value..]);
    DrainStep(buf);
    assert fired + (p.events + d.events) == (fired + p.events) + d.events;
  }

  /** The inner loop ends, without a complete packet or with an exception. */
  lemma DrainStops(buf: seq<byte>, fired: seq<Event>)
    requires HasEnoughData(buf) != Ok(true)
    ensures Resumed(fired, Drain(buf)) ==
      Drained(fired, buf, if HasEnoughData(buf).Err? then Some(HasEnoughData(buf).error) else None)
  {
    assert fired + [] == fired;
  }

  /** A TcpVCReadThread: the bytes buffered so far and the callbacks it has fired. */
  class TcpVCReadThread {
    var bufferVector: seq<byte>
    /** The data and ACK callbacks fired so far, in order. */
    var events: seq<Event>
    /** The exception that ended the thread, if any. */
    var failure: Option<VcError>

    /** What is buffered never holds a complete packet between two receives. */
    ghost predicate Valid()
      reads this
    {
      failure.None? ==> HasEnoughData(bufferVector) == Ok(false)
    }

    constructor ()
      ensures Valid() && bufferVector == [] && events == [] && failure == None
    {
      bufferVector := [];
      events := [];
      failure := None;
    }

    /**
     * One iteration of the outer loop of run: `chunk` is what
     * connection->receive returned (empty when it returned 0).
     */
    method ReceiveAndProcess(chunk: seq<byte>)
      requires Valid() && failure.None?
      modifies this
      ensures Valid()
      ensures var d := Drain(old(bufferVector) + chunk);
        events == old(events) + d.events && bufferVector == d.rest && failure == d.error
    {
      bufferVector := bufferVector + chunk;
      ghost var start := bufferVector;
      ghost var fired: seq<Event> := [];
      assert Resumed(fired, Drain(start)) == Drain(start);
      while true
        invariant failure.None?
        invariant Drain(start) == Resumed(fired, Drain(bufferVector))
        invariant events == old(events) + fired
        decreases |bufferVector|
      {
        var enough := HasEnoughData(bufferVector);
        if enough.Err? {
          DrainStops(bufferVector, fired);
          failure := Some(enough.error);
          return;
        }
        if !enough.value {
          DrainStops(bufferVector, fired);
          break;
        }
        var processed := ProcessBuffer(bufferVector);
        var consumed := processed.outcome.value;
        DrainAdvance(bufferVector, fired);
        events := events + processed.events;
        fired := fired + processed.events;
        if consumed > 0 {
          bufferVector := bufferVector[consumed..];
        } else {
          break;
        }
      }
    }
  }
}
