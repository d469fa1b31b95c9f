/**
 * The virtual-channel (VC) wire format. With 1-byte packing a packet is
 *
 *   DATA: | type 0x00 | u64 message id | u16 data length | payload |
 *   ACK:  | type 0x01 | u64 message id |
 *
 * The sender (TcpVirtualChannel::send) stores the id and the length in
 * host order, i.e. least significant byte first. The reader in
 * TcpVCReadThread checks the length in host order but decodes both fields
 * with ntohs/ntohll, and its switch falls through every case. Both the
 * reader as written and the corrected reader are modelled here.
 */
module VcWire {
  import opened Bytes

  const TypeData: byte := 0x00
  const TypeAck: byte := 0x01

  /** sizeof(VCHeader): 1-byte type + 8-byte message id. */
  const VcHeaderSize: nat := 9
  /** sizeof(VCDataPacket): header + 2-byte length, payload not counted. */
  const MinDataPacketSize: nat := 11
  /** sizeof(VCAckPacket). */
  const MinAckPacketSize: nat := 9
  const MaxDataPayloadSize: nat := 1400

  /** The logic_errors the reader throws, and reading past the buffered bytes. */
  datatype VcError = UnknownPacketType | DataLengthTooLarge | ReadPastEnd

  /** A callback invocation made by the reader. */
  datatype Event = DataEvent(messageId: nat, data: seq<byte>) | AckEvent(messageId: nat)

  /** The callbacks a processing step fired, and the bytes it consumed or what it threw. */
  datatype Processed = Processed(events: seq<Event>, outcome: Result<nat, VcError>)

  /**
   * The packet TcpVirtualChannel::send builds: type DATA, the id and the
   * payload length truncated to 16 bits, both in host order, then the payload.
   */
  function DataPacket(id: nat, payload: seq<byte>): (p: seq<byte>)
    ensures |p| == MinDataPacketSize + |payload|
  {
    [TypeData] + LE(id % U64, 8) + LE(|payload| % U16, 2) + payload
  }

  /** An ACK packet laid out like VCAckPacket, id in host order. */
  function AckPacket(id: nat): (p: seq<byte>)
    ensures |p| == MinAckPacketSize
  {
    [TypeAck] + LE(id % U64, 8)
  }

  /** The dataLength field as the struct access reads it: host order, no conversion. */
  function RawDataLength(buf: seq<byte>): nat
    requires |buf| >= MinDataPacketSize
  {
    ReadLE(buf[9..11])
  }

  /** TcpVCReadThread::hasEnoughDataForData. */
  function HasEnoughDataForData(buf: seq<byte>): (r: Result<bool, VcError>)
    ensures r.Err? <==> |buf| >= MinDataPacketSize && RawDataLength(buf) > MaxDataPayloadSize
    ensures r == Ok(true) <==>
      |buf| >= MinDataPacketSize && RawDataLength(buf) <= MaxDataPayloadSize &&
      |buf| >= MinDataPacketSize + RawDataLength(buf)
  {
    if |buf| < MinDataPacketSize then Ok(false)
    else
      var length := RawDataLength(buf);
      if length > MaxDataPayloadSize then Err(DataLengthTooLarge)
      else Ok(|buf| >= MinDataPacketSize + length)
  }

  /** TcpVCReadThread::hasEnoughData: is one complete packet buffered? */
  function HasEnoughData(buf: seq<byte>): (r: Result<bool, VcError>)
    ensures |buf| < MinAckPacketSize ==> r == Ok(false)
    ensures r == Ok(true) ==>
      |buf| >= MinAckPacketSize &&
      (buf[0] == TypeAck ||
       (buf[0] == TypeData && |buf| >= MinDataPacketSize &&
        RawDataLength(buf) <= MaxDataPayloadSize &&
        |buf| >= MinDataPacketSize + RawDataLength(buf)))
    ensures |buf| >= MinAckPacketSize && buf[0] != TypeAck && buf[0] != TypeData ==>
      r == Err(UnknownPacketType)
  {
    if |buf| < MinAckPacketSize then Ok(false)
    else if buf[0] == TypeAck then Ok(|buf| >= MinAckPacketSize)
    else if buf[0] == TypeData then HasEnoughDataForData(buf)
    else Err(UnknownPacketType)
  }

  // ---------------------------------------------------------------------
  // The reader as written: network-order decoding and a fall-through switch

  /** ntohll / ntohs applied to host-order bytes: the bytes read most significant first. */
  function DecodeAsWritten(field: seq<byte>): nat
  {
    ReadBE(field)
  }

  /** processAckBuffer as written: the ACK callback gets ntohll of the id; 9 bytes consumed. */
  function ProcessAckBufferAsWritten(buf: seq<byte>): (r: Processed)
    requires |buf| >= MinAckPacketSize
    ensures r.outcome == Ok(MinAckPacketSize) && |r.events| == 1 && r.events[0].AckEvent?
  {
    Processed([AckEvent(DecodeAsWritten(buf[1..9]))], Ok(MinAckPacketSize))
  }

  /**
   * processDataBuffer as written: the length is decoded with ntohs, checked
   * against 1400, and that many bytes after the 11-byte header go to the
   * data callback with ntohll of the id. Reading past the buffered bytes
   * (which the raw-order check does not exclude) is ReadPastEnd.
   */
  function ProcessDataBufferAsWritten(buf: seq<byte>): (r: Processed)
    ensures r.outcome.Ok? ==> |r.events| == 1 && MinDataPacketSize <= r.outcome.value <= |buf|
  {
    if |buf| < MinDataPacketSize then Processed([], Err(ReadPastEnd))
    else
      var length := DecodeAsWritten(buf[9..11]);
      if length > MaxDataPayloadSize then Processed([], Err(DataLengthTooLarge))
      else if MinDataPacketSize + length > |buf| then Processed([], Err(ReadPastEnd))
      else
        var data := buf[MinDataPacketSize..MinDataPacketSize + length];
        Processed([DataEvent(DecodeAsWritten(buf[1..9]), data)], Ok(MinDataPacketSize + length))
  }

  /**
   * processBuffer as written: ACK falls into DATA, which falls into the
   * default case, so every path ends in an exception (after firing the
   * callbacks of the cases it passed through).
   */
  function ProcessBufferAsWritten(buf: seq<byte>): (r: Processed)
    requires |buf| >= MinAckPacketSize
    ensures r.outcome.Err?
  {
    var ackEvents := if buf[0] == TypeAck then ProcessAckBufferAsWritten(buf).events else [];
    if buf[0] == TypeAck || buf[0] == TypeData then
      var d := ProcessDataBufferAsWritten(buf);
      Processed(ackEvents + d.events, if d.outcome.Err? then d.outcome else Err(UnknownPacketType))
    else
      Processed([], Err(UnknownPacketType))
  }

  // ---------------------------------------------------------------------
  // The corrected reader: host-order decoding, one case per packet type

  /** The id and length decoded in the order the sender wrote them. */
  function DecodeField(field: seq<byte>): nat
  {
    ReadLE(field)
  }

  /** processAckBuffer: the ACK callback gets the sender's id; 9 bytes consumed. */
  function ProcessAckBuffer(buf: seq<byte>): (r: Processed)
    requires |buf| >= MinAckPacketSize
    ensures r.outcome == Ok(MinAckPacketSize) && |r.events| == 1 && r.events[0].AckEvent?
  {
    Processed([AckEvent(DecodeField(buf[1..9]))], Ok(MinAckPacketSize))
  }

  /** processDataBuffer, decoding the length and id in host order. */
  function ProcessDataBuffer(buf: seq<byte>): (r: Processed)
    requires HasEnoughDataForData(buf) == Ok(true)
    ensures r.outcome.Ok? && |r.events| == 1 && r.events[0].DataEvent?
    ensures MinDataPacketSize <= r.outcome.value <= |buf|
    ensures |r.events[0].data| <= MaxDataPayloadSize
    ensures buf[..r.outcome.value] == buf[..MinDataPacketSize] + r.events[0].data
  {
    var length := DecodeField(buf[9..11]);
    var data := buf[MinDataPacketSize..MinDataPacketSize + length];
    assert buf[..MinDataPacketSize + length] == buf[..MinDataPacketSize] + data;
    Processed([DataEvent(DecodeField(buf[1..9]), data)], Ok(MinDataPacketSize + length))
  }

  /**
   * processBuffer with a break after each case: once hasEnoughData holds,
   * exactly one callback fires and a non-empty prefix of the buffer is
   * consumed, so the read loop always makes progress.
   */
  function ProcessBuffer(buf: seq<byte>): (r: Processed)
    requires HasEnoughData(buf) == Ok(true)
    ensures r.outcome.Ok? && 0 < r.outcome.value <= |buf| && |r.events| == 1
    ensures buf[0] == TypeAck ==> r.outcome.value == MinAckPacketSize && r.events[0].AckEvent?
    ensures buf[0] == TypeData ==> r.events[0].DataEvent?
  {
    if buf[0] == TypeAck then ProcessAckBuffer(buf) else ProcessDataBuffer(buf)
  }

  // ---------------------------------------------------------------------
  // Properties of the format and of the corrected reader

  /** Packet types, packed sizes and the payload limit. */
  lemma Layout()
    ensures TypeData == 0 && TypeAck == 1
    ensures MinAckPacketSize == VcHeaderSize == 1 + 8
    ensures MinDataPacketSize == VcHeaderSize + 2
    ensures |DataPacket(0, [])| == MinDataPacketSize && |AckPacket(0)| == MinAckPacketSize
  {
  }

  /** The fields of a data packet sit where the packed struct puts them. */
  lemma DataPacketFields(id: nat, payload: seq<byte>, rest: seq<byte>)
    requires id < U64 && |payload| < U16
    ensures var s := DataPacket(id, payload) + rest;
      s[0] == TypeData && s[1..9] == LE(id, 8) && s[9..11] == LE(|payload|, 2) &&
      s[11..11 + |payload|] == payload && s[11 + |payload|..] == rest
  {
    SmallMod(id, U64);
    SmallMod(|payload|, U16);
    var s := DataPacket(id, payload) + rest;
    assert s == [TypeData] + LE(id, 8) + LE(|payload|, 2) + payload + rest;
  }

  /** A complete data packet is recognised, whatever follows it. */
  lemma HasEnoughDataForPacket(id: nat, payload: seq<byte>, rest: seq<byte>)
    requires id < U64 && |payload| <= MaxDataPayloadSize
    ensures HasEnoughData(DataPacket(id, payload) + rest) == Ok(true)
  {
    DataPacketFields(id, payload, rest);
    LERoundTrip(|payload|, 2);
  }

  /** Any strict prefix of a data packet is "not enough data", never an error. */
  lemma HasEnoughDataIncomplete(id: nat, payload: seq<byte>, n: nat)
    requires id < U64 && |payload| <= MaxDataPayloadSize
    requires n < MinDataPacketSize + |payload|
    ensures HasEnoughData(DataPacket(id, payload)[..n]) == Ok(false)
  {
    var s := DataPacket(id, payload);
    DataPacketFields(id, payload, []);
    assert s + [] == s;
    if n >= MinDataPacketSize {
      assert s[..n][9..11] == s[9..11];
      LERoundTrip(|payload|, 2);
    }
  }

  /** A payload over 1400 bytes makes the reader throw as soon as its header is buffered. */
  lemma OversizedPayloadRejected(id: nat, payload: seq<byte>, rest: seq<byte>)
    requires id < U64 && MaxDataPayloadSize < |payload| < U16
    ensures HasEnoughData(DataPacket(id, payload) + rest) == Err(DataLengthTooLarge)
  {
    DataPacketFields(id, payload, rest);
    LERoundTrip(|payload|, 2);
  }

  /** Round trip: the corrected reader hands the sender's id and payload to the data callback. */
  lemma ProcessDataPacket(id: nat, payload: seq<byte>, rest: seq<byte>)
    requires id < U64 && |payload| <= MaxDataPayloadSize
    ensures HasEnoughData(DataPacket(id, payload) + rest) == Ok(true)
    ensures ProcessBuffer(DataPacket(id, payload) + rest) ==
      Processed([DataEvent(id, payload)], Ok(MinDataPacketSize + |payload|))
  {
    HasEnoughDataForPacket(id, payload, rest);
    DataPacketFields(id, payload, rest);
    LERoundTrip(|payload|, 2);
    LERoundTrip(id, 8);
  }

  /** Round trip for ACK packets. */
  lemma ProcessAckPacket(id: nat, rest: seq<byte>)
    requires id < U64
    ensures HasEnoughData(AckPacket(id) + rest) == Ok(true)
    ensures ProcessBuffer(AckPacket(id) + rest) == Processed([AckEvent(id)], Ok(MinAckPacketSize))
  {
    SmallMod(id, U64);
    var s := AckPacket(id) + rest;
    assert s[1..9] == LE(id, 8);
    LERoundTrip(id, 8);
  }

  // ---------------------------------------------------------------------
  // Discrepancies of the reader as written

  /** A concrete id: the sender writes 1, ntohll reads 2^56. */
  lemma IdByteOrderMismatch(payload: seq<byte>)
    ensures DataPacket(1, payload)[1..9] == [1, 0, 0, 0, 0, 0, 0, 0]
    ensures DecodeAsWritten(DataPacket(1, payload)[1..9]) == 0x0100_0000_0000_0000
    ensures DecodeField(DataPacket(1, payload)[1..9]) == 1
  {
    SmallMod(1, U64);
    var s := DataPacket(1, payload);
    var le: seq<byte> := [1, 0, 0, 0, 0, 0, 0, 0];
    OneHostOrder();
    assert s[1..9] == le;
    var a: seq<byte> := [1];
    assert a[..0] == [];
    var k := 1;
    while k < 8
      invariant 1 <= k <= 8 && a == le[..k]
      invariant ReadBE(a) == Pow256(k - 1)
    {
      AppendZeroBE(a);
      a := a + [0];
      k := k + 1;
    }
    assert a == le;
    LERoundTrip(1, 8);
    Pow256Values();
    assert Pow256(8) == 256 * Pow256(7);
  }

  /** The id 1 in host order: a one followed by seven zero bytes. */
  lemma OneHostOrder()
    ensures LE(1, 8) == [1, 0, 0, 0, 0, 0, 0, 0]
  {
    var zeros: seq<byte> := [0, 0, 0, 0, 0, 0, 0];
    LEZero(7);
    assert LE(0, 7) == zeros;
    assert LE(1, 8) == [1] + LE(0, 7);
  }

  /** Appending a zero byte multiplies a network-order value by 256. */
  lemma AppendZeroBE(s: seq<byte>)
    ensures ReadBE(s + [0]) == ReadBE(s) * 256
  {
    assert (s + [0])[..|s|] == s;
  }

  /**
   * A 6-byte payload: the raw-order check accepts the 17-byte packet, then
   * ntohs turns the length 6 into 0x0600 = 1536 and the reader throws.
   */
  lemma LengthByteOrderMismatch(id: nat, payload: seq<byte>)
    requires id < U64 && |payload| == 6
    ensures HasEnoughData(DataPacket(id, payload)) == Ok(true)
    ensures ProcessDataBufferAsWritten(DataPacket(id, payload)).outcome == Err(DataLengthTooLarge)
    ensures ProcessDataBuffer(DataPacket(id, payload)).outcome == Ok(17)
  {
    var s := DataPacket(id, payload);
    HasEnoughDataForPacket(id, payload, []);
    DataPacketFields(id, payload, []);
    assert s + [] == s;
    var six: seq<byte> := [6];
    assert LE(6, 2) == six + [0];
    assert six[..0] == [];
    AppendZeroBE(six);
    assert DecodeAsWritten(s[9..11]) == 1536;
    LERoundTrip(6, 2);
  }

  /**
   * The fall-through: even a packet the corrected reader handles cleanly
   * (a 257-byte payload, whose length bytes read the same in both orders)
   * fires its callback and then throws "Unknown packet type".
   */
  lemma FallThroughThrows(payload: seq<byte>)
    requires |payload| == 257
    ensures HasEnoughData(DataPacket(0, payload)) == Ok(true)
    ensures ProcessBufferAsWritten(DataPacket(0, payload)) ==
      Processed([DataEvent(0, payload)], Err(UnknownPacketType))
    ensures ProcessBuffer(DataPacket(0, payload)) ==
      Processed([DataEvent(0, payload)], Ok(MinDataPacketSize + 257))
  {
    var s := DataPacket(0, payload);
    assert s + [] == s;
    ProcessDataPacket(0, payload, []);
    DataPacketFields(0, payload, []);
    SymmetricFields();
    assert DecodeAsWritten(s[9..11]) == 257 && DecodeAsWritten(s[1..9]) == 0;
  }

  /** Id 0 and length 257 decode the same in either byte order. */
  lemma SymmetricFields()
    ensures DecodeAsWritten(LE(257, 2)) == 257
    ensures DecodeAsWritten(LE(0, 8)) == 0
  {
    var one: seq<byte> := [1];
    var len := one + one;
    assert LE(257, 2) == len by {
      assert LE(1, 1) == one + LE(0, 0);
    }
    assert len[..1] == one && one[..0] == [];
    assert ReadBE(one) == 1;
    LEZero(8);
    ZeroBE(LE(0, 8));
  }

  /** The host-order image of zero is all zero bytes. */
  lemma {:induction false} LEZero(w: nat)
    ensures forall i :: 0 <= i < w ==> LE(0, w)[i] == 0
  {
    if w > 0 {
      LEZero(w - 1);
      assert LE(0, w) == [0] + LE(0, w - 1);
    }
  }

  /** Zero bytes read as zero in network order. */
  lemma {:induction false} ZeroBE(s: seq<byte>)
    requires forall i :: 0 <= i < |s| ==> s[i] == 0
    ensures ReadBE(s) == 0
  {
    if s != [] {
      ZeroBE(s[..|s| - 1]);
    }
  }
}
