/**
 * The UVT ("UDP over TCP") framing: each UDP datagram travels on the TCP
 * stream behind a 4-byte header holding the payload length (network
 * order), a one-byte message id and the XOR checksum of the payload.
 * Also the 4-byte MsgBind / MsgBindResponse records that are copied
 * bytewise (host order) onto the stream.
 *
 * Output vectors passed by reference are ByteVector objects that the
 * Append operations extend in place.
 */
module Uvt {
  import opened Bytes

  /** sizeof(UvtHeader): u16 size, u8 id, u8 checksum. */
  const HeaderSize: nat := 4

  /** sizeof(MsgBind) and sizeof(MsgBindResponse): one u32 each. */
  const BindSize: nat := 4

  // ---------------------------------------------------------------------
  // Checksum

  /** The XOR of all bytes of s, folded from the left as the loop does. */
  function Checksum(s: seq<byte>): byte
  {
    if s == [] then 0 else Checksum(s[..|s| - 1]) ^ s[|s| - 1]
  }

  /** xor_checksum: XOR of the first `length` bytes of `buffer`. */
  method XorChecksum(buffer: seq<byte>, length: nat) returns (r: byte)
    requires length <= |buffer|
    ensures r == Checksum(buffer[..length])
  {
    r := 0;
    for i := 0 to length
      invariant r == Checksum(buffer[..i])
    {
      assert buffer[..i + 1][..i] == buffer[..i];
      r := r ^ buffer[i];
    }
  }

  /** UvtUtils::validateChecksum. */
  function ValidateChecksum(s: seq<byte>, checksum: byte): bool
  {
    Checksum(s) == checksum
  }

  /** The checksum of a concatenation is the XOR of the parts' checksums. */
  lemma {:induction false} ChecksumAppend(a: seq<byte>, b: seq<byte>)
    ensures Checksum(a + b) == Checksum(a) ^ Checksum(b)
  {
    if b == [] {
      assert a + b == a;
    } else {
      var b' := b[..|b| - 1];
      assert (a + b)[..|a + b| - 1] == a + b';
      ChecksumAppend(a, b');
    }
  }

  /** The checksum of a single byte is that byte. */
  lemma ChecksumSingle(x: byte)
    ensures Checksum([x]) == x
  {
    assert [x][..0] == [];
  }

  /** The order of the bytes does not matter: swapping two halves keeps it. */
  lemma ChecksumSwap(a: seq<byte>, b: seq<byte>)
    ensures Checksum(a + b) == Checksum(b + a)
  {
    ChecksumAppend(a, b);
    ChecksumAppend(b, a);
  }

  /** The order of the bytes does not matter at all: any permutation keeps the checksum. */
  lemma {:induction false} ChecksumPermutation(a: seq<byte>, b: seq<byte>)
    requires multiset(a) == multiset(b)
    ensures Checksum(a) == Checksum(b)
    decreases |b|
  {
    if b != [] {
      var x := b[|b| - 1];
      var b' := b[..|b| - 1];
      assert b == b' + [x];
      assert x in multiset(a);
      var i :| 0 <= i < |a| && a[i] == x;
      var a' := a[..i] + a[i + 1..];
      assert a == a[..i] + [x] + a[i + 1..];
      DropOne(a, i);
      DropOne(b, |b| - 1);
      assert b[..|b| - 1] + b[|b|..] == b';
      ChecksumPermutation(a', b');
      ChecksumAppend(a[..i] + [x], a[i + 1..]);
      ChecksumAppend(a[..i], [x]);
      ChecksumAppend(a[..i], a[i + 1..]);
      ChecksumSingle(x);
      XorRotate(Checksum(a[..i]), x, Checksum(a[i + 1..]));
    }
  }

  /** Dropping the byte at i removes one copy of it from the multiset. */
  lemma DropOne(s: seq<byte>, i: nat)
    requires i < |s|
    ensures multiset(s[..i] + s[i + 1..]) == multiset(s) - multiset{s[i]}
  {
    assert s == s[..i] + [s[i]] + s[i + 1..];
    assert multiset(s) == multiset(s[..i]) + multiset{s[i]} + multiset(s[i + 1..]);
  }

  lemma XorRotate(c: byte, x: byte, d: byte)
    ensures (c ^ x) ^ d == (c ^ d) ^ x
  {
  }

  /** A payload validates against its own checksum. */
  lemma ValidateOwnChecksum(s: seq<byte>)
    ensures ValidateChecksum(s, Checksum(s))
  {
  }

  /** Any single corrupted byte makes validation fail. */
  lemma ValidateDetectsSingleByteChange(a: seq<byte>, x: byte, y: byte, b: seq<byte>)
    requires x != y
    ensures !ValidateChecksum(a + [y] + b, Checksum(a + [x] + b))
  {
    ChecksumAppend(a + [x], b);
    ChecksumAppend(a + [y], b);
    ChecksumAppend(a, [x]);
    ChecksumAppend(a, [y]);
    ChecksumSingle(x);
    ChecksumSingle(y);
    var ca, cb := Checksum(a), Checksum(b);
    XorCancel(ca, x, y, cb);
  }

  lemma XorCancel(c: byte, x: byte, y: byte, d: byte)
    requires x != y
    ensures (c ^ x) ^ d != (c ^ y) ^ d
  {
  }

  /** The checksum of the bytes 1, 2, 3, 4 is 4. */
  lemma ChecksumExample()
    ensures Checksum([1, 2, 3, 4]) == 4
  {
    var s: seq<byte> := [1, 2, 3, 4];
    assert s[..3] == [1, 2, 3];
    assert s[..3][..2] == [1, 2];
    assert s[..3][..2][..1] == [1];
    ChecksumSingle(1);
  }

  // ---------------------------------------------------------------------
  // UDP data frames

  /**
   * The frame AppendUdpData writes for `data` with message id `id`: the
   * payload length truncated to 16 bits in network order, the id, the
   * checksum, then the payload itself.
   */
  function Frame(data: seq<byte>, id: byte): (f: seq<byte>)
    ensures |f| == HeaderSize + |data|
  {
    BE(|data| % U16, 2) + [id, Checksum(data)] + data
  }

  /** A std::vector<uint8_t> passed by reference as an output buffer. */
  class ByteVector {
    var bytes: seq<byte>

    constructor ()
      ensures bytes == []
    {
      bytes := [];
    }
  }

  /**
   * UvtUtils::AppendUdpData: the output buffer grows by one frame; the
   * bytes already in it are kept.
   */
  method AppendUdpData(data: seq<byte>, id: byte, output: ByteVector)
    modifies output
    ensures output.bytes == old(output.bytes) + Frame(data, id)
  {
    output.bytes := output.bytes + Frame(data, id);
  }

  /** The frames of a list of (payload, id) pairs, back to back. */
  function Frames(fs: seq<(seq<byte>, byte)>): (r: seq<byte>)
    ensures fs == [] <==> r == []
  {
    if fs == [] then [] else Frame(fs[0].0, fs[0].1) + Frames(fs[1..])
  }

  /** The payloads of a list of (payload, id) pairs. */
  function Payloads(fs: seq<(seq<byte>, byte)>): (ps: seq<seq<byte>>)
    ensures |ps| == |fs| && forall i :: 0 <= i < |fs| ==> ps[i] == fs[i].0
  {
    if fs == [] then [] else [fs[0].0] + Payloads(fs[1..])
  }

  /** Framing distributes over concatenation. */
  lemma {:induction false} FramesAppend(fs: seq<(seq<byte>, byte)>, gs: seq<(seq<byte>, byte)>)
    ensures Frames(fs + gs) == Frames(fs) + Frames(gs)
  {
    if fs == [] {
      assert fs + gs == gs;
    } else {
      assert (fs + gs)[1..] == fs[1..] + gs;
      FramesAppend(fs[1..], gs);
    }
  }

  lemma PayloadsAppend(fs: seq<(seq<byte>, byte)>, gs: seq<(seq<byte>, byte)>)
    ensures Payloads(fs + gs) == Payloads(fs) + Payloads(gs)
  {
    assert forall i :: 0 <= i < |fs + gs| ==> Payloads(fs + gs)[i] == (Payloads(fs) + Payloads(gs))[i];
  }

  lemma FramesSingle(data: seq<byte>, id: byte)
    ensures Frames([(data, id)]) == Frame(data, id)
  {
    assert [(data, id)][1..] == [];
  }

  /** The four header bytes and the payload of a frame, read back by position. */
  lemma FrameLayout(h: seq<byte>, id: byte, c: byte, data: seq<byte>)
    requires |h| == 2
    ensures (h + [id, c] + data)[..2] == h
    ensures (h + [id, c] + data)[2] == id && (h + [id, c] + data)[3] == c
    ensures (h + [id, c] + data)[HeaderSize..] == data
  {
  }

  /** The header of a frame decodes to the length, the id and the checksum. */
  lemma FrameHeader(data: seq<byte>, id: byte)
    requires |data| < U16
    ensures ReadBE(Frame(data, id)[..2]) == |data|
    ensures Frame(data, id)[2] == id && Frame(data, id)[3] == Checksum(data)
    ensures Frame(data, id)[HeaderSize..] == data
  {
    FrameLayout(BE(|data| % U16, 2), id, Checksum(data), data);
    BE2RoundTrip(|data|);
  }

  datatype ExtractError = ChecksumMismatch

  /**
   * What ExtractUdpData leaves behind: the payload placed in the output
   * buffer (empty when no complete frame is available) and the bytes not
   * yet consumed, which it returns.
   */
  datatype Extraction = Extraction(output: seq<byte>, remaining: seq<byte>)

  /**
   * UvtUtils::ExtractUdpData. Fewer bytes than a header, or than the
   * header announces, leave everything in place; a checksum mismatch is
   * the logic_error the source throws.
   */
  function ExtractUdpData(data: seq<byte>): (r: Result<Extraction, ExtractError>)
    ensures r.Ok? && r.value.remaining == data ==> r.value.output == []
    ensures r.Ok? && r.value.remaining != data ==>
      |r.value.output| < U16 && |data| >= HeaderSize &&
      data == Frame(r.value.output, data[2]) + r.value.remaining
    ensures r.Err? ==>
      |data| >= HeaderSize && HeaderSize + ReadBE(data[..2]) <= |data| &&
      !ValidateChecksum(data[HeaderSize..HeaderSize + ReadBE(data[..2])], data[3])
  {
    if |data| < HeaderSize then Ok(Extraction([], data))
    else
      var length := ReadBE(data[..2]);
      if HeaderSize + length > |data| then Ok(Extraction([], data))
      else
        var payload := data[HeaderSize..HeaderSize + length];
        if Checksum(payload) == data[3] then
          ExtractedIsFrame(data, length);
          Ok(Extraction(payload, data[HeaderSize + length..]))
        else Err(ChecksumMismatch)
  }

  /** A complete, valid frame at the front of data is exactly Frame(payload, id). */
  lemma ExtractedIsFrame(data: seq<byte>, length: nat)
    requires |data| >= HeaderSize && length == ReadBE(data[..2])
    requires HeaderSize + length <= |data|
    requires Checksum(data[HeaderSize..HeaderSize + length]) == data[3]
    ensures length < U16
    ensures data == Frame(data[HeaderSize..HeaderSize + length], data[2]) + data[HeaderSize + length..]
  {
    var payload := data[HeaderSize..HeaderSize + length];
    BE2OfReadBE(data[..2]);
    assert Frame(payload, data[2]) == data[..2] + [data[2], data[3]] + payload;
    HeaderSplit(data, length);
  }

  /** Cutting a buffer into length field, id, checksum, payload and rest. */
  lemma HeaderSplit(data: seq<byte>, length: nat)
    requires HeaderSize + length <= |data|
    ensures data == data[..2] + [data[2], data[3]] + data[HeaderSize..HeaderSize + length] + data[HeaderSize + length..]
  {
    assert data == data[..2] + data[2..HeaderSize] + data[HeaderSize..HeaderSize + length] + data[HeaderSize + length..];
  }

  /** Round trip: a frame followed by anything extracts to its payload. */
  lemma ExtractFrame(data: seq<byte>, id: byte, rest: seq<byte>)
    requires |data| < U16
    ensures ExtractUdpData(Frame(data, id) + rest) == Ok(Extraction(data, rest))
  {
    var s := Frame(data, id) + rest;
    FrameHeader(data, id);
    assert s[..2] == Frame(data, id)[..2];
    assert s[HeaderSize..HeaderSize + |data|] == data;
    assert s[3] == Checksum(data);
    assert s[HeaderSize + |data|..] == rest;
  }

  /** A frame cut short anywhere extracts nothing and consumes nothing. */
  lemma ExtractIncomplete(data: seq<byte>, id: byte, n: nat)
    requires |data| < U16 && n < HeaderSize + |data|
    ensures ExtractUdpData(Frame(data, id)[..n]) == Ok(Extraction([], Frame(data, id)[..n]))
  {
    var p := Frame(data, id)[..n];
    if n >= HeaderSize {
      FrameHeader(data, id);
      assert p[..2] == Frame(data, id)[..2];
    }
  }

  /** A frame whose payload was corrupted in one byte is rejected. */
  lemma ExtractCorrupted(a: seq<byte>, x: byte, y: byte, b: seq<byte>, id: byte, rest: seq<byte>)
    requires x != y && |a + [x] + b| < U16
    ensures ExtractUdpData(BE(|a + [x] + b|, 2) + [id, Checksum(a + [x] + b)] + (a + [y] + b) + rest).Err?
  {
    var good := a + [x] + b;
    var bad := a + [y] + b;
    var s := BE(|good|, 2) + [id, Checksum(good)] + bad + rest;
    BERoundTrip(|good|, 2);
    assert s[..2] == BE(|good|, 2);
    assert s[HeaderSize..HeaderSize + |bad|] == bad;
    ValidateDetectsSingleByteChange(a, x, y, b);
  }

  // ---------------------------------------------------------------------
  // Bind records (copied bytewise, so in host order)

  datatype MsgBind = MsgBind(clientId: nat)

  datatype MsgBindResponse = MsgBindResponse(connectionId: nat)

  /** The four bytes of a MsgBind struct in memory (host order). */
  function EncodeMsgBind(bind: MsgBind): (r: seq<byte>)
    ensures |r| == BindSize
  {
    LE(bind.clientId % U32, BindSize)
  }

  /** UvtUtils::AppendMsgBind: the four bytes of the struct are appended. */
  method AppendMsgBind(bind: MsgBind, output: ByteVector)
    modifies output
    ensures output.bytes == old(output.bytes) + EncodeMsgBind(bind)
  {
    output.bytes := output.bytes + EncodeMsgBind(bind);
  }

  /** UvtUtils::ExtractMsgBind: false (None) when fewer than four bytes. */
  function ExtractMsgBind(data: seq<byte>): (r: Option<MsgBind>)
    ensures r.None? <==> |data| < BindSize
    ensures r.Some? ==> r.value.clientId < U32
  {
    if |data| < BindSize then None
    else
      ReadLEBound(data[..BindSize]);
      Some(MsgBind(ReadLE(data[..BindSize])))
  }

  /** The four bytes of a MsgBindResponse struct in memory (host order). */
  function EncodeMsgBindResponse(response: MsgBindResponse): (r: seq<byte>)
    ensures |r| == BindSize
  {
    LE(response.connectionId % U32, BindSize)
  }

  /** UvtUtils::AppendMsgBindResponse. */
  method AppendMsgBindResponse(response: MsgBindResponse, output: ByteVector)
    modifies output
    ensures output.bytes == old(output.bytes) + EncodeMsgBindResponse(response)
  {
    output.bytes := output.bytes + EncodeMsgBindResponse(response);
  }

  /** UvtUtils::ExtractMsgBindResponse. */
  function ExtractMsgBindResponse(data: seq<byte>): (r: Option<MsgBindResponse>)
    ensures r.None? <==> |data| < BindSize
    ensures r.Some? ==> r.value.connectionId < U32
  {
    if |data| < BindSize then None
    else
      ReadLEBound(data[..BindSize]);
      Some(MsgBindResponse(ReadLE(data[..BindSize])))
  }

  /** A bind record written by AppendMsgBind reads back, whatever follows. */
  lemma MsgBindRoundTrip(bind: MsgBind, rest: seq<byte>)
    requires bind.clientId < U32
    ensures ExtractMsgBind(EncodeMsgBind(bind) + rest) == Some(bind)
  {
    PrefixOf(EncodeMsgBind(bind), rest);
    LE4RoundTrip(bind.clientId);
  }

  /** A bind response written by AppendMsgBindResponse reads back. */
  lemma MsgBindResponseRoundTrip(response: MsgBindResponse, rest: seq<byte>)
    requires response.connectionId < U32
    ensures ExtractMsgBindResponse(EncodeMsgBindResponse(response) + rest) == Some(response)
  {
    PrefixOf(EncodeMsgBindResponse(response), rest);
    LE4RoundTrip(response.connectionId);
  }
}
