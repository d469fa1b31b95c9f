/**
 * UdpServer::RevertData of the reverse test server: complements the first
 * `len` bytes of a buffer in place.
 */
module Reverse {
  import opened Bytes

  /** The buffer with each byte below index `len` complemented and the rest as they were. */
  function Reverted(s: seq<byte>, len: int): (r: seq<byte>)
    ensures |r| == |s|
    ensures forall i :: 0 <= i < |s| && i < len ==> r[i] == !s[i]
    ensures forall i :: 0 <= i < |s| && len <= i ==> r[i] == s[i]
  {
    seq(|s|, i requires 0 <= i < |s| => if i < len then !s[i] else s[i])
  }

  /** Reverting twice restores the buffer. */
  lemma RevertTwice(s: seq<byte>, len: int)
    ensures Reverted(Reverted(s, len), len) == s
  {
    var r := Reverted(Reverted(s, len), len);
    forall i | 0 <= i < |s|
      ensures r[i] == s[i]
    {
      if i < len {
        assert !(!s[i]) == s[i];
      }
    }
  }

  /** A length of zero or less changes nothing. */
  lemma NothingBelowOne(s: seq<byte>, len: int)
    requires len <= 0
    ensures Reverted(s, len) == s
  {
  }

  /** Reverting distinguishes buffers: no two different buffers revert to the same bytes. */
  lemma RevertInjective(s: seq<byte>, t: seq<byte>, len: int)
    requires Reverted(s, len) == Reverted(t, len)
    ensures s == t
  {
    RevertTwice(s, len);
    RevertTwice(t, len);
  }

  /**
   * RevertData: the loop runs for i from 0 while i < len; the source writes
   * past the buffer when len exceeds its length, so that is excluded.
   */
  method RevertData(data: array<byte>, len: int)
    requires len <= data.Length
    modifies data
    ensures data[..] == Reverted(old(data[..]), len)
  {
    var i := 0;
    while i < len
      invariant 0 <= i <= data.Length
      invariant len <= 0 ==> i == 0
      invariant len > 0 ==> i <= len
      invariant forall k :: 0 <= k < i ==> data[k] == !old(data[k])
      invariant forall k :: i <= k < data.Length ==> data[k] == old(data[k])
    {
      data[i] := !data[i];
      i := i + 1;
    }
    assert forall k :: 0 <= k < data.Length ==> data[k] == Reverted(old(data[..]), len)[k];
  }
}
