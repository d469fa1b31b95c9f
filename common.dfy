/**
 * Conversions between numbers and 8-bit vectors, kept apart from the codecs
 * so that the solver proves them without the codec definitions in view.
 */
module ByteConversions {

  /** A number below 256 survives conversion to a byte and back. */
  lemma ByteValue(r: nat)
    requires r < 256
    ensures (r as bv8) as nat == r
  {
    if r < 64 {
      if r < 16 {} else if r < 32 {} else if r < 48 {} else {}
    } else if r < 128 {
      if r < 80 {} else if r < 96 {} else if r < 112 {} else {}
    } else if r < 192 {
      if r < 144 {} else if r < 160 {} else if r < 176 {} else {}
    } else {
      if r < 208 {} else if r < 224 {} else if r < 240 {} else {}
    }
  }

  /** A byte survives conversion to a number and back. */
  lemma NatValue(b: bv8)
    ensures (b as nat) as bv8 == b
  {
  }
}

/**
 * Shared vocabulary of the tunnel model: bytes, fixed-width unsigned
 * integers, little- and big-endian byte codecs, and the Option/Result
 * wrappers that stand for null pointers, `bool` success flags and thrown
 * exceptions in the C++ sources.
 *
 * The C++ code runs on a little-endian host (x86 or ARM), so "host order"
 * below means least significant byte first.
 */
module Bytes {
  import opened ByteConversions

  type byte = bv8

  const U8: nat := 0x100
  const U16: nat := 0x1_0000
  const U32: nat := 0x1_0000_0000
  const U64: nat := 0x1_0000_0000_0000_0000

  datatype Option<+T> = None | Some(value: T)

  datatype Result<+T, +E> = Ok(value: T) | Err(error: E)

  /** std::map<K, std::vector<V>>::operator[] read without inserting: a missing key gives an empty list. */
  function ListAt<K, V>(m: map<K, seq<V>>, key: K): (r: seq<V>)
    ensures key !in m ==> r == []
  {
    if key in m then m[key] else []
  }

  /** Concatenation is associative; stated once for the proofs that regroup appended lists. */
  lemma AppendAssoc<T>(a: seq<T>, b: seq<T>, c: seq<T>)
    ensures (a + b) + c == a + (b + c)
  {
  }

  /** 256^w: the number of values that fit in w bytes. */
  function Pow256(w: nat): (p: nat)
    ensures p >= 1
  {
    if w == 0 then 1 else 256 * Pow256(w - 1)
  }

  /** The w-byte little-endian (host order) image of n, truncated to w bytes. */
  function LE(n: nat, w: nat): (s: seq<byte>)
    ensures |s| == w
  {
    if w == 0 then [] else [(n % 256) as byte] + LE(n / 256, w - 1)
  }

  /** The value of a little-endian byte string. */
  function ReadLE(s: seq<byte>): nat
  {
    if s == [] then 0 else s[0] as nat + 256 * ReadLE(s[1..])
  }

  /** The value of a big-endian (network order) byte string. */
  function ReadBE(s: seq<byte>): nat
  {
    if s == [] then 0 else ReadBE(s[..|s| - 1]) * 256 + s[|s| - 1] as nat
  }

  /** The w-byte big-endian (network order) image of n, truncated to w bytes. */
  function BE(n: nat, w: nat): (s: seq<byte>)
    ensures |s| == w
  {
    if w == 0 then [] else BE(n / 256, w - 1) + [(n % 256) as byte]
  }

  lemma {:induction false} ReadLEBound(s: seq<byte>)
    ensures ReadLE(s) < Pow256(|s|)
  {
    if s != [] {
      ReadLEBound(s[1..]);
    }
  }

  lemma {:induction false} ReadBEBound(s: seq<byte>)
    ensures ReadBE(s) < Pow256(|s|)
  {
    if s != [] {
      ReadBEBound(s[..|s| - 1]);
    }
  }

  /** Dividing a w+1-byte value by 256 leaves a w-byte value. */
  lemma ShiftBound(n: nat, p: nat)
    requires n < 256 * p
    ensures n / 256 < p
  {
  }

  /** A value that fits in w bytes survives the little-endian round trip. */
  lemma {:induction false} LERoundTrip(n: nat, w: nat)
    requires n < Pow256(w)
    ensures ReadLE(LE(n, w)) == n
  {
    if w > 0 {
      var s := LE(n, w);
      var m, r := n / 256, n % 256;
      assert s == [r as byte] + LE(m, w - 1);
      assert s[1..] == LE(m, w - 1);
      ShiftBound(n, Pow256(w - 1));
      LERoundTrip(m, w - 1);
      assert s[0] == r as byte;
      ByteValue(r);
      assert ReadLE(s) == r + 256 * m;
    }
  }

  /** A value that fits in w bytes survives the big-endian round trip. */
  lemma {:induction false} BERoundTrip(n: nat, w: nat)
    requires n < Pow256(w)
    ensures ReadBE(BE(n, w)) == n
  {
    if w > 0 {
      var s := BE(n, w);
      var m, r := n / 256, n % 256;
      assert s == BE(m, w - 1) + [r as byte];
      assert s[..|s| - 1] == BE(m, w - 1);
      ShiftBound(n, Pow256(w - 1));
      BERoundTrip(m, w - 1);
      assert s[|s| - 1] == r as byte;
      ByteValue(r);
      assert ReadBE(s) == m * 256 + r;
    }
  }

  /** Encoding a decoded big-endian string gives the string back. */
  lemma {:induction false} BEOfReadBE(s: seq<byte>)
    ensures BE(ReadBE(s), |s|) == s
  {
    if s != [] {
      var init, last := s[..|s| - 1], s[|s| - 1];
      var v := ReadBE(s);
      assert v == ReadBE(init) * 256 + last as nat;
      assert v / 256 == ReadBE(init) && v % 256 == last as nat;
      BEOfReadBE(init);
      NatValue(last);
      assert s == init + [last];
    }
  }

  /** Encoding a decoded little-endian string gives the string back. */
  lemma {:induction false} LEOfReadLE(s: seq<byte>)
    ensures LE(ReadLE(s), |s|) == s
  {
    if s != [] {
      var first, rest := s[0], s[1..];
      var v := ReadLE(s);
      assert v == first as nat + 256 * ReadLE(rest);
      assert v / 256 == ReadLE(rest) && v % 256 == first as nat;
      LEOfReadLE(rest);
      NatValue(first);
      assert s == [first] + rest;
    }
  }

  /** The two-byte network-order length field round trip. */
  lemma BE2RoundTrip(n: nat)
    requires n < U16
    ensures ReadBE(BE(n % U16, 2)) == n
  {
    SmallMod(n, U16);
    Pow256Values();
    BERoundTrip(n, 2);
  }

  /** The four-byte host-order (little-endian) round trip. */
  lemma LE4RoundTrip(n: nat)
    requires n < U32
    ensures ReadLE(LE(n % U32, 4)) == n
  {
    SmallMod(n, U32);
    Pow256Values();
    LERoundTrip(n, 4);
  }

  /** A prefix of known length is read back from the front of a concatenation. */
  lemma PrefixOf(a: seq<byte>, rest: seq<byte>)
    ensures (a + rest)[..|a|] == a
  {
  }

  /** Any two bytes are the network-order image of the value they read as. */
  lemma BE2OfReadBE(p: seq<byte>)
    requires |p| == 2
    ensures ReadBE(p) < U16 && BE(ReadBE(p) % U16, 2) == p
  {
    ReadBEBound(p);
    Pow256Values();
    SmallMod(ReadBE(p), U16);
    BEOfReadBE(p);
  }

  /** A value below the modulus is its own remainder. */
  lemma SmallMod(x: nat, m: nat)
    requires x < m
    ensures x % m == x
  {
  }

  lemma Pow256Values()
    ensures Pow256(1) == U8 && Pow256(2) == U16 && Pow256(4) == U32 && Pow256(8) == U64
  {
  }

  lemma MulAtLeast(k: int, n: int)
    requires k >= 1 && n > 0
    ensures k * n >= n
  {
    if k > 1 {
      MulAtLeast(k - 1, n);
      assert k * n == (k - 1) * n + n;
    }
  }

  /** Quotient and remainder are unique. */
  lemma DivModUnique(a: int, d: int, r: int, n: int)
    requires n > 0 && a == d * n + r && 0 <= r < n
    ensures a % n == r
  {
    var q := a / n;
    var s := a % n;
    assert a == q * n + s;
    assert (q - d) * n == r - s;
    if q > d {
      MulAtLeast(q - d, n);
    } else if q < d {
      MulAtLeast(d - q, n);
    }
  }

  lemma ModAddMultiple(q: nat, x: nat, n: nat)
    requires n > 0
    ensures (q * n + x) % n == x % n
  {
    var d := x / n;
    var r := x % n;
    assert x == d * n + r;
    assert q * n + x == (q + d) * n + r;
    DivModUnique(q * n + x, q + d, r, n);
  }

  /** Reducing a counter modulo n first does not change where it lands after j more steps. */
  lemma ModShift(c: nat, j: nat, n: nat)
    requires n > 0
    ensures (c % n + j) % n == (c + j) % n
  {
    assert c + j == (c / n) * n + (c % n + j);
    ModAddMultiple(c / n, c % n + j, n);
  }
}
