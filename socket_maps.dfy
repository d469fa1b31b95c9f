/**
 * The server's two socket maps. UdpToTcpSocketMap spreads the datagrams of
 * one UDP socket over the TCP sockets mapped to it, round-robin in the
 * order they were mapped; TcpToUdpSocketMap sends what arrives on a TCP
 * socket back to one UDP socket.
 */
module SocketMaps {
  import opened Bytes

  /** The socket value returned when nothing is mapped. */
  const NoSocket: int := -1

  /** The round-robin cursor of `udp`; a missing entry reads as 0. */
  function CursorOf(m: map<int, nat>, udp: int): nat
  {
    if udp in m then m[udp] else 0
  }

  predicate NoDuplicates(s: seq<int>)
  {
    forall i, j :: 0 <= i < j < |s| ==> s[i] != s[j]
  }

  /**
   * One retrieval: the cursor is first reduced modulo the number of mapped
   * sockets, the socket there is returned and the cursor moves one past it.
   */
  function Pick(vec: seq<int>, cursor: nat): (r: (int, nat))
    requires vec != []
    ensures r.0 in vec && 1 <= r.1 <= |vec|
  {
    (vec[cursor % |vec|], cursor % |vec| + 1)
  }

  /** The sockets handed out by `k` retrievals in a row, starting from `cursor`. */
  function Retrievals(vec: seq<int>, cursor: nat, k: nat): (r: seq<int>)
    requires vec != []
    ensures |r| == k
    ensures forall i :: 0 <= i < k ==> r[i] in vec
    decreases k
  {
    if k == 0 then []
    else
      var p := Pick(vec, cursor);
      [p.0] + Retrievals(vec, p.1, k - 1)
  }

  /** The i-th of consecutive retrievals is the socket i places past the cursor, round the ring. */
  lemma {:induction false} RoundRobin(vec: seq<int>, cursor: nat, k: nat)
    requires vec != []
    ensures forall i :: 0 <= i < k ==> Retrievals(vec, cursor, k)[i] == vec[(cursor + i) % |vec|]
    decreases k
  {
    if k > 0 {
      var n := |vec|;
      var c := cursor % n + 1;
      var r := Retrievals(vec, cursor, k);
      var tail := Retrievals(vec, c, k - 1);
      RetrievalsCons(vec, cursor, k);
      RoundRobin(vec, c, k - 1);
      forall i | 0 <= i < k
        ensures r[i] == vec[(cursor + i) % n]
      {
        if i > 0 {
          assert r[i] == tail[i - 1];
          assert tail[i - 1] == vec[(c + (i - 1)) % n];
          NextCursor(cursor, i, n);
        }
      }
    }
  }

  /** The first retrieval, then the rest from the moved cursor. */
  lemma RetrievalsCons(vec: seq<int>, cursor: nat, k: nat)
    requires vec != [] && k > 0
    ensures Retrievals(vec, cursor, k) ==
      [vec[cursor % |vec|]] + Retrievals(vec, cursor % |vec| + 1, k - 1)
  {
  }

  /** Moving the cursor on by one and then i - 1 places is moving it i places. */
  lemma NextCursor(cursor: nat, i: nat, n: nat)
    requires n > 0 && i > 0
    ensures (cursor % n + 1 + (i - 1)) % n == (cursor + i) % n
  {
    ModShift(cursor, i, n);
    assert cursor % n + 1 + (i - 1) == cursor % n + i;
  }

  /** From a fresh cursor the sockets come out in the order they were mapped, then wrap. */
  lemma InsertionOrder(vec: seq<int>, k: nat)
    requires vec != []
    ensures forall i :: 0 <= i < k ==> Retrievals(vec, 0, k)[i] == vec[i % |vec|]
  {
    RoundRobin(vec, 0, k);
  }

  /** Any |vec| retrievals in a row hand out every mapped socket. */
  lemma EveryRoundVisitsAll(vec: seq<int>, cursor: nat)
    requires vec != []
    ensures forall x :: x in vec ==> x in Retrievals(vec, cursor, |vec|)
  {
    var n := |vec|;
    var r := Retrievals(vec, cursor, n);
    RoundRobin(vec, cursor, n);
    forall x | x in vec
      ensures x in r
    {
      var j :| 0 <= j < n && vec[j] == x;
      var c := cursor % n;
      var i := if c <= j then j - c else j + n - c;
      ModShift(cursor, i, n);
      assert (c + i) % n == j by {
        if c <= j {
          DivModUnique(c + i, 0, j, n);
        } else {
          DivModUnique(c + i, 1, j, n);
        }
      }
      assert r[i] == x;
    }
  }

  class UdpToTcpSocketMap {
    var socketMap: map<int, seq<int>>
    var lastMappedTcpSocketIndex: map<int, nat>

    /** mapSockets never maps the same TCP socket twice to one UDP socket. */
    ghost predicate Valid()
      reads this
    {
      forall udp :: udp in socketMap ==> NoDuplicates(socketMap[udp])
    }

    constructor ()
      ensures Valid()
      ensures socketMap == map[] && lastMappedTcpSocketIndex == map[]
    {
      socketMap := map[];
      lastMappedTcpSocketIndex := map[];
    }

    /**
     * mapSockets: appends `tcp` to the sockets of `udp` unless it is already
     * there; the entry of `udp` exists afterwards either way.
     */
    method MapSockets(udp: int, tcp: int)
      requires Valid()
      modifies this
      ensures Valid()
      ensures lastMappedTcpSocketIndex == old(lastMappedTcpSocketIndex)
      ensures socketMap == old(socketMap)[udp :=
        if tcp in ListAt(old(socketMap), udp) then ListAt(old(socketMap), udp)
        else ListAt(old(socketMap), udp) + [tcp]]
    {
      var vec := ListAt(socketMap, udp);
      socketMap := socketMap[udp := vec];
      var i := 0;
      while i < |vec|
        invariant 0 <= i <= |vec|
        invariant tcp !in vec[..i]
      {
        if vec[i] == tcp {
          return;
        }
        i := i + 1;
      }
      assert vec[..i] == vec;
      socketMap := socketMap[udp := vec + [tcp]];
    }

    /**
     * retrieveMappedTcpSocket: the socket under the cursor of `udp`, which
     * then moves on by one. With nothing mapped the source divides by zero,
     * so a mapping is required.
     */
    method RetrieveMappedTcpSocket(udp: int) returns (tcp: int)
      requires ListAt(socketMap, udp) != []
      modifies this
      ensures socketMap == old(socketMap)
      ensures tcp in socketMap[udp]
      ensures tcp == Pick(socketMap[udp], CursorOf(old(lastMappedTcpSocketIndex), udp)).0
      ensures lastMappedTcpSocketIndex == old(lastMappedTcpSocketIndex)[udp :=
        Pick(socketMap[udp], CursorOf(old(lastMappedTcpSocketIndex), udp)).1]
    {
      var vec := socketMap[udp];
      var index := CursorOf(lastMappedTcpSocketIndex, udp);
      index := index % |vec|;
      tcp := vec[index];
      lastMappedTcpSocketIndex := lastMappedTcpSocketIndex[udp := index + 1];
    }

    method Reset()
      modifies this
      ensures Valid()
      ensures socketMap == map[] && lastMappedTcpSocketIndex == map[]
    {
      socketMap := map[];
      lastMappedTcpSocketIndex := map[];
    }
  }

  /** Two TCP sockets mapped to one UDP socket are handed out alternately, the first one first. */
  method AlternatesBetweenTwo() returns (a: int, b: int, c: int)
    ensures a == 100 && b == 101 && c == 100
  {
    var m := new UdpToTcpSocketMap();
    m.MapSockets(1, 100);
    assert ListAt(m.socketMap, 1) == [100];
    m.MapSockets(1, 101);
    assert ListAt(m.socketMap, 1) == [100, 101];
    m.MapSockets(1, 100);
    assert m.socketMap[1] == [100, 101];
    PickTwo();
    a := m.RetrieveMappedTcpSocket(1);
    assert m.lastMappedTcpSocketIndex == map[1 := 1];
    b := m.RetrieveMappedTcpSocket(1);
    assert m.lastMappedTcpSocketIndex == map[1 := 2];
    c := m.RetrieveMappedTcpSocket(1);
  }

  /** The cursor over two sockets: 0 and 2 pick the first, 1 the second. */
  lemma PickTwo()
    ensures Pick([100, 101], 0) == (100, 1)
    ensures Pick([100, 101], 1) == (101, 2)
    ensures Pick([100, 101], 2) == (100, 1)
  {
  }

  /** The UDP socket mapped to `tcp`, or NoSocket. */
  function Lookup(m: map<int, int>, tcp: int): (udp: int)
    ensures tcp in m ==> udp == m[tcp]
    ensures tcp !in m ==> udp == NoSocket
  {
    if tcp in m then m[tcp] else NoSocket
  }

  class TcpToUdpSocketMap {
    var socketMap: map<int, int>

    constructor ()
      ensures socketMap == map[]
    {
      socketMap := map[];
    }

    /** mapSockets: maps `tcp` to `udp`, replacing any earlier mapping of `tcp`. */
    method MapSockets(tcp: int, udp: int)
      modifies this
      ensures Lookup(socketMap, tcp) == udp
      ensures forall t :: t != tcp ==> Lookup(socketMap, t) == Lookup(old(socketMap), t)
      ensures socketMap.Keys == old(socketMap).Keys + {tcp}
    {
      socketMap := socketMap[tcp := udp];
    }

    /** retrieveMappedUdpSocket: a lookup that never inserts. */
    method RetrieveMappedUdpSocket(tcp: int) returns (udp: int)
      ensures udp == Lookup(socketMap, tcp)
    {
      if tcp in socketMap {
        return socketMap[tcp];
      }
      return NoSocket;
    }
  }

  /** A later mapping of the same TCP socket wins; an unmapped one reads NoSocket. */
  method RemapOverwrites() returns (first: int, second: int, unmapped: int)
    ensures first == 7 && second == 9 && unmapped == NoSocket
  {
    var m := new TcpToUdpSocketMap();
    m.MapSockets(3, 7);
    first := m.RetrieveMappedUdpSocket(3);
    m.MapSockets(3, 9);
    second := m.RetrieveMappedUdpSocket(3);
    unmapped := m.RetrieveMappedUdpSocket(4);
  }
}
