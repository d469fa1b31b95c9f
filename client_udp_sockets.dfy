/**
 * ClientUdpSocketManager: one UDP socket per client id, created on first
 * use. CreateSocket, SetSocketNonBlocking and SocketClose are not modelled:
 * the first two results are parameters and every closed descriptor is
 * recorded in `closed`.
 */
module ClientUdpSockets {
  import opened Bytes

  const NoSocket: int := -1

  /** The least element of a non-empty set. */
  ghost function Least(s: set<nat>): (m: nat)
    requires s != {}
    ensures m in s && forall x :: x in s ==> m <= x
    decreases |s|
  {
    var x :| x in s;
    if s - {x} == {} then
      assert forall y :: y in s ==> y == x by {
        forall y | y in s ensures y == x {
          assert y !in s - {x};
        }
      }
      x
    else
      var m := Least(s - {x});
      assert forall y :: y in s ==> y == x || y in s - {x};
      if x < m then x else m
  }

  /** The sockets of `m` listed by ascending client id, the order in which std::map visits them. */
  ghost function InKeyOrder(m: map<nat, int>): (r: seq<int>)
    ensures |r| == |m.Keys|
    decreases m.Keys
  {
    if m.Keys == {} then []
    else
      var k := Least(m.Keys);
      [m[k]] + InKeyOrder(m - {k})
  }

  /** Every stored socket is among those closed by cleanup. */
  lemma {:induction false} InKeyOrderCovers(m: map<nat, int>)
    ensures forall c :: c in m ==> m[c] in InKeyOrder(m)
    decreases m.Keys
  {
    if m.Keys != {} {
      var k := Least(m.Keys);
      InKeyOrderCovers(m - {k});
      forall c | c in m
        ensures m[c] in InKeyOrder(m)
      {
        if c != k {
          assert c in m - {k};
        }
      }
    }
  }

  class ClientUdpSocketManager {
    var clientUdpSockets: map<nat, int>
    /** The descriptors passed to SocketClose, in order. */
    var closed: seq<int>

    /** Only descriptors that CreateSocket returned successfully are stored. */
    ghost predicate Valid()
      reads this
    {
      forall c :: c in clientUdpSockets ==> clientUdpSockets[c] >= 0
    }

    constructor ()
      ensures Valid()
      ensures clientUdpSockets == map[] && closed == []
    {
      clientUdpSockets := map[];
      closed := [];
    }

    /**
     * getOrCreateUdpSocket: the client's socket when it has one; otherwise
     * `created` is what CreateSocket returned and `nonBlocking` what
     * SetSocketNonBlocking returned. A failed creation returns NoSocket; a
     * failed switch to non-blocking mode closes the new socket and returns
     * NoSocket; only a socket passing both is stored.
     */
    method GetOrCreateUdpSocket(clientId: nat, created: int, nonBlocking: int) returns (s: int)
      requires Valid()
      modifies this
      ensures Valid()
      ensures clientId in old(clientUdpSockets) ==>
        s == old(clientUdpSockets)[clientId] &&
        clientUdpSockets == old(clientUdpSockets) && closed == old(closed)
      ensures clientId !in old(clientUdpSockets) && created < 0 ==>
        s == NoSocket && clientUdpSockets == old(clientUdpSockets) && closed == old(closed)
      ensures clientId !in old(clientUdpSockets) && created >= 0 && nonBlocking < 0 ==>
        s == NoSocket && clientUdpSockets == old(clientUdpSockets) && closed == old(closed) + [created]
      ensures clientId !in old(clientUdpSockets) && created >= 0 && nonBlocking >= 0 ==>
        s == created && clientUdpSockets == old(clientUdpSockets)[clientId := created] &&
        closed == old(closed)
    {
      if clientId in clientUdpSockets {
        return clientUdpSockets[clientId];
      }
      if created < 0 {
        return NoSocket;
      }
      if nonBlocking < 0 {
        closed := closed + [created];
        return NoSocket;
      }
      clientUdpSockets := clientUdpSockets[clientId := created];
      return created;
    }

    /** getUdpSocket: a lookup that never inserts; NoSocket exactly when the client has none. */
    method GetUdpSocket(clientId: nat) returns (s: int)
      requires Valid()
      ensures s == NoSocket <==> clientId !in clientUdpSockets
      ensures clientId in clientUdpSockets ==> s == clientUdpSockets[clientId]
    {
      if clientId in clientUdpSockets {
        return clientUdpSockets[clientId];
      }
      return NoSocket;
    }

    /** removeUdpSocket: closes and forgets the client's socket, if it has one. */
    method RemoveUdpSocket(clientId: nat)
      requires Valid()
      modifies this
      ensures Valid()
      ensures clientUdpSockets == old(clientUdpSockets) - {clientId}
      ensures closed == old(closed) +
        (if clientId in old(clientUdpSockets) then [old(clientUdpSockets)[clientId]] else [])
    {
      if clientId in clientUdpSockets {
        closed := closed + [clientUdpSockets[clientId]];
        clientUdpSockets := clientUdpSockets - {clientId};
      }
    }

    /** cleanup: closes every socket, by ascending client id, then empties the map. */
    method Cleanup()
      requires Valid()
      modifies this
      ensures Valid()
      ensures clientUdpSockets == map[]
      ensures closed == old(closed) + InKeyOrder(old(clientUdpSockets))
    {
      var rest := clientUdpSockets;
      while rest != map[]
        invariant clientUdpSockets == old(clientUdpSockets)
        invariant old(closed) + InKeyOrder(old(clientUdpSockets)) == closed + InKeyOrder(rest)
        decreases rest.Keys
      {
        ghost var least := Least(rest.Keys);
        var k :| k in rest && forall j :: j in rest ==> k <= j;
        assert k == least;
        AppendAssoc(closed, [rest[k]], InKeyOrder(rest - {k}));
        closed := closed + [rest[k]];
        rest := rest - {k};
      }
      clientUdpSockets := map[];
    }
  }
}
