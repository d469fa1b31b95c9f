/**
 * The server's peer registry: a Peer is a remote address with its TCP
 * sockets and one UDP socket; PeerManager maps addresses to peers. The
 * registry's static map becomes an object. SocketClose is not modelled:
 * the descriptors it is given are recorded in `closedSockets`.
 */
module Peers {
  import opened Bytes

  const NoSocket: int := -1

  class Peer {
    var ipAddress: string
    var sockets: seq<int>
    var udpSocket: int
    /** The raw sockaddr_in, kept as its bytes. */
    var udpAddress: seq<byte>

    /** The default constructor that map operator[] uses. */
    constructor Default()
      ensures ipAddress == "" && sockets == [] && udpSocket == NoSocket && udpAddress == []
    {
      ipAddress := "";
      sockets := [];
      udpSocket := NoSocket;
      udpAddress := [];
    }

    constructor (ip: string)
      ensures ipAddress == ip && sockets == [] && udpSocket == NoSocket && udpAddress == []
    {
      ipAddress := ip;
      sockets := [];
      udpSocket := NoSocket;
      udpAddress := [];
    }

    method GetIpAddress() returns (ip: string)
      ensures ip == ipAddress
    {
      ip := ipAddress;
    }

    /** AddSocket: appends, with no cap and no duplicate check. */
    method AddSocket(socket: int)
      modifies this
      ensures sockets == old(sockets) + [socket] && |sockets| == |old(sockets)| + 1
      ensures ipAddress == old(ipAddress) && udpSocket == old(udpSocket) && udpAddress == old(udpAddress)
    {
      sockets := sockets + [socket];
    }

    method GetSocketCount() returns (n: nat)
      ensures n == |sockets|
    {
      n := |sockets|;
    }

    method SetUdpSocket(socket: int)
      modifies this
      ensures udpSocket == socket
      ensures ipAddress == old(ipAddress) && sockets == old(sockets) && udpAddress == old(udpAddress)
    {
      udpSocket := socket;
    }

    method SetUdpAddress(address: seq<byte>)
      modifies this
      ensures udpAddress == address
      ensures ipAddress == old(ipAddress) && sockets == old(sockets) && udpSocket == old(udpSocket)
    {
      udpAddress := address;
    }

    method GetSockets() returns (s: seq<int>)
      ensures s == sockets
    {
      s := sockets;
    }

    method GetUdpSocket() returns (s: int)
      ensures s == udpSocket
    {
      s := udpSocket;
    }

    /** RemoveAllSockets: forgets the TCP sockets without closing them. */
    method RemoveAllSockets()
      modifies this
      ensures sockets == [] && |sockets| == 0
      ensures ipAddress == old(ipAddress) && udpSocket == old(udpSocket) && udpAddress == old(udpAddress)
    {
      sockets := [];
    }

    /** operator=: copies all four fields; assigning a peer to itself changes nothing. */
    method Assign(other: Peer)
      modifies this
      ensures ipAddress == old(other.ipAddress) && sockets == old(other.sockets)
      ensures udpSocket == old(other.udpSocket) && udpAddress == old(other.udpAddress)
    {
      if this != other {
        ipAddress := other.ipAddress;
        sockets := other.sockets;
        udpSocket := other.udpSocket;
        udpAddress := other.udpAddress;
      }
    }
  }

  /** Every address of `order` is a key of m. */
  predicate Registered<V>(m: map<string, V>, order: seq<string>)
  {
    forall i :: 0 <= i < |order| ==> order[i] in m
  }

  /** What closing each registered peer closes: its TCP sockets, then its UDP socket. */
  ghost function PeerClosings(peers: map<string, Peer>): (m: map<string, seq<int>>)
    reads peers.Values
    ensures m.Keys == peers.Keys
  {
    map ip | ip in peers :: peers[ip].sockets + [peers[ip].udpSocket]
  }

  /** The descriptors CloseAllSockets closes when it visits the peers in `order`. */
  function Closings(closings: map<string, seq<int>>, order: seq<string>): seq<int>
    requires Registered(closings, order)
    decreases |order|
  {
    if order == [] then []
    else Closings(closings, order[..|order| - 1]) + closings[order[|order| - 1]]
  }

  /** Visiting every peer closes every descriptor of every peer visited. */
  lemma {:induction false} ClosingsCover(closings: map<string, seq<int>>, order: seq<string>)
    requires Registered(closings, order)
    ensures forall i, s :: 0 <= i < |order| && s in closings[order[i]] ==> s in Closings(closings, order)
    decreases |order|
  {
    if order != [] {
      var front := order[..|order| - 1];
      ClosingsCover(closings, front);
      forall i, s | 0 <= i < |order| && s in closings[order[i]]
        ensures s in Closings(closings, order)
      {
        if i < |order| - 1 {
          assert order[i] == front[i];
        }
      }
    }
  }

  /** One more visited peer: its TCP sockets and then its UDP socket follow what was closed before. */
  lemma ClosingsStep(closings: map<string, seq<int>>, order: seq<string>, ip: string,
                     closed: seq<int>, sockets: seq<int>, udp: int)
    requires Registered(closings, order) && ip in closings && closings[ip] == sockets + [udp]
    ensures Registered(closings, order + [ip])
    ensures closed + Closings(closings, order) + sockets + [udp] == closed + Closings(closings, order + [ip])
  {
    assert (order + [ip])[..|order|] == order;
  }

  class PeerManager {
    var peers: map<string, Peer>
    /** The descriptors passed to SocketClose, in order. */
    var closedSockets: seq<int>

    constructor ()
      ensures peers == map[] && closedSockets == []
    {
      peers := map[];
      closedSockets := [];
    }

    /** GetPeerByIp: the registered peer, or null for an unknown address. */
    method GetPeerByIp(ip: string) returns (p: Peer?)
      ensures ip in peers ==> p == peers[ip]
      ensures ip !in peers ==> p == null
    {
      if ip in peers {
        return peers[ip];
      }
      return null;
    }

    /**
     * AddPeer: registers a new peer with no sockets; an address that is
     * already registered is left as it is, sockets included.
     */
    method AddPeer(ip: string)
      modifies this
      ensures closedSockets == old(closedSockets)
      ensures ip in old(peers) ==> peers == old(peers)
      ensures ip !in old(peers) ==>
        ip in peers && fresh(peers[ip]) && peers == old(peers)[ip := peers[ip]] &&
        peers[ip].ipAddress == ip && peers[ip].sockets == [] && peers[ip].udpSocket == NoSocket
    {
      if ip !in peers {
        var p := new Peer(ip);
        var slot := new Peer.Default();
        slot.Assign(p);
        peers := peers[ip := slot];
      }
    }

    /** RemovePeer: erases only that address; an unknown one changes nothing. */
    method RemovePeer(ip: string)
      modifies this
      ensures peers == old(peers) - {ip} && closedSockets == old(closedSockets)
    {
      peers := peers - {ip};
    }

    /** The inner loop of CloseAllSockets: SocketClose on each descriptor, in order. */
    method CloseEach(sockets: seq<int>)
      modifies this
      ensures closedSockets == old(closedSockets) + sockets && peers == old(peers)
    {
      for i := 0 to |sockets|
        invariant peers == old(peers)
        invariant closedSockets == old(closedSockets) + sockets[..i]
      {
        closedSockets := closedSockets + [sockets[i]];
      }
      assert sockets[..|sockets|] == sockets;
    }

    /**
     * CloseAllSockets: closes each peer's TCP sockets and then its UDP
     * socket, peer by peer in the map's (unspecified) order, returned as
     * `order`; the registry is then empty.
     */
    method CloseAllSockets() returns (ghost order: seq<string>)
      modifies this
      ensures peers == map[]
      ensures forall i, j :: 0 <= i < j < |order| ==> order[i] != order[j]
      ensures forall ip :: ip in old(peers) <==> ip in order
      ensures Registered(old(peers), order)
      ensures closedSockets == old(closedSockets) + Closings(old(PeerClosings(peers)), order)
    {
      ghost var closings := PeerClosings(peers);
      var rest := peers.Keys;
      order := [];
      while rest != {}
        invariant peers == old(peers)
        invariant forall ip :: ip in peers <==> ip in rest || ip in order
        invariant forall ip :: ip in rest ==> ip !in order
        invariant forall i, j :: 0 <= i < j < |order| ==> order[i] != order[j]
        invariant Registered(closings, order)
        invariant closedSockets == old(closedSockets) + Closings(closings, order)
        decreases rest
      {
        var ip :| ip in rest;
        var peer := peers[ip];
        var sockets := peer.GetSockets();
        CloseEach(sockets);
        var udp := peer.GetUdpSocket();
        closedSockets := closedSockets + [udp];
        assert closings[ip] == sockets + [udp];
        ClosingsStep(closings, order, ip, old(closedSockets), sockets, udp);
        order := order + [ip];
        rest := rest - {ip};
      }
      peers := map[];
    }
  }

  /**
   * Adding an address that is already registered keeps the sockets it has
   * accumulated: after two AddSocket calls and a second AddPeer, the count
   * is still 2.
   */
  method ReAddKeepsSockets() returns (count: nat)
    ensures count == 2
  {
    var m := new PeerManager();
    m.AddPeer("10.0.0.3");
    var p := m.GetPeerByIp("10.0.0.3");
    p.AddSocket(5);
    p.AddSocket(6);
    m.AddPeer("10.0.0.3");
    var q := m.GetPeerByIp("10.0.0.3");
    count := q.GetSocketCount();
  }
}
