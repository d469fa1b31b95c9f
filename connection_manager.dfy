/**
 * ConnectionManager: connection records held three ways at once, as a
 * list in creation order, as the set of their ids, and as one list per
 * client. Ids are drawn below IdBound and never reused while live.
 */
module ConnectionRegistry {
  import opened Bytes

  /** Connection ids are drawn below this bound. */
  const IdBound: nat := 1000000

  /** The Connection record: it never changes after creation. */
  datatype Conn = Conn(clientId: nat, connectionId: nat)

  /** The ids of a list of connections. */
  function Ids(cs: seq<Conn>): (ids: set<nat>)
    ensures forall i :: 0 <= i < |cs| ==> cs[i].connectionId in ids
  {
    if cs == [] then {} else {cs[0].connectionId} + Ids(cs[1..])
  }

  /** An id carried by no connection of the list is not among its ids. */
  lemma {:induction false} NotInIds(cs: seq<Conn>, id: nat)
    requires forall k :: 0 <= k < |cs| ==> cs[k].connectionId != id
    ensures id !in Ids(cs)
    decreases |cs|
  {
    if cs != [] {
      NotInIds(cs[1..], id);
    }
  }

  /** No two connections share an id. */
  predicate Unique(cs: seq<Conn>)
  {
    cs == [] || (cs[0].connectionId !in Ids(cs[1..]) && Unique(cs[1..]))
  }

  /** The connections of one client, in creation order. */
  function OfClient(cs: seq<Conn>, clientId: nat): (r: seq<Conn>)
    ensures |r| <= |cs|
    ensures forall i :: 0 <= i < |r| ==> r[i].clientId == clientId
    ensures Ids(r) <= Ids(cs)
  {
    if cs == [] then []
    else if cs[0].clientId == clientId then [cs[0]] + OfClient(cs[1..], clientId)
    else OfClient(cs[1..], clientId)
  }

  /** The list without the connections carrying `id`. */
  function RemoveId(cs: seq<Conn>, id: nat): (r: seq<Conn>)
    ensures Ids(r) == Ids(cs) - {id}
  {
    if cs == [] then []
    else if cs[0].connectionId == id then RemoveId(cs[1..], id)
    else [cs[0]] + RemoveId(cs[1..], id)
  }

  /**
   * The three views agree: ids are unique and below IdBound, the id set is
   * exactly the ids of the list, and each client's entry (possibly absent
   * or empty) is that client's part of the list, in order.
   */
  ghost predicate Consistent(cs: seq<Conn>, ids: set<nat>, m: map<nat, seq<Conn>>)
  {
    Unique(cs) && ids == Ids(cs) &&
    (forall id :: id in ids ==> id < IdBound) &&
    forall clientId :: ListAt(m, clientId) == OfClient(cs, clientId)
  }

  lemma {:induction false} IdsAppend(cs: seq<Conn>, c: Conn)
    ensures Ids(cs + [c]) == Ids(cs) + {c.connectionId}
    decreases |cs|
  {
    if cs != [] {
      assert (cs + [c])[1..] == cs[1..] + [c];
      IdsAppend(cs[1..], c);
    } else {
      assert cs + [c] == [c];
    }
  }

  lemma {:induction false} UniqueAppend(cs: seq<Conn>, c: Conn)
    requires Unique(cs) && c.connectionId !in Ids(cs)
    ensures Unique(cs + [c])
    decreases |cs|
  {
    if cs != [] {
      assert (cs + [c])[1..] == cs[1..] + [c];
      UniqueAppend(cs[1..], c);
      IdsAppend(cs[1..], c);
    } else {
      assert cs + [c] == [c];
    }
  }

  lemma {:induction false} OfClientAppend(cs: seq<Conn>, c: Conn, clientId: nat)
    ensures OfClient(cs + [c], clientId) == OfClient(cs, clientId) + (if c.clientId == clientId then [c] else [])
    decreases |cs|
  {
    if cs != [] {
      assert (cs + [c])[1..] == cs[1..] + [c];
      OfClientAppend(cs[1..], c, clientId);
    } else {
      assert cs + [c] == [c];
    }
  }

  /** Removing an id that is not there changes nothing. */
  lemma {:induction false} RemoveAbsent(cs: seq<Conn>, id: nat)
    requires id !in Ids(cs)
    ensures RemoveId(cs, id) == cs
    decreases |cs|
  {
    if cs != [] {
      RemoveAbsent(cs[1..], id);
    }
  }

  /** In a list of unique ids, erasing the first match of `id` removes `id` altogether. */
  lemma {:induction false} EraseFirstMatch(cs: seq<Conn>, i: nat, id: nat)
    requires Unique(cs) && i < |cs| && cs[i].connectionId == id
    requires forall k :: 0 <= k < i ==> cs[k].connectionId != id
    ensures cs[..i] + cs[i + 1..] == RemoveId(cs, id)
    decreases i
  {
    var tail := cs[1..];
    EraseSplit(cs, i);
    if i == 0 {
      RemoveAbsent(tail, id);
    } else {
      EraseFirstMatch(tail, i - 1, id);
    }
  }

  /** Erasing position i of a list, seen from its head. */
  lemma EraseSplit(cs: seq<Conn>, i: nat)
    requires i < |cs|
    ensures i == 0 ==> cs[..i] + cs[i + 1..] == cs[1..]
    ensures i > 0 ==> cs[1..][i - 1] == cs[i]
    ensures i > 0 ==> cs[..i] + cs[i + 1..] == [cs[0]] + (cs[1..][..i - 1] + cs[1..][i..])
  {
    if i > 0 {
      assert cs[..i] == [cs[0]] + cs[1..][..i - 1];
      assert cs[i + 1..] == cs[1..][i..];
    }
  }

  lemma {:induction false} RemoveUnique(cs: seq<Conn>, id: nat)
    requires Unique(cs)
    ensures Unique(RemoveId(cs, id))
    decreases |cs|
  {
    if cs != [] {
      RemoveUnique(cs[1..], id);
    }
  }

  lemma {:induction false} OfClientUnique(cs: seq<Conn>, clientId: nat)
    requires Unique(cs)
    ensures Unique(OfClient(cs, clientId))
    decreases |cs|
  {
    if cs != [] {
      OfClientUnique(cs[1..], clientId);
    }
  }

  /** Taking one client's part and removing an id commute. */
  lemma {:induction false} OfClientRemove(cs: seq<Conn>, clientId: nat, id: nat)
    ensures OfClient(RemoveId(cs, id), clientId) == RemoveId(OfClient(cs, clientId), id)
    decreases |cs|
  {
    if cs != [] {
      OfClientRemove(cs[1..], clientId, id);
    }
  }

  /** An id of a unique list belongs to the part of its own client only. */
  lemma {:induction false} OwnClientOnly(cs: seq<Conn>, i: nat, clientId: nat)
    requires Unique(cs) && i < |cs| && cs[i].clientId != clientId
    ensures cs[i].connectionId !in Ids(OfClient(cs, clientId))
    decreases i
  {
    if i > 0 {
      OwnClientOnly(cs[1..], i - 1, clientId);
      assert cs[1..][i - 1] == cs[i];
    }
  }

  /** A connection's id is in its own client's part. */
  lemma {:induction false} OwnClientHas(cs: seq<Conn>, i: nat)
    requires i < |cs|
    ensures cs[i].connectionId in Ids(OfClient(cs, cs[i].clientId))
    decreases i
  {
    if i > 0 {
      OwnClientHas(cs[1..], i - 1);
      assert cs[1..][i - 1] == cs[i];
    }
  }

  /** Fewer than n ids leave some id below n unused. */
  lemma {:induction false} FreeIdBelow(ids: set<nat>, n: nat)
    requires |ids| < n
    ensures exists id: nat :: id < n && id !in ids
    decreases n
  {
    if n - 1 in ids {
      FreeIdBelow(ids - {n - 1}, n - 1);
    } else {
      assert n - 1 < n && n - 1 !in ids;
    }
  }

  /** A new connection keeps the three views consistent. */
  lemma AddConsistent(cs: seq<Conn>, ids: set<nat>, m: map<nat, seq<Conn>>, c: Conn)
    requires Consistent(cs, ids, m) && c.connectionId !in ids && c.connectionId < IdBound
    ensures Consistent(cs + [c], ids + {c.connectionId}, m[c.clientId := ListAt(m, c.clientId) + [c]])
  {
    IdsAppend(cs, c);
    UniqueAppend(cs, c);
    forall clientId | true
      ensures ListAt(m[c.clientId := ListAt(m, c.clientId) + [c]], clientId) == OfClient(cs + [c], clientId)
    {
      OfClientAppend(cs, c, clientId);
    }
  }

  /** The map after a client's entry is replaced, or erased once empty. */
  function SetEntry(m: map<nat, seq<Conn>>, clientId: nat, entry: seq<Conn>): (r: map<nat, seq<Conn>>)
    ensures ListAt(r, clientId) == entry
    ensures forall k :: k != clientId ==> ListAt(r, k) == ListAt(m, k) && (k in r <==> k in m)
    ensures clientId in r <==> entry != []
  {
    if entry == [] then m - {clientId} else m[clientId := entry]
  }

  /** Removing the i-th connection keeps the three views consistent. */
  lemma RemoveConsistent(cs: seq<Conn>, ids: set<nat>, m: map<nat, seq<Conn>>, i: nat)
    requires Consistent(cs, ids, m) && i < |cs|
    requires forall k :: 0 <= k < i ==> cs[k].connectionId != cs[i].connectionId
    ensures var id := cs[i].connectionId;
      cs[..i] + cs[i + 1..] == RemoveId(cs, id) &&
      Consistent(RemoveId(cs, id), ids - {id}, SetEntry(m, cs[i].clientId, RemoveId(ListAt(m, cs[i].clientId), id)))
  {
    var id := cs[i].connectionId;
    var owner := cs[i].clientId;
    EraseFirstMatch(cs, i, id);
    RemoveUnique(cs, id);
    var m' := SetEntry(m, owner, RemoveId(ListAt(m, owner), id));
    forall clientId | true
      ensures ListAt(m', clientId) == OfClient(RemoveId(cs, id), clientId)
    {
      OfClientRemove(cs, clientId, id);
      if clientId != owner {
        OwnClientOnly(cs, i, clientId);
        RemoveAbsent(OfClient(cs, clientId), id);
      }
    }
  }

  class ConnectionManager {
    var connections: seq<Conn>
    var connectionIds: set<nat>
    var clientConnections: map<nat, seq<Conn>>

    ghost predicate Valid()
      reads this
    {
      Consistent(connections, connectionIds, clientConnections)
    }

    constructor ()
      ensures Valid() && connections == [] && connectionIds == {} && clientConnections == map[]
    {
      connections, connectionIds, clientConnections := [], {}, map[];
    }

    /**
     * generateConnectionId: draws ids below IdBound until one is unused,
     * and records it. The draws are a free choice here; with every id in
     * use the source would draw forever, hence the precondition.
     */
    method GenerateConnectionId() returns (id: nat)
      requires |connectionIds| < IdBound
      modifies this
      ensures id < IdBound && id !in old(connectionIds) && connectionIds == old(connectionIds) + {id}
      ensures connections == old(connections) && clientConnections == old(clientConnections)
    {
      FreeIdBelow(connectionIds, IdBound);
      id :| id < IdBound && id !in connectionIds;
      connectionIds := connectionIds + {id};
    }

    /** createConnection: a new record with an unused id, appended to the list and to its client's entry. */
    method CreateConnection(clientId: nat) returns (c: Conn)
      requires Valid() && |connectionIds| < IdBound
      modifies this
      ensures Valid()
      ensures c.clientId == clientId && c.connectionId < IdBound && c.connectionId !in old(connectionIds)
      ensures connections == old(connections) + [c] && connectionIds == old(connectionIds) + {c.connectionId}
      ensures clientConnections == old(clientConnections)[clientId := ListAt(old(clientConnections), clientId) + [c]]
    {
      ghost var before := connectionIds;
      var id := GenerateConnectionId();
      c := Conn(clientId, id);
      AddConsistent(connections, before, clientConnections, c);
      connections := connections + [c];
      clientConnections := clientConnections[clientId := ListAt(clientConnections, clientId) + [c]];
    }

    /** The index of the first connection carrying `id`, or |cs| when there is none. */
    static method IndexOf(cs: seq<Conn>, id: nat) returns (i: nat)
      ensures i <= |cs| && forall k :: 0 <= k < i ==> cs[k].connectionId != id
      ensures i < |cs| <==> id in Ids(cs)
      ensures i < |cs| ==> cs[i].connectionId == id
    {
      i := 0;
      while i < |cs| && cs[i].connectionId != id
        invariant i <= |cs| && forall k :: 0 <= k < i ==> cs[k].connectionId != id
      {
        i := i + 1;
      }
      if i == |cs| {
        NotInIds(cs, id);
      }
    }

    /**
     * removeConnection: true, and the connection gone from all three views,
     * when the id is live; false, and nothing changed, otherwise. A client
     * whose last connection goes loses its entry.
     */
    method RemoveConnection(id: nat) returns (removed: bool)
      requires Valid()
      modifies this
      ensures Valid()
      ensures removed == (id in old(connectionIds))
      ensures connections == RemoveId(old(connections), id) && connectionIds == old(connectionIds) - {id}
      ensures !removed ==> clientConnections == old(clientConnections)
      ensures forall k :: k in clientConnections ==> k in old(clientConnections)
      ensures forall k :: k in old(clientConnections) && k !in clientConnections ==>
        OfClient(old(connections), k) != [] && OfClient(connections, k) == []
      ensures removed ==>
        exists i :: (0 <= i < |old(connections)| && old(connections)[i].connectionId == id &&
          clientConnections == SetEntry(old(clientConnections), old(connections)[i].clientId,
            RemoveId(ListAt(old(clientConnections), old(connections)[i].clientId), id)))
    {
      var i := IndexOf(connections, id);
      if i == |connections| {
        RemoveAbsent(connections, id);
        return false;
      }
      var owner := connections[i].clientId;
      var clientConns := ListAt(clientConnections, owner);
      var j := IndexOf(clientConns, id);
      OfClientUnique(connections, owner);
      if j < |clientConns| {
        EraseFirstMatch(clientConns, j, id);
        clientConns := clientConns[..j] + clientConns[j + 1..];
      } else {
        RemoveAbsent(clientConns, id);
      }
      OwnClientHas(connections, i);
      RemoveConsistent(connections, connectionIds, clientConnections, i);
      assert clientConns == RemoveId(ListAt(clientConnections, owner), id);
      clientConnections := SetEntry(clientConnections, owner, clientConns);
      connections := connections[..i] + connections[i + 1..];
      connectionIds := connectionIds - {id};
      return true;
    }

    /** getClientConnections: operator[] inserts an empty entry for a client without one. */
    method GetClientConnections(clientId: nat) returns (r: seq<Conn>)
      requires Valid()
      modifies this
      ensures Valid() && r == OfClient(connections, clientId)
      ensures connections == old(connections) && connectionIds == old(connectionIds)
      ensures clientConnections == old(clientConnections)[clientId := r]
    {
      r := ListAt(clientConnections, clientId);
      clientConnections := clientConnections[clientId := r];
    }

    method GetClientConnectionCount(clientId: nat) returns (n: nat)
      requires Valid()
      modifies this
      ensures Valid() && n == |OfClient(connections, clientId)|
      ensures connections == old(connections) && connectionIds == old(connectionIds)
      ensures clientConnections == old(clientConnections)[clientId := OfClient(connections, clientId)]
    {
      var r := GetClientConnections(clientId);
      n := |r|;
    }

    method RemoveAllConnections()
      modifies this
      ensures Valid() && connections == [] && connectionIds == {} && clientConnections == map[]
    {
      connections, connectionIds, clientConnections := [], {}, map[];
    }
  }

  /** A live id is removed once: a second removal reports false. */
  method RemoveTwice(clientId: nat) returns (first: bool, second: bool)
    ensures first && !second
  {
    var m := new ConnectionManager();
    var c := m.CreateConnection(clientId);
    first := m.RemoveConnection(c.connectionId);
    second := m.RemoveConnection(c.connectionId);
  }
}
