/**
 * The per-client queue registries. QueueManager keeps two independent maps
 * (TCP-to-UDP and UDP-to-TCP), ServerQueueManager one; both create a
 * BlockingQueue the first time a client id is asked for and hand back the
 * same queue afterwards. The singleton accessors and the mutex are not
 * modelled.
 */
module QueueManagers {
  import opened Queues

  /** No queue is registered under two client ids. */
  ghost predicate Injective(queues: map<int, BlockingQueue>)
  {
    forall a, b :: a in queues && b in queues && a != b ==> queues[a] != queues[b]
  }

  /** No queue of one map appears in the other. */
  ghost predicate Disjoint(xs: map<int, BlockingQueue>, ys: map<int, BlockingQueue>)
  {
    forall a, b :: a in xs && b in ys ==> xs[a] != ys[b]
  }

  /**
   * getQueueForClient: the queue stored for `clientId`, or a new empty one
   * which is then stored; entries of other ids are untouched.
   */
  method GetOrCreate(clientId: int, queues: map<int, BlockingQueue>)
    returns (q: BlockingQueue, updated: map<int, BlockingQueue>)
    ensures clientId in queues ==> q == queues[clientId] && updated == queues
    ensures clientId !in queues ==>
      fresh(q) && q.items == [] && !q.cancelled && updated == queues[clientId := q]
  {
    if clientId in queues {
      return queues[clientId], queues;
    }
    q := new BlockingQueue();
    updated := queues[clientId := q];
  }

  class QueueManager {
    var tcpToUdpQueues: map<int, BlockingQueue>
    var udpToTcpQueues: map<int, BlockingQueue>

    ghost predicate Valid()
      reads this
    {
      Injective(tcpToUdpQueues) && Injective(udpToTcpQueues) &&
      Disjoint(tcpToUdpQueues, udpToTcpQueues)
    }

    constructor ()
      ensures Valid()
      ensures tcpToUdpQueues == map[] && udpToTcpQueues == map[]
    {
      tcpToUdpQueues := map[];
      udpToTcpQueues := map[];
    }

    method GetTcpToUdpQueueForClient(clientId: int) returns (q: BlockingQueue)
      requires Valid()
      modifies this
      ensures Valid()
      ensures udpToTcpQueues == old(udpToTcpQueues)
      ensures tcpToUdpQueues.Keys == old(tcpToUdpQueues).Keys + {clientId}
      ensures q == tcpToUdpQueues[clientId]
      ensures forall c :: c in old(tcpToUdpQueues) ==> tcpToUdpQueues[c] == old(tcpToUdpQueues)[c]
      ensures clientId !in old(tcpToUdpQueues) ==> fresh(q) && q.items == [] && !q.cancelled
    {
      q, tcpToUdpQueues := GetOrCreate(clientId, tcpToUdpQueues);
    }

    method GetUdpToTcpQueueForClient(clientId: int) returns (q: BlockingQueue)
      requires Valid()
      modifies this
      ensures Valid()
      ensures tcpToUdpQueues == old(tcpToUdpQueues)
      ensures udpToTcpQueues.Keys == old(udpToTcpQueues).Keys + {clientId}
      ensures q == udpToTcpQueues[clientId]
      ensures forall c :: c in old(udpToTcpQueues) ==> udpToTcpQueues[c] == old(udpToTcpQueues)[c]
      ensures clientId !in old(udpToTcpQueues) ==> fresh(q) && q.items == [] && !q.cancelled
    {
      q, udpToTcpQueues := GetOrCreate(clientId, udpToTcpQueues);
    }
  }

  /** One client id gets one queue per direction, and the two are different queues. */
  method SeparateDirections() returns (toUdp: BlockingQueue, toTcp: BlockingQueue, again: BlockingQueue)
    ensures toUdp != toTcp && again == toUdp
  {
    var m := new QueueManager();
    toUdp := m.GetTcpToUdpQueueForClient(7);
    toTcp := m.GetUdpToTcpQueueForClient(7);
    again := m.GetTcpToUdpQueueForClient(7);
  }

  class ServerQueueManager {
    var clientQueues: map<int, BlockingQueue>

    ghost predicate Valid()
      reads this
    {
      Injective(clientQueues)
    }

    constructor ()
      ensures Valid() && clientQueues == map[]
    {
      clientQueues := map[];
    }

    method GetQueueForClient(clientId: int) returns (q: BlockingQueue)
      requires Valid()
      modifies this
      ensures Valid()
      ensures clientQueues.Keys == old(clientQueues).Keys + {clientId}
      ensures q == clientQueues[clientId]
      ensures forall c :: c in old(clientQueues) ==> clientQueues[c] == old(clientQueues)[c]
      ensures clientId !in old(clientQueues) ==> fresh(q) && q.items == [] && !q.cancelled
    {
      q, clientQueues := GetOrCreate(clientId, clientQueues);
    }
  }
}
