/**
 * The reorder buffer of TcpVirtualChannel::processReceivedData, as a
 * function of its state: the next message id to deliver and the messages
 * received ahead of it. Message ids are unbounded here.
 */
module Reorder {
  import opened Bytes

  /** nextMessageId and receivedDataMap. */
  datatype Window = Window(next: nat, pending: map<nat, seq<byte>>)

  /** A window after a call, and the payloads the call delivered, in order. */
  datatype Step = Step(window: Window, delivered: seq<seq<byte>>)

  /** The invariant every call keeps: each buffered id is above `next`. */
  predicate Ordered(w: Window)
  {
    forall k :: k in w.pending ==> k > w.next
  }

  /** The delivery loop: while `next` is buffered, deliver it, erase it and move on. */
  function Flush(w: Window): (s: Step)
    ensures s.window.next == w.next + |s.delivered|
    ensures s.window.next !in s.window.pending
    decreases w.pending.Keys
  {
    if w.next in w.pending then
      var rest := w.pending - {w.next};
      assert rest.Keys < w.pending.Keys;
      var s := Flush(Window(w.next + 1, rest));
      Step(s.window, [w.pending[w.next]] + s.delivered)
    else Step(w, [])
  }

  /** processReceivedData: an id below `next` is ignored; any other is stored, then the loop runs. */
  function Receive(w: Window, id: nat, data: seq<byte>): (s: Step)
    ensures id < w.next ==> s == Step(w, [])
  {
    if id < w.next then Step(w, [])
    else Flush(Window(w.next, w.pending[id := data]))
  }

  /** The payloads of ids from .. to - 1, in order. */
  function Run(payload: nat -> seq<byte>, from: nat, to: nat): (r: seq<seq<byte>>)
    ensures |r| == (if from <= to then to - from else 0)
    decreases if from <= to then to - from else 0
  {
    if from >= to then [] else [payload(from)] + Run(payload, from + 1, to)
  }

  lemma {:induction false} RunAppend(payload: nat -> seq<byte>, a: nat, b: nat, c: nat)
    requires a <= b <= c
    ensures Run(payload, a, b) + Run(payload, b, c) == Run(payload, a, c)
    decreases b - a
  {
    if a < b {
      RunAppend(payload, a + 1, b, c);
      assert [payload(a)] + Run(payload, a + 1, b) + Run(payload, b, c) == [payload(a)] + (Run(payload, a + 1, b) + Run(payload, b, c));
    }
  }

  /** Flushing a window whose buffered ids are at least `next` leaves an ordered window. */
  lemma {:induction false} FlushOrdered(w: Window)
    requires forall k :: k in w.pending ==> k >= w.next
    ensures Ordered(Flush(w).window)
    decreases w.pending.Keys
  {
    if w.next in w.pending {
      var rest := w.pending - {w.next};
      assert rest.Keys < w.pending.Keys;
      FlushOrdered(Window(w.next + 1, rest));
    }
  }

  /** Every call keeps the window ordered. */
  lemma ReceiveOrdered(w: Window, id: nat, data: seq<byte>)
    requires Ordered(w)
    ensures Ordered(Receive(w, id, data).window)
  {
    if id >= w.next {
      FlushOrdered(Window(w.next, w.pending[id := data]));
    }
  }

  /**
   * The window after the ids in `arrived` have been received, each id k
   * carrying payload(k): `next` is the least id not yet arrived, and the
   * buffer holds exactly the arrived ids above it, with their payloads.
   */
  ghost predicate Describes(w: Window, arrived: set<nat>, payload: nat -> seq<byte>)
  {
    (forall k :: 0 <= k < w.next ==> k in arrived) &&
    w.next !in arrived &&
    (forall k :: k in w.pending <==> k in arrived && k > w.next) &&
    (forall k :: k in w.pending ==> w.pending[k] == payload(k))
  }

  /** The delivery loop run from a window whose buffer holds exactly the arrived ids from `next` on. */
  lemma {:induction false} FlushDescribes(w: Window, arrived: set<nat>, payload: nat -> seq<byte>)
    requires forall k :: 0 <= k < w.next ==> k in arrived
    requires forall k :: k in w.pending <==> k in arrived && k >= w.next
    requires forall k :: k in w.pending ==> w.pending[k] == payload(k)
    ensures Describes(Flush(w).window, arrived, payload)
    ensures Flush(w).delivered == Run(payload, w.next, Flush(w).window.next)
    decreases w.pending.Keys
  {
    if w.next in w.pending {
      var rest := w.pending - {w.next};
      assert rest.Keys < w.pending.Keys;
      var w' := Window(w.next + 1, rest);
      FlushDescribes(w', arrived, payload);
      var s := Flush(w');
      assert Flush(w).delivered == [payload(w.next)] + s.delivered;
    } else {
      assert Flush(w) == Step(w, []);
    }
  }

  /**
   * One call from a described window: the arrived set grows by `id`, and
   * the call delivers exactly the payloads of the ids it moves `next` past.
   */
  lemma ReceiveDescribes(w: Window, arrived: set<nat>, payload: nat -> seq<byte>, id: nat)
    requires Describes(w, arrived, payload)
    ensures var s := Receive(w, id, payload(id));
      Describes(s.window, arrived + {id}, payload) &&
      w.next <= s.window.next && s.delivered == Run(payload, w.next, s.window.next)
  {
    if id >= w.next {
      FlushDescribes(Window(w.next, w.pending[id := payload(id)]), arrived + {id}, payload);
    } else {
      assert arrived + {id} == arrived;
    }
  }

  /** Receiving a sequence of ids, each with its payload, from window w. */
  function ReceiveAll(w: Window, ids: seq<nat>, payload: nat -> seq<byte>): (s: Step)
    decreases |ids|
  {
    if ids == [] then Step(w, [])
    else
      var first := Receive(w, ids[0], payload(ids[0]));
      var rest := ReceiveAll(first.window, ids[1..], payload);
      Step(rest.window, first.delivered + rest.delivered)
  }

  /**
   * In-order, exactly-once delivery: whatever the order of arrival and
   * however often an id is repeated, the payloads delivered are those of
   * 0, 1, 2, ... up to the least id not yet arrived, each once and in order.
   */
  lemma {:induction false} ReceiveAllDelivers(ids: seq<nat>, payload: nat -> seq<byte>)
    ensures var s := ReceiveAll(Window(0, map[]), ids, payload);
      Describes(s.window, (set i | i in ids), payload) && s.delivered == Run(payload, 0, s.window.next)
  {
    ReceiveAllFrom(Window(0, map[]), {}, ids, payload);
    assert {} + (set i | i in ids) == set i | i in ids;
  }

  lemma {:induction false} ReceiveAllFrom(w: Window, arrived: set<nat>, ids: seq<nat>, payload: nat -> seq<byte>)
    requires Describes(w, arrived, payload)
    ensures var s := ReceiveAll(w, ids, payload);
      Describes(s.window, arrived + (set i | i in ids), payload) &&
      w.next <= s.window.next && s.delivered == Run(payload, w.next, s.window.next)
    decreases |ids|
  {
    if ids == [] {
      assert arrived + (set i | i in ids) == arrived;
    } else {
      var first := Receive(w, ids[0], payload(ids[0]));
      ReceiveDescribes(w, arrived, payload, ids[0]);
      ReceiveAllFrom(first.window, arrived + {ids[0]}, ids[1..], payload);
      var rest := ReceiveAll(first.window, ids[1..], payload);
      RunAppend(payload, w.next, first.window.next, rest.window.next);
      assert (arrived + {ids[0]}) + (set i | i in ids[1..]) == arrived + (set i | i in ids) by {
        assert forall i :: i in ids ==> i == ids[0] || i in ids[1..];
      }
    }
  }

  /** Arrival of `next` flushes every buffered consecutive successor in the same call. */
  lemma ArrivalFlushes(payload: nat -> seq<byte>)
    ensures Receive(Window(0, map[1 := payload(1), 2 := payload(2), 4 := payload(4)]), 0, payload(0)) ==
      Step(Window(3, map[4 := payload(4)]), [payload(0), payload(1), payload(2)])
  {
    var m4 := map[4 := payload(4)];
    var m2 := m4[2 := payload(2)];
    var m1 := m2[1 := payload(1)];
    assert m1 == map[1 := payload(1), 2 := payload(2), 4 := payload(4)];
    var m0 := m1[0 := payload(0)];
    assert Flush(Window(3, m4)) == Step(Window(3, m4), []);
    assert m2 - {2} == m4;
    assert Flush(Window(2, m2)) == Step(Window(3, m4), [payload(2)]);
    assert m1 - {1} == m2;
    assert Flush(Window(1, m1)) == Step(Window(3, m4), [payload(1), payload(2)]);
    assert m0 - {0} == m1;
    assert Flush(Window(0, m0)) == Step(Window(3, m4), [payload(0), payload(1), payload(2)]);
  }
}
