/**
 * The client's handshake states. StateSyncSent waits for the server's Ack
 * and answers with a Bind; StateBindSent waits for Data. The protobuf
 * messages are not decoded: the Ack number and whether a Data message
 * parses are parameters, and a Bind put on the send queue is recorded by
 * its sequence number.
 */
module Handshake {
  import opened Bytes

  /** The message type codes of MsgType, carried in the first byte. */
  const MsgSync: byte := 1
  const MsgAck: byte := 2
  const MsgBind: byte := 3
  const MsgData: byte := 4

  /** The next-state values the two states use. */
  datatype CommunicateState = SyncSent | BindSent | Error

  /** deserializeMsgType: the first byte; an empty buffer has none and the source throws. */
  function MsgTypeOf(data: seq<byte>): (r: Option<byte>)
    ensures r.None? <==> data == []
    ensures r.Some? ==> r.value == data[0]
  {
    if data == [] then None else Some(data[0])
  }

  /** What StateSyncSent accepts: an Ack whose number is the current sync count. */
  predicate AcceptsAck(data: seq<byte>, ackNumber: int, syncCount: int)
  {
    MsgTypeOf(data) == Some(MsgAck) && ackNumber == syncCount
  }

  /**
   * The shared context: the sync counter, the Binds queued for sending and
   * the states installed through setState.
   */
  class ClientContext {
    var syncCount: int
    var sentBinds: seq<int>
    var installed: seq<CommunicateState>

    constructor ()
      ensures syncCount == 0 && sentBinds == [] && installed == []
    {
      syncCount := 0;
      sentBinds := [];
      installed := [];
    }
  }

  class StateSyncSent {
    const context: ClientContext?
    var nextState: CommunicateState

    constructor (context: ClientContext?)
      ensures this.context == context && nextState == SyncSent
    {
      this.context := context;
      nextState := SyncSent;
    }

    /**
     * processData: an empty buffer, a type other than Ack, or an Ack number
     * other than the sync count leads to Error with nothing sent; an
     * accepted Ack increments the counter, queues one Bind carrying the new
     * value and leads to BindSent.
     */
    method ProcessData(data: seq<byte>, ackNumber: int)
      requires context != null
      modifies this, context
      ensures context.installed == old(context.installed)
      ensures AcceptsAck(data, ackNumber, old(context.syncCount)) ==>
        nextState == BindSent && context.syncCount == old(context.syncCount) + 1 &&
        context.sentBinds == old(context.sentBinds) + [old(context.syncCount) + 1]
      ensures !AcceptsAck(data, ackNumber, old(context.syncCount)) ==>
        nextState == Error && context.syncCount == old(context.syncCount) &&
        context.sentBinds == old(context.sentBinds)
    {
      if data == [] {
        nextState := Error;
        return;
      }
      var msgType := data[0];
      if msgType != MsgAck {
        nextState := Error;
        return;
      }
      if ackNumber != context.syncCount {
        nextState := Error;
        return;
      }
      context.syncCount := context.syncCount + 1;
      context.sentBinds := context.sentBinds + [context.syncCount];
      nextState := BindSent;
    }

    /**
     * transitionToNextState: installs BindSent or Error; with no context it
     * does nothing, and any other next state is only logged.
     */
    method TransitionToNextState()
      modifies context
      ensures context != null ==>
        context.syncCount == old(context.syncCount) && context.sentBinds == old(context.sentBinds)
      ensures context != null && nextState != SyncSent ==>
        context.installed == old(context.installed) + [nextState]
      ensures context != null && nextState == SyncSent ==>
        context.installed == old(context.installed)
    {
      if context == null {
        return;
      }
      match nextState {
        case BindSent =>
          context.installed := context.installed + [BindSent];
        case Error =>
          context.installed := context.installed + [Error];
        case SyncSent =>
      }
    }
  }

  class StateBindSent {
    const context: ClientContext?
    var nextState: CommunicateState

    constructor (context: ClientContext?)
      ensures this.context == context && nextState == BindSent
    {
      this.context := context;
      nextState := BindSent;
    }

    /**
     * processData: `parsed` says whether the bytes after the type parse as a
     * Data message. An empty buffer sets Error and then fails in
     * deserializeMsgType (`threw`); a type other than Data, or Data that
     * does not parse, sets Error; parsed Data leaves the next state as it was.
     */
    method ProcessData(data: seq<byte>, parsed: bool) returns (threw: bool)
      modifies this
      ensures threw <==> data == []
      ensures data == [] ==> nextState == Error
      ensures MsgTypeOf(data).Some? && MsgTypeOf(data).value != MsgData ==> nextState == Error
      ensures MsgTypeOf(data) == Some(MsgData) ==>
        nextState == (if parsed then old(nextState) else Error)
    {
      if data == [] {
        nextState := Error;
      }
      var msgType := MsgTypeOf(data);
      if msgType.None? {
        return true;
      }
      if msgType.value != MsgData {
        nextState := Error;
        return false;
      }
      if !parsed {
        nextState := Error;
      }
      return false;
    }

    /** transitionToNextState: empty in the source, so the state machine stays in BindSent. */
    method TransitionToNextState()
      ensures nextState == old(nextState)
    {
    }
  }

  /**
   * A matching Ack takes the client from SyncSent to BindSent with one Bind
   * numbered 1 on the queue; a wrong Ack number takes it to Error instead.
   */
  method HandshakeRun() returns (good: seq<CommunicateState>, binds: seq<int>, bad: seq<CommunicateState>)
    ensures good == [BindSent] && binds == [1] && bad == [Error]
  {
    var context := new ClientContext();
    var state := new StateSyncSent(context);
    state.ProcessData([MsgAck, 8, 0], 0);
    state.TransitionToNextState();
    good, binds := context.installed, context.sentBinds;

    var other := new ClientContext();
    var wrong := new StateSyncSent(other);
    wrong.ProcessData([MsgAck, 8, 5], 5);
    wrong.TransitionToNextState();
    bad := other.installed;
  }
}
