/**
 * TcpConnection: a socket descriptor with a connected flag. The socket
 * calls (RecvTcpData, SendTcpData, SocketClose) are not modelled; their
 * results are parameters, and the descriptors closed and the buffers
 * handed to the socket are recorded.
 */
module Connection {
  import opened Bytes

  /** The descriptor value meaning "no socket". */
  const NoSocket: int := -1

  class TcpConnection {
    var connected: bool
    var socketFd: int
    /** The descriptors passed to SocketClose, in order. */
    var closedFds: seq<int>
    /** The buffers passed to SendTcpData, in order. */
    var sent: seq<seq<byte>>

    /** A new connection starts connected on the given descriptor. */
    constructor (fd: int)
      ensures connected && socketFd == fd && closedFds == [] && sent == []
    {
      connected := true;
      socketFd := fd;
      closedFds := [];
      sent := [];
    }

    /**
     * disconnect: closes the descriptor when there is one, then marks the
     * connection closed; a second call closes nothing.
     */
    method Disconnect()
      modifies this
      ensures !connected && socketFd == NoSocket && sent == old(sent)
      ensures closedFds == old(closedFds) + (if old(socketFd) != NoSocket then [old(socketFd)] else [])
    {
      if socketFd != NoSocket {
        closedFds := closedFds + [socketFd];
        socketFd := NoSocket;
      }
      connected := false;
    }

    method IsConnected() returns (r: bool)
      ensures r == connected
    {
      r := connected;
    }

    /**
     * receive: `recvResult` is what RecvTcpData returned (-1 or a count up
     * to bufferSize) and `incoming` the bytes it stored. Without a live
     * socket nothing is read and 0 is returned; an error also returns 0 and
     * marks the connection disconnected, keeping its descriptor.
     */
    method Receive(bufferSize: nat, recvResult: int, incoming: seq<byte>) returns (n: nat, data: seq<byte>)
      requires -1 <= recvResult <= bufferSize
      requires recvResult >= 0 ==> |incoming| == recvResult
      modifies this
      ensures socketFd == old(socketFd) && closedFds == old(closedFds) && sent == old(sent)
      ensures n == |data| && n <= bufferSize
      ensures old(connected) && old(socketFd) != NoSocket && recvResult >= 0 ==>
        data == incoming && connected
      ensures old(connected) && old(socketFd) != NoSocket && recvResult == -1 ==>
        data == [] && !connected
      ensures !old(connected) || old(socketFd) == NoSocket ==>
        data == [] && connected == old(connected)
    {
      if connected && socketFd != NoSocket {
        if recvResult == -1 {
          connected := false;
          return 0, [];
        }
        return recvResult, incoming;
      }
      return 0, [];
    }

    /**
     * send: with a live socket the buffer is handed to SendTcpData, whose
     * result `sendResult` is -1 on failure, which marks the connection
     * disconnected; otherwise nothing happens.
     */
    method Send(data: seq<byte>, sendResult: int)
      modifies this
      ensures socketFd == old(socketFd) && closedFds == old(closedFds)
      ensures old(connected) && old(socketFd) != NoSocket ==>
        sent == old(sent) + [data] && connected == (sendResult != -1)
      ensures !old(connected) || old(socketFd) == NoSocket ==>
        sent == old(sent) && connected == old(connected)
    {
      if connected && socketFd != NoSocket {
        sent := sent + [data];
        if sendResult == -1 {
          connected := false;
        }
      }
    }
  }
}
