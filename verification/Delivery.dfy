/** The agent's sending side run alone: connecting, online and offline sends, and the drain after a reconnect. */
module Delivery {
  import opened Sequences
  import opened AgentBuffer
  import DeliveryProtocol

  /** `written` holds the messages whose WebSocket write reported success, oldest first. */
  class Client {
    const buffer: RingBuffer
    var hasConn: bool
    var connected: bool
    var written: seq<Message>

    ghost predicate Valid()
      reads this, buffer, buffer.items
    { buffer.Valid() && (connected ==> hasConn) }

    /** This client is in state `s` of the protocol, with no drain running. */
    ghost predicate In(s: DeliveryProtocol.State)
      requires Valid()
      reads this, buffer, buffer.items
    {
      s.connected == connected && s.buffer == buffer.Contents() && s.written == written && s.drain.Idle?
    }

    constructor (capacity: int)
      requires capacity > 0
      ensures Valid() && fresh(buffer) && fresh(buffer.items) && buffer.capacity == capacity
      ensures !hasConn && !connected && written == [] && buffer.Contents() == []
    {
      buffer := new RingBuffer(capacity);
      hasConn, connected, written := false, false, [];
    }

    /**
     * A handshake with the server, and the drain of the buffer if it is accepted. A refused one
     * leaves a connection behind that is not used.
     */
    method Connect(accepted: bool, failAt: nat)
      requires Valid() && !connected
      modifies this`hasConn, this`connected, this`written, buffer, buffer.items
      ensures Valid() && hasConn && connected == accepted
      ensures written + buffer.Contents() == old(written) + old(buffer.Contents())
      ensures |buffer.Contents()| == if accepted && failAt >= |old(buffer.Contents())| then 0
                                     else |old(buffer.Contents())| - if accepted then failAt else 0
      ensures accepted ==> forall s :: old(In(s)) ==>
                var run := DeliveryProtocol.ConnectRun(s.buffer, failAt);
                DeliveryProtocol.IsRun(s, run, buffer.capacity) && In(DeliveryProtocol.Final(s, run, buffer.capacity))
    {
      hide LastN, Window, DeliveryProtocol.IsRun, DeliveryProtocol.Final;
      hasConn := true;
      if accepted {
        connected := true;
        FlushBuffer(failAt);
        forall s: DeliveryProtocol.State | s.drain.Idle? && |s.buffer| <= buffer.capacity {
          DeliveryProtocol.ConnectIsRun(s, failAt, buffer.capacity);
        }
      }
    }

    /** The end of the read loop. */
    method Disconnect()
      requires Valid()
      modifies this`hasConn, this`connected
      ensures Valid() && !hasConn && !connected
      ensures forall s :: old(In(s)) ==>
                && DeliveryProtocol.Enabled(s, DeliveryProtocol.Disconnect)
                && In(DeliveryProtocol.Apply(s, DeliveryProtocol.Disconnect, buffer.capacity))
    {
      hasConn, connected := false, false;
    }

    /** `writeOk` is the fate of the socket write, if one is attempted. */
    method Send(data: Message, writeOk: bool) returns (failed: bool)
      requires Valid()
      modifies this`written, buffer, buffer.items
      ensures Valid()
      ensures var online := connected && hasConn;
              && failed == (online && !writeOk)
              && written == (if online && writeOk then old(written) + [data] else old(written))
              && buffer.Contents() == (if online && writeOk then old(buffer.Contents())
                                       else BoundedPush(old(buffer.Contents()), data, buffer.capacity))
      ensures forall s :: old(In(s)) ==>
                var run := DeliveryProtocol.SendRun(s, data, writeOk);
                DeliveryProtocol.IsRun(s, run, buffer.capacity) && In(DeliveryProtocol.Final(s, run, buffer.capacity))
    {
      hide LastN, Window, DeliveryProtocol.IsRun, DeliveryProtocol.Final;
      forall s: DeliveryProtocol.State {
        DeliveryProtocol.SendIsRun(s, data, writeOk, buffer.capacity);
      }
      if !connected || !hasConn {
        buffer.Push(data);
        return false;
      }
      if writeOk {
        written := written + [data];
      } else {
        buffer.Push(data);
      }
      return !writeOk;
    }

    /**
     * The drain of a fresh connection. The write at index `failAt` fails, if there is one.
     * Whatever the point of failure, nothing is lost, duplicated or reordered.
     */
    method FlushBuffer(failAt: nat)
      requires Valid()
      modifies this`written, buffer, buffer.items
      ensures Valid()
      ensures var k := Min(failAt, |old(buffer.Contents())|);
              && written == old(written) + old(buffer.Contents())[..k]
              && buffer.Contents() == old(buffer.Contents())[k..]
      ensures written + buffer.Contents() == old(written) + old(buffer.Contents())
      ensures forall s :: old(In(s)) ==>
                var run := DeliveryProtocol.FlushRun(s.buffer, failAt);
                DeliveryProtocol.IsRun(s, run, buffer.capacity) && In(DeliveryProtocol.Final(s, run, buffer.capacity))
    {
      hide LastN, Window, DeliveryProtocol.IsRun, DeliveryProtocol.Final;
      var buffered := buffer.DrainAll();
      var i := 0;
      while i < |buffered| && i != failAt
        invariant 0 <= i <= |buffered| && i <= failAt
        invariant buffer.Valid() && buffer.Contents() == []
        invariant written == old(written) + buffered[..i]
      {
        written := written + [buffered[i]];
        i := i + 1;
      }
      if i < |buffered| {
        PushBack(buffered, i);
      }
      assert buffer.Contents() == buffered[i..];
      assert buffered == buffered[..i] + buffered[i..];
      forall s: DeliveryProtocol.State | s.drain.Idle? && |s.buffer| <= buffer.capacity {
        DeliveryProtocol.FlushIsRun(s, failAt, buffer.capacity);
      }
    }

    /** Returns the unsent rest of a drained list to the empty buffer. */
    method PushBack(buffered: seq<Message>, from: nat)
      requires buffer.Valid() && from <= |buffered| <= buffer.capacity && buffer.Contents() == []
      modifies buffer, buffer.items
      ensures buffer.Valid() && buffer.Contents() == buffered[from..]
    {
      hide LastN, Window;
      for j := from to |buffered|
        invariant buffer.Valid() && buffer.Contents() == buffered[from..j]
      {
        buffer.Push(buffered[j]);
        assert buffered[from..j + 1] == buffered[from..j] + [buffered[j]];
      }
    }
  }
}
