/** The connection object of iap/iap.go: its fields, the frame readers that
    update them in place, the Ack writer and the write loop's frame writer.
    The websocket is a list of whole binary messages (`wire` for the ones
    sent, a parameter for the one received); the two io.Pipes are byte
    sequences. */
module Iap {
  import opened Wrappers
  import opened Bytes
  import opened Frames
  import opened Protocol

  class Conn {
    var connected: bool
    var sessionID: seq<byte>

    var recvNbAcked: u64
    var recvNbUnacked: u64
    /** Every byte written into the receive pipe so far. */
    var recvPipe: seq<byte>

    var sendNbAcked: u64
    var sendNbUnacked: u64
    /** Bytes written into the send pipe that the write loop has not read yet. */
    var sendPipe: seq<byte>

    /** Every binary message written to the websocket so far. */
    var wire: seq<seq<byte>>

    /** The fields as a value. */
    ghost function State(): ConnState
      reads this
    {
      ConnState(connected, sessionID, recvNbAcked, recvNbUnacked, recvPipe,
                sendNbAcked, sendNbUnacked, sendPipe, wire)
    }

    ghost predicate Valid()
      reads this
    {
      Invariant(State())
    }

    /** The connection as Dial builds it, before reading the handshake frame. */
    constructor ()
      ensures State() == Initial() && Valid()
    {
      connected, sessionID := false, [];
      recvNbAcked, recvNbUnacked, recvPipe := 0, 0, [];
      sendNbAcked, sendNbUnacked, sendPipe := 0, 0, [];
      wire := [];
    }

    /** Bytes sent and acknowledged by the peer. */
    function Sent(): (n: u64)
      reads this
      ensures n == State().sendNbAcked
    {
      sendNbAcked
    }

    /** Bytes received and acknowledged to the peer. */
    function Received(): (n: u64)
      reads this
      ensures n == State().recvNbAcked
    {
      recvNbAcked
    }

    /** Sends one Ack message carrying `bytes`. */
    method WriteAck(bytes: u64)
      modifies this`wire
      ensures wire == old(wire) + [AckMessage(bytes)]
    {
      Pow256Widths();
      var message := EncodeBE(TagAck, 2) + EncodeBE(bytes, 8);
      wire := wire + [message];
    }

    /** Reads the body of a Success frame starting at `pos`. */
    method ReadSuccessFrame(msg: seq<byte>, pos: nat) returns (err: Status)
      requires pos <= |msg|
      modifies this`sessionID, this`connected
      ensures Step(State(), err) == ReceiveSuccess(old(State()), msg[pos..])
    {
      var lenField := Take(msg, pos, 4);
      if lenField.None? {
        return Err(EndOfMessage);
      }
      assert msg[pos..][..4] == lenField.value;
      var len := DecodeBE(lenField.value);
      if len > MaxFrameSize {
        return Err(FrameTooLarge(len));
      }
      sessionID := seq(len, _ => 0);
      var id := Take(msg, pos + 4, len);
      if id.None? {
        return Err(EndOfMessage);
      }
      assert msg[pos..][4..4 + len] == id.value;
      sessionID := id.value;
      connected := true;
      return Ok;
    }

    /** Reads the body of an Ack frame starting at `pos`. */
    method ReadAckFrame(msg: seq<byte>, pos: nat) returns (err: Status)
      requires pos <= |msg|
      modifies this`sendNbAcked
      ensures Step(State(), err) == ReceiveAck(old(State()), msg[pos..])
    {
      Pow256Widths();
      var count := Take(msg, pos, 8);
      if count.None? {
        return Err(EndOfMessage);
      }
      assert msg[pos..][..8] == count.value;
      sendNbAcked := DecodeBE(count.value);
      return Ok;
    }

    /** Reads the body of a Data frame starting at `pos`, copying its payload
        into the receive pipe. */
    method ReadDataFrame(msg: seq<byte>, pos: nat) returns (err: Status)
      requires pos <= |msg|
      modifies this`recvPipe, this`recvNbUnacked
      ensures Step(State(), err) == ReceiveData(old(State()), msg[pos..])
    {
      var lenField := Take(msg, pos, 4);
      if lenField.None? {
        return Err(EndOfMessage);
      }
      assert msg[pos..][..4] == lenField.value;
      var len := DecodeBE(lenField.value);
      if len > MaxFrameSize {
        return Err(FrameTooLarge(len));
      }
      var payload := Take(msg, pos + 4, len);
      if payload.None? {
        return Err(EndOfMessage);
      }
      assert msg[pos..][4..4 + len] == payload.value;
      recvPipe := recvPipe + payload.value;
      recvNbUnacked := Add64(recvNbUnacked, len);
      return Ok;
    }

    /** Handles one message from the websocket: the handshake gate, the
        dispatch on the tag and, after a Data frame, the ack rule. */
    method ReadFrame(msg: seq<byte>) returns (err: Status)
      modifies this
      ensures old(Valid()) ==> Valid()
      ensures Step(State(), err) == Receive(old(State()), msg)
    {
      if Valid() {
        InvariantPreserved(State(), msg);
      }
      var tagField := Take(msg, 0, 2);
      if tagField.None? {
        return Err(EndOfMessage);
      }
      assert msg[..2] == tagField.value;
      var tag := DecodeBE(tagField.value);
      if tag == TagSuccess {
        err := ReadSuccessFrame(msg, 2);
      } else {
        if !connected {
          return Err(NotConnected);
        }
        if tag == TagAck {
          err := ReadAckFrame(msg, 2);
        } else if tag == TagData {
          err := ReadDataFrame(msg, 2);
          if Sub64(recvNbUnacked, recvNbAcked) > AckThreshold {
            WriteAck(recvNbUnacked);
            recvNbAcked := recvNbUnacked;
          }
        } else {
          // a connected peer may send tags this client does not know
          return Ok;
        }
      }
    }

    /** One turn of the write loop: takes the next write announcement (None
        once the announcements are closed) and sends the announced bytes of
        the send pipe as Data messages of at most MaxFrameSize bytes. */
    method WriteFrame(announcement: Option<nat>) returns (err: Status)
      requires announcement.Some? ==> announcement.value <= |sendPipe|
      modifies this`wire, this`sendPipe, this`sendNbUnacked
      ensures announcement.None? ==>
        err == Err(EndOfStream) && wire == old(wire) && sendPipe == old(sendPipe) &&
        sendNbUnacked == old(sendNbUnacked)
      ensures announcement.Some? ==>
        var nb := announcement.value;
        err == Ok &&
        wire == old(wire) + DataMessages(Chunks(old(sendPipe)[..nb])) &&
        sendPipe == old(sendPipe)[nb..] &&
        sendNbUnacked == Add64(old(sendNbUnacked), nb) &&
        |wire| == |old(wire)| + (nb + MaxFrameSize - 1) / MaxFrameSize
    {
      if announcement.None? {
        return Err(EndOfStream);
      }
      var nb: nat := announcement.value;
      ghost var total, pipe0, wire0, unacked0 := nb, sendPipe, wire, sendNbUnacked;
      while nb > 0
        invariant total <= |pipe0|
        invariant nb <= total
        invariant sendPipe == pipe0[total - nb..]
        invariant nb <= |sendPipe|
        invariant wire + DataMessages(Chunks(sendPipe[..nb])) == wire0 + DataMessages(Chunks(pipe0[..total]))
        invariant sendNbUnacked == Add64(unacked0, total - nb)
        decreases nb
      {
        // no Data frame may carry more than MaxFrameSize bytes
        var nbLimit := Min(nb, MaxFrameSize);
        Pow256Widths();
        var payload := sendPipe[..nbLimit];
        var message := EncodeBE(TagData, 2) + EncodeBE(nbLimit, 4) + payload;
        assert message == DataMessage(payload);
        SentPlusOwed(wire, sendPipe, nb);
        Add64Twice(unacked0, total - nb, nbLimit);
        wire := wire + [message];
        sendPipe := sendPipe[nbLimit..];
        sendNbUnacked := Add64(sendNbUnacked, nbLimit);
        nb := nb - nbLimit;
      }
      assert sendPipe[..0] == [];
      WriteMessages(pipe0[..total]);
      return Ok;
    }
  }
}
