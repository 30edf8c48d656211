/** The connection's state and what one inbound binary message does to it
    (readFrame and the frame readers of iap/iap.go), as functions on values.
    The class in module Iap is proved to follow these functions. */
module Protocol {
  import opened Wrappers
  import opened Bytes
  import opened Frames

  datatype Error =
    | EndOfMessage          // a field runs past the end of the message
    | FrameTooLarge(len: nat) // a length field above MaxFrameSize
    | NotConnected          // a non-Success frame before the handshake
    | EndOfStream           // the write announcements have been closed

  datatype Status = Ok | Err(error: Error)

  /** The fields of a connection. `recvPipe` is every byte written into the
      receive pipe so far, `sendPipe` the bytes written by callers that the
      write loop has not consumed yet, `wire` every binary message sent on
      the websocket so far. */
  datatype ConnState = ConnState(
    connected: bool,
    sessionID: seq<byte>,
    recvNbAcked: u64,
    recvNbUnacked: u64,
    recvPipe: seq<byte>,
    sendNbAcked: u64,
    sendNbUnacked: u64,
    sendPipe: seq<byte>,
    wire: seq<seq<byte>>)

  datatype Step = Step(state: ConnState, status: Status)

  /** A connection as constructed, before the handshake frame is read. */
  function Initial(): ConnState
  {
    ConnState(false, [], 0, 0, [], 0, 0, [], [])
  }

  /** Received bytes not yet acknowledged, in uint64 arithmetic. */
  function Unacked(s: ConnState): u64
  {
    Sub64(s.recvNbUnacked, s.recvNbAcked)
  }

  /** What every connection keeps between frames: the receive window never
      exceeds the ack threshold and the session id is no longer than a frame. */
  predicate Invariant(s: ConnState)
  {
    Unacked(s) <= AckThreshold && |s.sessionID| <= MaxFrameSize
  }

  /** The tag of a message, if it holds two bytes. */
  function TagOf(msg: seq<byte>): Option<u16>
  {
    Pow256Widths();
    if |msg| < 2 then None else Some(DecodeBE(msg[..2]))
  }

  /** The handling of one message that the transport delivered. */
  function Receive(s: ConnState, msg: seq<byte>): (r: Step)
    ensures r.status.Ok? ==> r.state.connected
    ensures r.state.sendPipe == s.sendPipe && r.state.sendNbUnacked == s.sendNbUnacked
    ensures |r.state.wire| <= |s.wire| + 1
  {
    match TagOf(msg)
    case None => Step(s, Err(EndOfMessage))
    case Some(tag) =>
      if tag == TagSuccess then ReceiveSuccess(s, msg[2..])
      else if !s.connected then Step(s, Err(NotConnected))
      else if tag == TagAck then ReceiveAck(s, msg[2..])
      else if tag == TagData then AckIfNeeded(ReceiveData(s, msg[2..]))
      else Step(s, Ok)
  }

  /** The body of a Success frame. The session id buffer is replaced by
      zero bytes of the announced length before it is read. */
  function ReceiveSuccess(s: ConnState, body: seq<byte>): (r: Step)
    ensures r.state == s.(sessionID := r.state.sessionID, connected := r.state.connected)
    ensures r.status.Ok? ==> r.state.connected && |r.state.sessionID| <= MaxFrameSize
    ensures r.status.Err? ==> r.state.connected == s.connected
  {
    if |body| < 4 then Step(s, Err(EndOfMessage))
    else
      var len := DecodeBE(body[..4]);
      if len > MaxFrameSize then Step(s, Err(FrameTooLarge(len)))
      else if |body| < 4 + len then Step(s.(sessionID := seq(len, _ => 0)), Err(EndOfMessage))
      else Step(s.(sessionID := body[4..4 + len], connected := true), Ok)
  }

  /** The body of an Ack frame: the peer's cumulative count of our bytes. */
  function ReceiveAck(s: ConnState, body: seq<byte>): (r: Step)
    ensures r.state == s.(sendNbAcked := r.state.sendNbAcked)
    ensures r.status.Ok? <==> |body| >= 8
    ensures r.status.Err? ==> r.state == s
  {
    Pow256Widths();
    if |body| < 8 then Step(s, Err(EndOfMessage))
    else Step(s.(sendNbAcked := DecodeBE(body[..8])), Ok)
  }

  /** The body of a Data frame: exactly `len` payload bytes go to the receive
      pipe, or the frame fails and nothing does. */
  function ReceiveData(s: ConnState, body: seq<byte>): (r: Step)
    ensures r.state == s.(recvPipe := r.state.recvPipe, recvNbUnacked := r.state.recvNbUnacked)
    ensures r.status.Err? ==> r.state == s
    ensures r.status.Ok? <==>
      (|body| >= 4 && DecodeBE(body[..4]) <= MaxFrameSize && |body| >= 4 + DecodeBE(body[..4]))
    ensures r.status.Ok? ==> r.state.recvPipe == s.recvPipe + body[4..4 + DecodeBE(body[..4])]
  {
    if |body| < 4 then Step(s, Err(EndOfMessage))
    else
      var len := DecodeBE(body[..4]);
      if len > MaxFrameSize then Step(s, Err(FrameTooLarge(len)))
      else if |body| < 4 + len then Step(s, Err(EndOfMessage))
      else Step(s.(recvPipe := s.recvPipe + body[4..4 + len],
                   recvNbUnacked := Add64(s.recvNbUnacked, len)), Ok)
  }

  /** readDataFrame as the source writes it: copyNBuffer copies through a
      LimitReader and, like io.CopyBuffer, reports no error when the message
      ends first, so a short payload is delivered in part while the full
      announced length is counted. */
  function ReceiveDataAsWritten(s: ConnState, body: seq<byte>): (r: Step)
    ensures r.state == s.(recvPipe := r.state.recvPipe, recvNbUnacked := r.state.recvNbUnacked)
    ensures r.status.Ok? <==> |body| >= 4 && DecodeBE(body[..4]) <= MaxFrameSize
    ensures r.status.Ok? ==>
      (s.recvPipe <= r.state.recvPipe &&
       |r.state.recvPipe| - |s.recvPipe| <= DecodeBE(body[..4]) &&
       r.state.recvNbUnacked == Add64(s.recvNbUnacked, DecodeBE(body[..4])))
  {
    if |body| < 4 then Step(s, Err(EndOfMessage))
    else
      var len := DecodeBE(body[..4]);
      if len > MaxFrameSize then Step(s, Err(FrameTooLarge(len)))
      else
        var copied := Min(len, |body| - 4);
        Step(s.(recvPipe := s.recvPipe + body[4..4 + copied],
                recvNbUnacked := Add64(s.recvNbUnacked, len)), Ok)
  }

  /** The ack rule applied after every Data frame, whatever its outcome. */
  function AckIfNeeded(st: Step): (r: Step)
    ensures Unacked(r.state) <= AckThreshold
    ensures r.status == st.status
    ensures r.state == st.state.(wire := r.state.wire, recvNbAcked := r.state.recvNbAcked)
    ensures Unacked(st.state) > AckThreshold ==>
      r.state.wire == st.state.wire + [AckMessage(st.state.recvNbUnacked)] &&
      r.state.recvNbAcked == st.state.recvNbUnacked
    ensures Unacked(st.state) <= AckThreshold ==> r == st
  {
    var s := st.state;
    if Unacked(s) > AckThreshold then
      Step(s.(wire := s.wire + [AckMessage(s.recvNbUnacked)], recvNbAcked := s.recvNbUnacked), st.status)
    else st
  }

  /** The read loop: messages handled in order until the first error. */
  function ReceiveAll(s: ConnState, msgs: seq<seq<byte>>): (r: Step)
    ensures r.status.Ok? && msgs != [] ==> r.state.connected
    ensures r.state.sendPipe == s.sendPipe && r.state.sendNbUnacked == s.sendNbUnacked
    decreases |msgs|
  {
    if msgs == [] then Step(s, Ok)
    else
      var st := Receive(s, msgs[0]);
      if st.status.Err? then st else ReceiveAll(st.state, msgs[1..])
  }

  /** Reading a message only appends: to the receive pipe (a Data payload)
      and to the wire (at most one Ack). */
  lemma ReceiveGrows(s: ConnState, msg: seq<byte>)
    ensures var r := Receive(s, msg).state;
      s.recvPipe <= r.recvPipe && s.wire <= r.wire && |r.wire| <= |s.wire| + 1
  {
  }

  /** The read loop only appends to the receive pipe and to the wire, at
      most one Ack per message read. */
  lemma {:induction false} ReceiveAllGrows(s: ConnState, msgs: seq<seq<byte>>)
    ensures var r := ReceiveAll(s, msgs).state;
      s.recvPipe <= r.recvPipe && s.wire <= r.wire && |r.wire| <= |s.wire| + |msgs|
    decreases |msgs|
  {
    if msgs != [] {
      var st := Receive(s, msgs[0]);
      ReceiveGrows(s, msgs[0]);
      if st.status.Ok? {
        ReceiveAllGrows(st.state, msgs[1..]);
      }
    }
  }

  // ---------------------------------------------------------------------
  // The handshake gate

  /** Before the handshake, every frame other than Success (an unknown tag
      included) fails and changes nothing. */
  lemma GateBeforeConnected(s: ConnState, msg: seq<byte>)
    requires !s.connected
    requires |msg| >= 2 && DecodeBE(msg[..2]) != TagSuccess
    ensures Receive(s, msg) == Step(s, Err(NotConnected))
  {
  }

  /** Before the handshake, a message is accepted exactly when it is a
      complete Success frame within the size limit; the connection is then
      marked connected with the frame's id and nothing else changes. */
  lemma HandshakeAccepts(s: ConnState, msg: seq<byte>)
    requires !s.connected
    ensures Receive(s, msg).status == Ok <==>
      |msg| >= 6 && DecodeBE(msg[..2]) == TagSuccess &&
      DecodeBE(msg[2..6]) <= MaxFrameSize && |msg| >= 6 + DecodeBE(msg[2..6])
    ensures Receive(s, msg).status == Ok ==>
      Receive(s, msg).state == s.(connected := true, sessionID := msg[6..6 + DecodeBE(msg[2..6])])
    ensures Receive(s, msg).status != Ok ==> !Receive(s, msg).state.connected
  {
    if |msg| >= 6 {
      assert msg[2..][..4] == msg[2..6];
      var len := DecodeBE(msg[2..6]);
      if |msg| >= 6 + len {
        assert msg[2..][4..4 + len] == msg[6..6 + len];
      }
    }
  }

  /** A Success frame sets the session id and marks the connection
      connected, also when it already was. */
  lemma SuccessRoundTrip(s: ConnState, id: seq<byte>, trailing: seq<byte>)
    requires |id| <= MaxFrameSize
    ensures Receive(s, SuccessMessage(id) + trailing) ==
      Step(s.(connected := true, sessionID := id), Ok)
  {
    var m := SuccessMessage(id) + trailing;
    SuccessMessageFields(id);
    assert m[..2] == SuccessMessage(id)[..2];
    assert m[2..][..4] == SuccessMessage(id)[2..6];
    assert m[2..][4..4 + |id|] == id;
  }

  /** A Success frame announcing more than MaxFrameSize bytes fails and
      leaves the connection as it was. */
  lemma SuccessTooLarge(s: ConnState, msg: seq<byte>)
    requires |msg| >= 6 && DecodeBE(msg[..2]) == TagSuccess
    requires DecodeBE(msg[2..6]) > MaxFrameSize
    ensures Receive(s, msg) == Step(s, Err(FrameTooLarge(DecodeBE(msg[2..6]))))
  {
    assert msg[2..][..4] == msg[2..6];
  }

  // ---------------------------------------------------------------------
  // Data frames and the ack rule

  /** On a connected, valid connection, a Data frame announcing more than
      MaxFrameSize bytes fails: nothing is delivered, no counter moves and no
      Ack is sent. */
  lemma DataTooLarge(s: ConnState, msg: seq<byte>)
    requires s.connected && Invariant(s)
    requires |msg| >= 6 && DecodeBE(msg[..2]) == TagData
    requires DecodeBE(msg[2..6]) > MaxFrameSize
    ensures Receive(s, msg) == Step(s, Err(FrameTooLarge(DecodeBE(msg[2..6]))))
  {
    assert msg[2..][..4] == msg[2..6];
  }

  /** Encode then decode: a Data message built by the write side delivers
      exactly its payload, in order, and counts exactly its length. The ack
      rule may add one Ack message and move recvNbAcked; nothing else changes. */
  lemma DataRoundTrip(s: ConnState, payload: seq<byte>, trailing: seq<byte>)
    requires s.connected && |payload| <= MaxFrameSize
    ensures var st := Receive(s, DataMessage(payload) + trailing);
      st.status == Ok &&
      st.state.recvPipe == s.recvPipe + payload &&
      st.state.recvNbUnacked == Add64(s.recvNbUnacked, |payload|) &&
      st.state.connected && st.state.sessionID == s.sessionID &&
      st.state.sendNbAcked == s.sendNbAcked && st.state.sendNbUnacked == s.sendNbUnacked &&
      st.state.sendPipe == s.sendPipe
  {
    var m := DataMessage(payload) + trailing;
    DataMessageFields(payload);
    assert m[..2] == DataMessage(payload)[..2];
    assert m[2..][..4] == DataMessage(payload)[2..6];
    assert m[2..][4..4 + |payload|] == payload;
  }

  /** Decode then encode: a Data frame that is accepted is, byte for byte,
      the Data message of the payload it delivered, followed by whatever the
      message held beyond it. */
  lemma DataDecodeEncode(s: ConnState, msg: seq<byte>)
    requires s.connected && |msg| >= 2 && DecodeBE(msg[..2]) == TagData
    requires Receive(s, msg).status == Ok
    ensures |msg| >= 6 && DecodeBE(msg[2..6]) <= MaxFrameSize && |msg| >= 6 + DecodeBE(msg[2..6])
    ensures var p := msg[6..6 + DecodeBE(msg[2..6])];
      Receive(s, msg).state.recvPipe == s.recvPipe + p && msg == DataMessage(p) + msg[6 + |p|..]
  {
    var body := msg[2..];
    var d := ReceiveData(s, body);
    assert Receive(s, msg).status == d.status && Receive(s, msg).state.recvPipe == d.state.recvPipe;
    assert body[..4] == msg[2..6];
    var len := DecodeBE(msg[2..6]);
    assert body[4..4 + len] == msg[6..6 + len];
    var p := msg[6..6 + len];
    Pow256Widths();
    EncodeDecode(msg[..2]);
    EncodeDecode(msg[2..6]);
    assert msg == msg[..2] + msg[2..6] + p + msg[6 + len..];
  }

  /** A Data frame counts in recvNbUnacked exactly the bytes it appends to
      the receive pipe, so the Ack this side sends never acknowledges bytes
      it did not receive. */
  lemma DataCountsWhatItDelivers(s: ConnState, body: seq<byte>)
    ensures var r := ReceiveData(s, body).state;
      |r.recvPipe| >= |s.recvPipe| && r.recvPipe[..|s.recvPipe|] == s.recvPipe &&
      |r.recvPipe| - |s.recvPipe| <= MaxFrameSize &&
      r.recvNbUnacked == Add64(s.recvNbUnacked, |r.recvPipe| - |s.recvPipe|)
  {
  }

  /** The data frame 0x0004 || BE32(5) || 0x01 0x02 announces five bytes but
      carries two. As written it succeeds, delivers two bytes and counts
      five; the model above rejects it and delivers nothing. */
  lemma ShortDataFrameAsWritten(s: ConnState)
    ensures var body := [0, 0, 0, 5, 1, 2];
      ReceiveDataAsWritten(s, body) ==
        Step(s.(recvPipe := s.recvPipe + [1, 2], recvNbUnacked := Add64(s.recvNbUnacked, 5)), Ok) &&
      ReceiveData(s, body) == Step(s, Err(EndOfMessage))
  {
    var body: seq<byte> := [0, 0, 0, 5, 1, 2];
    var b1: seq<byte> := [0];
    var b2: seq<byte> := [0, 0];
    var b3: seq<byte> := [0, 0, 0];
    var len: seq<byte> := [0, 0, 0, 5];
    assert b1[..0] == [] && b2[..1] == b1 && b3[..2] == b2 && len[..3] == b3;
    assert DecodeBE(b1) == 0 && DecodeBE(b2) == 0 && DecodeBE(b3) == 0;
    assert body[..4] == len;
    assert DecodeBE(len) == 5;
    assert body[4..6] == [1, 2];
  }

  /** The ack rule: after a Data frame an Ack is sent exactly when the
      unacknowledged window (with the frame's bytes counted) exceeds
      2 * MaxFrameSize. The Ack is the single message 0x0007 || BE64(recvNbUnacked),
      and recvNbAcked then equals recvNbUnacked. */
  lemma AckRule(s: ConnState, msg: seq<byte>)
    requires s.connected && |msg| >= 2 && DecodeBE(msg[..2]) == TagData
    ensures var d := ReceiveData(s, msg[2..]).state;
      var r := Receive(s, msg).state;
      (|r.wire| > |s.wire| <==> Unacked(d) > AckThreshold) &&
      (Unacked(d) > AckThreshold ==>
        r == d.(wire := s.wire + [AckMessage(d.recvNbUnacked)], recvNbAcked := d.recvNbUnacked) &&
        |AckMessage(r.recvNbUnacked)| == 10 && r.recvNbAcked == r.recvNbUnacked) &&
      (Unacked(d) <= AckThreshold ==> r == d)
  {
  }

  /** Every message, accepted or not, preserves the invariant. */
  lemma InvariantPreserved(s: ConnState, msg: seq<byte>)
    requires Invariant(s)
    ensures Invariant(Receive(s, msg).state)
  {
  }

  /** As long as the counters do not wrap, recvNbAcked <= recvNbUnacked and
      their difference stays within 2 * MaxFrameSize as plain integers. */
  lemma WindowWithoutWrap(s: ConnState, msg: seq<byte>)
    requires Invariant(s) && s.recvNbAcked <= s.recvNbUnacked
    requires s.recvNbUnacked + MaxFrameSize < U64Modulus
    ensures var r := Receive(s, msg).state;
      r.recvNbAcked <= r.recvNbUnacked && r.recvNbUnacked - r.recvNbAcked <= AckThreshold
  {
  }

  /** A frame that fails delivers no byte and counts none; on a valid
      connection it sends nothing either and leaves the connected flag and
      the counters as they were. */
  lemma FailureDeliversNothing(s: ConnState, msg: seq<byte>)
    requires Invariant(s)
    requires Receive(s, msg).status.Err?
    ensures var r := Receive(s, msg).state;
      r == s.(sessionID := r.sessionID) &&
      (r.sessionID != s.sessionID ==> |msg| >= 2 && DecodeBE(msg[..2]) == TagSuccess)
  {
  }

  // ---------------------------------------------------------------------
  // Ack frames and unknown tags

  /** Once connected, an Ack frame sets sendNbAcked to the 64-bit count it
      carries and changes nothing else. */
  lemma AckFrame(s: ConnState, msg: seq<byte>)
    requires s.connected && |msg| >= 10 && DecodeBE(msg[..2]) == TagAck
    ensures DecodeBE(msg[2..10]) < U64Modulus
    ensures Receive(s, msg) == Step(s.(sendNbAcked := DecodeBE(msg[2..10])), Ok)
  {
    Pow256Widths();
    assert msg[2..][..8] == msg[2..10];
  }

  /** The Ack message this side sends, received by a connected peer, sets the
      peer's sendNbAcked to the count it carries. */
  lemma AckRoundTrip(s: ConnState, count: u64)
    requires s.connected
    ensures Receive(s, AckMessage(count)) == Step(s.(sendNbAcked := count), Ok)
  {
    AckMessageFields(count);
    AckFrame(s, AckMessage(count));
  }

  /** Once connected, a frame with an unknown tag succeeds and changes
      nothing: no counter, no stream, no output. */
  lemma UnknownTagIgnored(s: ConnState, msg: seq<byte>)
    requires s.connected && |msg| >= 2
    requires DecodeBE(msg[..2]) !in {TagSuccess, TagData, TagAck}
    ensures Receive(s, msg) == Step(s, Ok)
  {
  }

  /** What the Sent and Received getters report moves only on Ack frames:
      sendNbAcked changes only when an Ack frame arrives, recvNbAcked only
      when this side sends an Ack. */
  lemma AcknowledgedCountersMoveOnlyOnAcks(s: ConnState, msg: seq<byte>)
    ensures var r := Receive(s, msg).state;
      (r.sendNbAcked != s.sendNbAcked ==> |msg| >= 10 && DecodeBE(msg[..2]) == TagAck) &&
      (r.recvNbAcked != s.recvNbAcked ==> r.wire == s.wire + [AckMessage(r.recvNbAcked)])
  {
  }

  // ---------------------------------------------------------------------
  // End to end

  /** DataRoundTrip for a message holding exactly one Data frame. */
  lemma DataDelivered(s: ConnState, payload: seq<byte>)
    requires s.connected && |payload| <= MaxFrameSize
    ensures var st := Receive(s, DataMessage(payload));
      st.status == Ok && st.state.connected && st.state.sessionID == s.sessionID &&
      st.state.recvPipe == s.recvPipe + payload
  {
    DataRoundTrip(s, payload, []);
    assert DataMessage(payload) + [] == DataMessage(payload);
  }

  /** The read loop goes on after a message that was handled without error. */
  lemma ReceiveAllFirst(s: ConnState, msgs: seq<seq<byte>>)
    requires msgs != [] && Receive(s, msgs[0]).status == Ok
    ensures ReceiveAll(s, msgs) == ReceiveAll(Receive(s, msgs[0]).state, msgs[1..])
  {
  }

  /** ReceiveAllFirst for a list written as its first message and the rest. */
  lemma ReceiveAllCons(s: ConnState, m: seq<byte>, rest: seq<seq<byte>>)
    requires Receive(s, m).status == Ok
    ensures ReceiveAll(s, [m] + rest) == ReceiveAll(Receive(s, m).state, rest)
  {
    var msgs := [m] + rest;
    assert msgs[0] == m && msgs[1..] == rest;
  }

  /** The Data messages the write loop makes of a byte string, received in
      order on a connected connection, deliver exactly that byte string. */
  lemma WrittenBytesDelivered(s: ConnState, p: seq<byte>)
    requires s.connected
    ensures var st := ReceiveAll(s, DataMessages(Chunks(p)));
      st.status == Ok && st.state.connected && st.state.recvPipe == s.recvPipe + p
  {
    DataMessagesDelivered(s, Chunks(p));
    ChunksFlatten(p);
  }

  /** Data messages received in order on a connected connection deliver
      their payloads, concatenated in the same order. */
  lemma {:induction false} DataMessagesDelivered(s: ConnState, ps: seq<seq<byte>>)
    requires s.connected
    requires forall i :: 0 <= i < |ps| ==> |ps[i]| <= MaxFrameSize
    ensures var st := ReceiveAll(s, DataMessages(ps));
      st.status == Ok && st.state.connected && st.state.sessionID == s.sessionID &&
      st.state.recvPipe == s.recvPipe + Flatten(ps)
    decreases |ps|
  {
    if ps == [] {
      assert ReceiveAll(s, []) == Step(s, Ok);
    } else {
      var m0, rest := DataMessage(ps[0]), DataMessages(ps[1..]);
      var s1 := Receive(s, m0).state;
      assert ReceiveAll(s, DataMessages(ps)) == ReceiveAll(s1, rest) &&
          s1.connected && s1.sessionID == s.sessionID && s1.recvPipe == s.recvPipe + ps[0] by {
        assert DataMessages(ps) == [m0] + rest;
        DataDelivered(s, ps[0]);
        ReceiveAllCons(s, m0, rest);
      }
      DataMessagesDelivered(s1, ps[1..]);
      FlattenCons(s.recvPipe, ps);
    }
  }

  /** A handshake followed by Data messages: the connection is connected
      with the handshake's id and has received the payloads in order. */
  lemma HandshakeThenData(id: seq<byte>, ps: seq<seq<byte>>)
    requires |id| <= MaxFrameSize
    requires forall i :: 0 <= i < |ps| ==> |ps[i]| <= MaxFrameSize
    ensures var st := ReceiveAll(Initial(), [SuccessMessage(id)] + DataMessages(ps));
      st.status == Ok && st.state.sessionID == id && st.state.recvPipe == Flatten(ps)
  {
    var s1 := Initial().(connected := true, sessionID := id);
    assert Receive(Initial(), SuccessMessage(id)) == Step(s1, Ok) by {
      SuccessRoundTrip(Initial(), id, []);
      assert SuccessMessage(id) + [] == SuccessMessage(id);
    }
    ReceiveAllCons(Initial(), SuccessMessage(id), DataMessages(ps));
    DataMessagesDelivered(s1, ps);
  }

  /** The Data messages of two payloads, after a first message. */
  lemma DataMessagesPair(m: seq<byte>, a: seq<byte>, b: seq<byte>)
    requires |a| <= MaxFrameSize && |b| <= MaxFrameSize
    ensures [m, DataMessage(a), DataMessage(b)] == [m] + DataMessages([a, b])
  {
  }

  /** The proxy sends Success{"abc"}, Data{"hello"}, Data{" world"}: the
      receive pipe then holds "hello world" and the session id is "abc". */
  lemma HelloWorld(abc: seq<byte>, hello: seq<byte>, world: seq<byte>)
    requires abc == [0x61, 0x62, 0x63]
    requires hello == [0x68, 0x65, 0x6c, 0x6c, 0x6f]
    requires world == [0x20, 0x77, 0x6f, 0x72, 0x6c, 0x64]
    ensures var st := ReceiveAll(Initial(), [SuccessMessage(abc), DataMessage(hello), DataMessage(world)]);
      st.status == Ok && st.state.sessionID == abc &&
      st.state.recvPipe == [0x68, 0x65, 0x6c, 0x6c, 0x6f, 0x20, 0x77, 0x6f, 0x72, 0x6c, 0x64]
  {
    DataMessagesPair(SuccessMessage(abc), hello, world);
    HandshakeThenData(abc, [hello, world]);
    FlattenPair(hello, world);
  }
}
