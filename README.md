# IAP tunnel sub-protocol engine, in Dafny

This project models the client side of the IAP tunnelling sub-protocol in
`iap/iap.go`. That code turns a websocket into a byte stream. Each websocket
binary message carries one frame with a big-endian 16-bit tag:

- Success (0x1): a 32-bit length, then the session id.
- Data (0x4): a 32-bit length of at most 16384, then the payload.
- Ack (0x7): a 64-bit cumulative byte count.

The model has three parts.

- **Inbound.** The frame readers (`readFrame`, `readSuccessFrame`, `readDataFrame`,
  `readAckFrame`) and the handshake gate. Any frame other than Success fails until
  the connection is connected; after that, unknown tags are ignored. After every
  Data frame the ack rule runs: once more than 2 * 16384 received bytes are
  unacknowledged, one 10-byte Ack message is sent and `recvNbAcked` catches up.
- **Outbound.** The write loop's `writeFrame`. It cuts an announced byte count
  into Data messages of at most 16384 bytes and advances `sendNbUnacked` by each one.
- **Wire format.** Big-endian integers and the Data, Ack and Success message layouts.

The websocket is modelled as whole messages: `wire` is the list of messages
sent, and each `ReadFrame` call takes one received message as a parameter. The
receive `io.Pipe` is the byte sequence `recvPipe`, which only grows. The send
`io.Pipe` is `sendPipe`, which `WriteFrame` consumes. The four `uint64` counters
wrap around modulo 2^64, as Go's do (`Bytes.Add64`, `Bytes.Sub64`).

Modules:

- `Bytes`: bytes, fixed-width integers, big-endian encoding and decoding.
- `Frames`: protocol constants, `min`, message layouts, the reader idealisation
  `Take`, and the chunking of a write.
- `Protocol`: the connection state as a value (`ConnState`) and `Receive`, the
  effect of one inbound message, with the lemmas about them.
- `Iap`: the class `Conn`. Its fields are those of the Go struct. Its methods
  update them in place and are proved to follow `Protocol.Receive` (reading) or
  `Frames.Chunks` (writing).

Three behaviours of the code differ from what a reader of the protocol might expect, and the model keeps them:

- `Sent()` returns `sendNbAcked`, which only an incoming Ack frame moves. Sending
  20000 bytes advances `sendNbUnacked` by 20000 and leaves `Sent()` unchanged.
- A Success frame after the handshake is still handled and replaces the session id.
- Before the handshake, a frame with an unknown tag is an error. It is not ignored.

## Model

| member | source | states |
|---|---|---|
| `Bytes.DecodeBE` | iap/iap.go:244 | the big-endian value of a byte string (binary.BigEndian.Uint16/32/64) is below 256^width |
| `Bytes.DecodeEncode` | iap/iap.go:176-177 | decoding a w-byte big-endian encoding gives back the encoded value |
| `Bytes.EncodeDecode` | iap/iap.go:186 | every w-byte string is the big-endian encoding of its decoded value, so decoding loses nothing |
| `Bytes.EncodeBE` | iap/iap.go:176-177 | the w-byte big-endian encoding that binary.Write with BigEndian writes, of a value below 256^w; it is exactly w bytes long, and DecodeEncode and EncodeDecode make it the inverse of DecodeBE |
| `Bytes.Add64` | iap/iap.go:224 | uint64 addition: the plain sum below 2^64, the sum minus 2^64 once past it |
| `Bytes.Sub64` | iap/iap.go:261 | uint64 subtraction: the plain difference when it is not negative, otherwise the difference plus 2^64 |
| `Bytes.Add64Twice` | iap/iap.go:300 | adding two amounts in two wrapping steps equals adding their sum in one |
| `Frames.Min` | iap/iap.go:30-35 | the result is at most both arguments and equals one of them |
| `Frames.Take` | iap/iap.go:183 | a field read at an offset gives exactly k bytes of the message, and fails exactly when fewer than k remain |
| `Frames.TakeSplit` | iap/iap.go:183-192 | reading a + b bytes is reading a bytes and then the b bytes after them, as a length and then a body are read: the one succeeds exactly when both do, with the same bytes in order |
| `Frames.DataMessageFields` | iap/iap.go:292-295 | a Data message is 6 + L bytes; its tag reads back as 0x4, its length as L, its tail as the payload |
| `Frames.AckMessageFields` | iap/iap.go:169-179 | an Ack message is 10 bytes: 0x00 0x07, then the count as a big-endian uint64 |
| `Frames.SuccessMessageFields` | iap/iap.go:182-192 | a Success message reads back as tag 0x1, the id's length and the id |
| `Frames.DataMessage` | iap/iap.go:292-295 | the Data message for a payload of at most 16384 bytes: 6 + L bytes ending with the payload |
| `Frames.AckMessage` | iap/iap.go:169-179 | the Ack message writeAck sends: 10 bytes |
| `Frames.SuccessMessage` | iap/iap.go:182-192 | the Success message readSuccessFrame parses: 6 + L bytes ending with the session id |
| `Frames.Chunks` | iap/iap.go:283-302 | every payload the write loop cuts is non-empty and at most 16384 bytes |
| `Frames.ChunksFlatten` | iap/iap.go:283-302 | the payloads, concatenated in order, are exactly the bytes that were cut |
| `Frames.ChunksCount` | iap/iap.go:283-302 | an nb-byte write gives ceil(nb / 16384) payloads |
| `Frames.ChunksFull` | iap/iap.go:283-302 | every payload except the last is exactly 16384 bytes |
| `Frames.Chunks20000` | iap/iap.go:283-302 | a 20000-byte write gives two payloads, of 16384 and 3616 bytes |
| `Frames.SequentialWrites` | iap/iap.go:277-305 | the payloads of two writes in a row concatenate to the two writes in order |
| `Frames.DataMessagesStep` | iap/iap.go:283-302 | the messages still owed for nb bytes are one Data message for the first min(nb, 16384) bytes, then the messages owed for the rest |
| `Frames.DataMessages` | iap/iap.go:283-302 | one Data message per payload: as many messages as payloads, message i being the Data message of payload i |
| `Frames.WriteMessages` | iap/iap.go:283-302 | an nb-byte write sends ceil(nb / 16384) Data messages, message i carrying payload i, each of 7 to 6 + 16384 bytes, every one but the last full |
| `Protocol.GateBeforeConnected` | iap/iap.go:246-252 | before the handshake, any tag other than Success (unknown tags included) fails with NotConnected and changes nothing |
| `Protocol.HandshakeAccepts` | iap/iap.go:246-252 | before the handshake a message succeeds exactly when it is a complete Success frame with L <= 16384; then connected is set, the session id is the L bytes after the length, and nothing else changes; on failure the connection stays unconnected |
| `Protocol.SuccessRoundTrip` | iap/iap.go:182-198 | a Success message for any id of up to 16384 bytes sets that id and marks the connection connected, also when it already was |
| `Protocol.SuccessTooLarge` | iap/iap.go:186-189 | a Success frame with L > 16384 fails with FrameTooLarge(L) and leaves the state unchanged |
| `Protocol.DataTooLarge` | iap/iap.go:216-219 | on a connected, valid connection a Data frame with L > 16384 fails: nothing is delivered, no counter moves, no Ack is sent |
| `Protocol.DataRoundTrip` | iap/iap.go:212-227 | a Data message as the write side builds it delivers exactly its payload, in order, adds its length to recvNbUnacked and leaves the session and send-side fields alone |
| `Protocol.DataDecodeEncode` | iap/iap.go:212-227 | an accepted Data frame delivers msg[6..6+L], and the message is the Data message of that payload followed by its trailing bytes |
| `Protocol.DataCountsWhatItDelivers` | iap/iap.go:221-224 | a Data frame appends at most 16384 bytes to the receive pipe and adds exactly that many to recvNbUnacked |
| `Protocol.ShortDataFrameAsWritten` | iap/iap.go:221-224 | a frame announcing 5 bytes but carrying 2: as written it succeeds, delivers 2 and counts 5; the model rejects it |
| `Protocol.AckRule` | iap/iap.go:260-266 | after a Data frame an Ack is sent iff recvNbUnacked - recvNbAcked > 32768; the Ack is the single 10-byte message carrying recvNbUnacked, and recvNbAcked then equals it |
| `Protocol.InvariantPreserved` | iap/iap.go:229-275 | every message keeps the window within 2 * 16384 (modulo 2^64) and the session id within 16384 bytes |
| `Protocol.WindowWithoutWrap` | iap/iap.go:260-266 | while the counters do not wrap, recvNbAcked <= recvNbUnacked and their difference is at most 32768 after every message |
| `Protocol.FailureDeliversNothing` | iap/iap.go:229-275 | on a valid connection a failing message changes at most the session id (only for a Success tag), so nothing is delivered, counted or sent |
| `Protocol.AckFrame` | iap/iap.go:200-209 | once connected, an Ack frame sets sendNbAcked to its big-endian uint64 and changes nothing else |
| `Protocol.AckRoundTrip` | iap/iap.go:200-209 | the Ack message writeAck builds, read by a connected peer, sets sendNbAcked to the count it carries |
| `Protocol.UnknownTagIgnored` | iap/iap.go:267-269 | once connected, an unknown tag succeeds with no state change and no output |
| `Protocol.AcknowledgedCountersMoveOnlyOnAcks` | iap/iap.go:160-167 | what Sent and Received report moves only on Acks: sendNbAcked on an incoming Ack frame, recvNbAcked only as an Ack carrying it is sent |
| `Protocol.Receive` | iap/iap.go:229-275 | the effect of readFrame on one message: a success leaves the connection connected, the send pipe and sendNbUnacked are not touched, and at most one message (an Ack) is sent |
| `Protocol.ReceiveSuccess` | iap/iap.go:182-198 | readSuccessFrame changes only sessionID and connected; on success connected is set and the id is at most 16384 bytes; on failure connected is unchanged |
| `Protocol.ReceiveAck` | iap/iap.go:200-209 | readAckFrame changes only sendNbAcked; it succeeds exactly when the 8 count bytes are present, and a failure changes nothing |
| `Protocol.ReceiveData` | iap/iap.go:212-227 | readDataFrame changes only recvPipe and recvNbUnacked; it succeeds exactly when the length field is complete, L <= 16384 and L payload bytes follow, and then appends exactly those bytes; a failure changes nothing. A payload cut short fails here, while the code accepts it (see "## Findings") |
| `Protocol.ReceiveDataAsWritten` | iap/iap.go:212-227 | readDataFrame as written: it succeeds whenever the length field is complete and L <= 16384, appends at most L bytes, and still adds L to recvNbUnacked |
| `Protocol.AckIfNeeded` | iap/iap.go:260-266 | afterwards the window is within 32768; when it exceeded that, the Ack carrying recvNbUnacked is appended and recvNbAcked catches up, otherwise nothing changes; the status passes through |
| `Protocol.ReceiveAll` | iap/iap.go:307-313 | the read loop: messages in order until the first error; the send side is not touched, and a successful non-empty run leaves the connection connected |
| `Protocol.ReceiveGrows` | iap/iap.go:229-275 | reading one message only appends: to the receive pipe, and to the wire at most one message |
| `Protocol.ReceiveAllGrows` | iap/iap.go:307-313 | the read loop only appends to the receive pipe and to the wire, at most one message per message read |
| `Protocol.DataMessagesDelivered` | iap/iap.go:212-227 | Data messages read in order by a connected connection all succeed and deliver their payloads concatenated in order, session id unchanged |
| `Protocol.WrittenBytesDelivered` | iap/iap.go:292-295 | the Data messages writeFrame makes of a byte string, read in order by a connected peer, deliver exactly that string |
| `Protocol.HandshakeThenData` | iap/iap.go:229-275 | a Success message for an id of up to 16384 bytes followed by Data messages leaves the connection with that id and with the payloads concatenated in the receive pipe |
| `Protocol.HelloWorld` | iap/iap.go:229-275 | Success "abc", Data "hello", Data " world" from a fresh connection: all succeed, the receive pipe holds "hello world", the session id is "abc" |
| `Iap.Conn.constructor` | iap/iap.go:115-126 | a fresh connection: not connected, empty session id, all counters zero, empty pipes, nothing sent |
| `Iap.Conn.Sent` | iap/iap.go:160-162 | returns sendNbAcked, the count acknowledged by the peer |
| `Iap.Conn.Received` | iap/iap.go:165-167 | returns recvNbAcked, the count acknowledged to the peer |
| `Iap.Conn.WriteAck` | iap/iap.go:169-179 | appends exactly one message, the Ack message for the given count |
| `Iap.Conn.ReadSuccessFrame` | iap/iap.go:182-198 | updates sessionID and connected in place exactly as Protocol.ReceiveSuccess describes |
| `Iap.Conn.ReadAckFrame` | iap/iap.go:200-209 | updates sendNbAcked in place exactly as Protocol.ReceiveAck describes |
| `Iap.Conn.ReadDataFrame` | iap/iap.go:212-227 | appends to the receive pipe and advances recvNbUnacked exactly as Protocol.ReceiveData describes |
| `Iap.Conn.ReadFrame` | iap/iap.go:229-275 | the new fields and the error are those of Protocol.Receive on the old fields, and the invariant is kept |
| `Iap.Conn.WriteFrame` | iap/iap.go:277-305 | a closed announcement returns EndOfStream and sends nothing; an announcement nb sends DataMessages(Chunks(first nb pending bytes)), which is ceil(nb / 16384) messages, consumes exactly those bytes and adds nb to sendNbUnacked (mod 2^64) |

## Left out

- `Dial` and `connectURL` are not modelled: websocket dialing, the auth and origin headers, compression options and URL encoding. The constructor stands for the struct that `Dial` builds, and `Protocol.HandshakeAccepts` for its first `readFrame`.
- The `read` and `write` goroutine loops, `Close`, `Read`, `Write`, the `sendNbCh` channel and the blocking of the `io.Pipe`s are not modelled. They are about concurrency. `Write`'s announcement is the `announcement` parameter of `WriteFrame`; `None` means the channel is closed. `Protocol.ReceiveAll` stands for the read loop run in sequence.
- `Iap.Conn.WriteFrame` requires the send pipe to hold the announced bytes. `Write` announces `len(buf)` and then writes `buf`; the source blocks until those bytes arrive.
- `SessionID()` is not modelled. It is a plain read of `sessionID`.
- Websocket errors are not modelled: `conn.Reader` or `conn.Writer` failing, close-error wrapping, and `context` handling. In the model, sending a message always succeeds.
- Short reads of `io.Reader.Read` are not modelled. Each field read takes exactly k bytes of the message or fails with `EndOfMessage` (`Frames.Take`). When a Success frame's id is cut short, the model leaves the session id as the zero-filled buffer of the announced length. The source allocates that buffer before the read.
- Bytes after the end of a frame are ignored. What the websocket library does with an unread remainder of a message is not modelled.
- The staging buffers `recvBuf` and `sendBuf` are not modelled. They only carry bytes for the copies and do not change which bytes arrive.
- `binary.Write` errors are not modelled. The source ignores them.
- `Protocol.ReceiveData`: a Data frame whose payload is shorter than its length field fails with `EndOfMessage` and delivers nothing. The code accepts it, delivers the bytes present and counts the full length; `Protocol.ReceiveDataAsWritten` models that, and "## Findings" explains why the model does not follow it.
- `Protocol.DataTooLarge`: the promise that no Ack is sent needs the window invariant. The source checks the ack rule even after a failed Data frame, so without the invariant an Ack could still go out.

## Findings

| source | as written | input that shows it | evidently intended | confidence | as-written member | corrected member |
|---|---|---|---|---|---|---|
| iap/iap.go:221-224 | `copyNBuffer` is `io.CopyBuffer` over an `io.LimitReader`, which returns no error when the message ends early. `readDataFrame` then adds the announced length to `recvNbUnacked` anyway. | Data message 00 04 00 00 00 05 01 02: five bytes announced, two carried. It succeeds, delivers 2 bytes, counts 5, and a later Ack acknowledges bytes never received. | Copy exactly the announced length or fail, as `io.CopyN` does (the helper's comment compares it to `io.CopyN`). | medium; not executed | `Protocol.ShortDataFrameAsWritten` | `Protocol.DataCountsWhatItDelivers` |
