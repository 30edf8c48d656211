/** The tunnel sub-protocol's constants, its on-wire frame layouts and the
    splitting of an outbound write into Data frames (iap/iap.go). */
module Frames {
  import opened Wrappers
  import opened Bytes

  /** Largest payload of a Data or Success frame. */
  const MaxFrameSize: nat := 16384
  const TagSuccess: u16 := 0x1
  const TagData: u16 := 0x4
  const TagAck: u16 := 0x7
  /** Unacknowledged received bytes beyond this make the receiver send an Ack. */
  const AckThreshold: nat := 2 * MaxFrameSize

  /** The smaller of two integers (the generic `min` helper). */
  function Min(a: int, b: int): (r: int)
    ensures r <= a && r <= b
    ensures r == a || r == b
  {
    if a < b then a else b
  }

  /** Reading `k` bytes of a message at offset `pos`: exactly those bytes, or
      nothing when fewer than `k` remain (the end of the message). */
  function Take(msg: seq<byte>, pos: nat, k: nat): (r: Option<seq<byte>>)
    ensures r.Some? <==> pos + k <= |msg|
    ensures r.Some? ==> |r.value| == k && msg[pos..pos + k] == r.value
  {
    if pos + k <= |msg| then Some(msg[pos..pos + k]) else None
  }

  /** Reading `a + b` bytes at once is reading `a` bytes and then the `b`
      bytes after them: the two reads succeed exactly when the one does, and
      their bytes, in order, are its bytes. */
  lemma TakeSplit(msg: seq<byte>, pos: nat, a: nat, b: nat)
    ensures Take(msg, pos, a + b).Some? <==>
      Take(msg, pos, a).Some? && Take(msg, pos + a, b).Some?
    ensures Take(msg, pos, a + b).Some? ==>
      Take(msg, pos, a + b).value == Take(msg, pos, a).value + Take(msg, pos + a, b).value
  {
    if pos + a + b <= |msg| {
      assert msg[pos..pos + a + b] == msg[pos..pos + a] + msg[pos + a..pos + a + b];
    }
  }

  /** A Data message: tag 0x0004, a 32-bit length, then the payload. */
  function DataMessage(payload: seq<byte>): (r: seq<byte>)
    requires |payload| <= MaxFrameSize
    ensures |r| == 6 + |payload| && r[6..] == payload
  {
    Pow256Widths();
    EncodeBE(TagData, 2) + EncodeBE(|payload|, 4) + payload
  }

  /** An Ack message: tag 0x0007, then the 64-bit cumulative byte count. */
  function AckMessage(count: u64): (r: seq<byte>)
    ensures |r| == 10
  {
    Pow256Widths();
    EncodeBE(TagAck, 2) + EncodeBE(count, 8)
  }

  /** A Success message as the proxy sends it: tag 0x0001, a 32-bit length,
      then the session id. */
  function SuccessMessage(id: seq<byte>): (r: seq<byte>)
    requires |id| <= MaxFrameSize
    ensures |r| == 6 + |id| && r[6..] == id
  {
    Pow256Widths();
    EncodeBE(TagSuccess, 2) + EncodeBE(|id|, 4) + id
  }

  /** Reading a Data message field by field gives back its tag, its length
      and its payload. */
  lemma DataMessageFields(payload: seq<byte>)
    requires |payload| <= MaxFrameSize
    ensures var m := DataMessage(payload);
      |m| == 6 + |payload| && DecodeBE(m[..2]) == TagData &&
      DecodeBE(m[2..6]) == |payload| && m[6..] == payload
  {
    Pow256Widths();
    var m := DataMessage(payload);
    assert m[..2] == EncodeBE(TagData, 2);
    assert m[2..6] == EncodeBE(|payload|, 4);
    DecodeEncode(TagData, 2);
    DecodeEncode(|payload|, 4);
  }

  /** An Ack message is 10 bytes: tag 0x0007 and the count it carries. */
  lemma AckMessageFields(count: u64)
    ensures var m := AckMessage(count);
      |m| == 10 && m[0] == 0x00 && m[1] == 0x07 &&
      DecodeBE(m[..2]) == TagAck && DecodeBE(m[2..10]) == count
  {
    Pow256Widths();
    var m := AckMessage(count);
    assert m[..2] == EncodeBE(TagAck, 2);
    assert m[2..10] == EncodeBE(count, 8);
    DecodeEncode(TagAck, 2);
    DecodeEncode(count, 8);
  }

  /** Reading a Success message field by field gives back its tag, its
      length and the session id. */
  lemma SuccessMessageFields(id: seq<byte>)
    requires |id| <= MaxFrameSize
    ensures var m := SuccessMessage(id);
      |m| == 6 + |id| && DecodeBE(m[..2]) == TagSuccess &&
      DecodeBE(m[2..6]) == |id| && m[6..] == id
  {
    Pow256Widths();
    var m := SuccessMessage(id);
    assert m[..2] == EncodeBE(TagSuccess, 2);
    assert m[2..6] == EncodeBE(|id|, 4);
    DecodeEncode(TagSuccess, 2);
    DecodeEncode(|id|, 4);
  }

  /** The payloads the write loop cuts a pending byte string into: pieces of
      MaxFrameSize bytes, the last one possibly shorter. */
  function Chunks(s: seq<byte>): (r: seq<seq<byte>>)
    ensures forall i :: 0 <= i < |r| ==> 0 < |r[i]| <= MaxFrameSize
    decreases |s|
  {
    if s == [] then []
    else
      var k := Min(|s|, MaxFrameSize);
      [s[..k]] + Chunks(s[k..])
  }

  /** One Data message per payload, in order. */
  function DataMessages(ps: seq<seq<byte>>): (r: seq<seq<byte>>)
    requires forall i :: 0 <= i < |ps| ==> |ps[i]| <= MaxFrameSize
    ensures |r| == |ps|
    ensures forall i :: 0 <= i < |ps| ==> r[i] == DataMessage(ps[i])
  {
    if ps == [] then [] else [DataMessage(ps[0])] + DataMessages(ps[1..])
  }

  /** What the write loop sends for an nb-byte write: ceil(nb / MaxFrameSize)
      Data messages, message i carrying payload i, each at most
      6 + MaxFrameSize bytes long and every one but the last full. */
  lemma WriteMessages(p: seq<byte>)
    ensures var msgs := DataMessages(Chunks(p));
      |msgs| == (|p| + MaxFrameSize - 1) / MaxFrameSize &&
      (forall i :: 0 <= i < |msgs| ==>
        msgs[i] == DataMessage(Chunks(p)[i]) && 6 < |msgs[i]| <= 6 + MaxFrameSize) &&
      (forall i :: 0 <= i < |msgs| - 1 ==> |msgs[i]| == 6 + MaxFrameSize)
  {
    ChunksCount(p);
    ChunksFull(p);
  }

  /** The first of the Data messages the write loop makes of `p`, and the rest. */
  lemma DataMessagesFirst(p: seq<byte>)
    requires p != []
    ensures var k := Min(|p|, MaxFrameSize); var msgs := DataMessages(Chunks(p));
      msgs != [] && msgs[0] == DataMessage(p[..k]) && msgs[1..] == DataMessages(Chunks(p[k..]))
  {
  }

  /** One turn of the write loop: the Data messages still owed for the first
      `nb` bytes of `pipe` are the message for the first chunk, then those
      owed for what follows it. */
  lemma DataMessagesStep(pipe: seq<byte>, nb: nat)
    requires 0 < nb <= |pipe|
    ensures var k := Min(nb, MaxFrameSize);
      DataMessages(Chunks(pipe[..nb])) ==
        [DataMessage(pipe[..k])] + DataMessages(Chunks(pipe[k..][..nb - k]))
  {
    var k := Min(nb, MaxFrameSize);
    DataMessagesFirst(pipe[..nb]);
    assert pipe[..nb][..k] == pipe[..k];
    assert pipe[..nb][k..] == pipe[k..][..nb - k];
  }

  /** After one turn of the write loop, the messages sent plus those still
      owed are what they were before the turn. */
  lemma SentPlusOwed(sent: seq<seq<byte>>, pipe: seq<byte>, nb: nat)
    requires 0 < nb <= |pipe|
    ensures var k := Min(nb, MaxFrameSize);
      (sent + [DataMessage(pipe[..k])]) + DataMessages(Chunks(pipe[k..][..nb - k])) ==
        sent + DataMessages(Chunks(pipe[..nb]))
  {
    DataMessagesStep(pipe, nb);
  }

  /** The concatenation of a sequence of byte strings. */
  function Flatten(ps: seq<seq<byte>>): seq<byte>
  {
    if ps == [] then [] else ps[0] + Flatten(ps[1..])
  }

  /** Appending the first piece and then the flattened rest is appending
      the flattened whole. */
  lemma FlattenCons(pre: seq<byte>, ps: seq<seq<byte>>)
    requires ps != []
    ensures (pre + ps[0]) + Flatten(ps[1..]) == pre + Flatten(ps)
  {
    assert Flatten(ps) == ps[0] + Flatten(ps[1..]);
  }

  /** Two pieces flattened are the two, one after the other. */
  lemma FlattenPair(a: seq<byte>, b: seq<byte>)
    ensures Flatten([a, b]) == a + b
  {
    assert [a, b][1..] == [b];
    assert [b][1..] == [];
    assert Flatten([b]) == b + Flatten([]);
  }

  lemma {:induction false} FlattenAppend(a: seq<seq<byte>>, b: seq<seq<byte>>)
    ensures Flatten(a + b) == Flatten(a) + Flatten(b)
    decreases |a|
  {
    if a == [] {
      assert a + b == b;
    } else {
      assert (a + b)[0] == a[0];
      assert (a + b)[1..] == a[1..] + b;
      FlattenAppend(a[1..], b);
      assert Flatten(a + b) == a[0] + (Flatten(a[1..]) + Flatten(b));
    }
  }

  /** The payloads, put back together, are exactly the bytes that were cut. */
  lemma {:induction false} ChunksFlatten(s: seq<byte>)
    ensures Flatten(Chunks(s)) == s
    decreases |s|
  {
    if s != [] {
      var k := Min(|s|, MaxFrameSize);
      assert Chunks(s)[1..] == Chunks(s[k..]);
      ChunksFlatten(s[k..]);
      assert s == s[..k] + s[k..];
    }
  }

  /** There are ceil(|s| / MaxFrameSize) payloads. */
  lemma {:induction false} ChunksCount(s: seq<byte>)
    ensures |Chunks(s)| == (|s| + MaxFrameSize - 1) / MaxFrameSize
    decreases |s|
  {
    if s != [] {
      var k := Min(|s|, MaxFrameSize);
      ChunksCount(s[k..]);
    }
  }

  /** Every payload but the last is a full frame. */
  lemma {:induction false} ChunksFull(s: seq<byte>)
    ensures forall i :: 0 <= i < |Chunks(s)| - 1 ==> |Chunks(s)[i]| == MaxFrameSize
    decreases |s|
  {
    if s != [] {
      var k := Min(|s|, MaxFrameSize);
      var c := Chunks(s);
      assert c == [s[..k]] + Chunks(s[k..]);
      ChunksFull(s[k..]);
      if |s| < MaxFrameSize {
        assert s[k..] == [];
      }
      forall i | 0 <= i < |c| - 1 ensures |c[i]| == MaxFrameSize {
        if i > 0 {
          assert c[i] == Chunks(s[k..])[i - 1];
        }
      }
    }
  }

  /** A 20000-byte write becomes two Data frames of 16384 and 3616 bytes. */
  lemma Chunks20000(s: seq<byte>)
    requires |s| == 20000
    ensures |Chunks(s)| == 2
    ensures |Chunks(s)[0]| == 16384 && |Chunks(s)[1]| == 3616
  {
    var rest := s[16384..];
    assert Chunks(s) == [s[..16384]] + Chunks(rest);
    assert rest[..3616] == rest;
    assert Chunks(rest) == [rest] + Chunks(rest[3616..]);
    assert rest[3616..] == [];
  }

  /** Two writes in a row: the payloads of their frames, in order, are the
      concatenation of the two writes. */
  lemma SequentialWrites(a: seq<byte>, b: seq<byte>)
    ensures Flatten(Chunks(a) + Chunks(b)) == a + b
  {
    FlattenAppend(Chunks(a), Chunks(b));
    ChunksFlatten(a);
    ChunksFlatten(b);
  }
}
