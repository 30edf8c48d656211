/** Bytes, fixed-width unsigned integers and their big-endian encoding, as
    used by encoding/binary's BigEndian on the wire of the tunnel protocol. */
module Bytes {

  type byte = x: int | 0 <= x < 256
  type u16 = x: nat | x < 0x1_0000
  type u32 = x: nat | x < 0x1_0000_0000
  type u64 = x: nat | x < 0x1_0000_0000_0000_0000

  /** Arithmetic on uint64 wraps modulo this value. */
  const U64Modulus: nat := 0x1_0000_0000_0000_0000

  /** uint64 addition of a non-negative amount, wrapping around at 2^64. */
  function Add64(a: u64, b: nat): (r: u64)
    ensures a + b < U64Modulus ==> r == a + b
    ensures U64Modulus <= a + b < 2 * U64Modulus ==> r == a + b - U64Modulus
  {
    (a + b) % U64Modulus
  }

  /** uint64 subtraction, wrapping around below zero. */
  function Sub64(a: u64, b: u64): (r: u64)
    ensures b <= a ==> r == a - b
    ensures a < b ==> r == a - b + U64Modulus
  {
    (a - b) % U64Modulus
  }

  /** Adding in two steps with wrap-around is adding the sum once. */
  lemma Add64Twice(a: u64, b: nat, c: nat)
    ensures Add64(Add64(a, b), c) == Add64(a, b + c)
  {
  }

  /** Number of distinct values that fit in `w` bytes. */
  function Pow256(w: nat): (r: nat)
    ensures r >= 1
  {
    if w == 0 then 1 else 256 * Pow256(w - 1)
  }

  lemma Pow256Widths()
    ensures Pow256(2) == 0x1_0000
    ensures Pow256(4) == 0x1_0000_0000
    ensures Pow256(8) == U64Modulus
  {
  }

  /** Big-endian encoding of `x` in exactly `w` bytes (most significant first). */
  function EncodeBE(x: nat, w: nat): (r: seq<byte>)
    requires x < Pow256(w)
    ensures |r| == w
  {
    if w == 0 then [] else EncodeBE(x / 256, w - 1) + [x % 256]
  }

  /** Big-endian value of a byte string; the result always fits its width. */
  function DecodeBE(s: seq<byte>): (r: nat)
    ensures r < Pow256(|s|)
  {
    if s == [] then 0 else DecodeBE(s[..|s| - 1]) * 256 + s[|s| - 1]
  }

  /** Decoding undoes encoding. */
  lemma {:induction false} DecodeEncode(x: nat, w: nat)
    requires x < Pow256(w)
    ensures DecodeBE(EncodeBE(x, w)) == x
  {
    if w > 0 {
      var e := EncodeBE(x, w);
      assert e[..w - 1] == EncodeBE(x / 256, w - 1);
      DecodeEncode(x / 256, w - 1);
    }
  }

  /** Encoding undoes decoding: every byte string is the encoding of its value. */
  lemma {:induction false} EncodeDecode(s: seq<byte>)
    ensures EncodeBE(DecodeBE(s), |s|) == s
  {
    if s != [] {
      var init, last := s[..|s| - 1], s[|s| - 1];
      var d := DecodeBE(s);
      assert d == DecodeBE(init) * 256 + last;
      assert d / 256 == DecodeBE(init) && d % 256 == last;
      EncodeDecode(init);
      assert s == init + [last];
    }
  }
}
