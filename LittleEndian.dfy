/**
 * Bytes and little-endian unsigned integers, as read by `struct.unpack('<I', ...)`
 * when the player decodes the length field of a RIFF `data` chunk.
 */
module LittleEndian {

  type Byte = b: int | 0 <= b < 256

  /** 256 raised to the power `k`: one more than the largest `k`-byte value. */
  function Pow256(k: nat): (p: nat)
    ensures p >= 1
  {
    if k == 0 then 1 else 256 * Pow256(k - 1)
  }

  /** The unsigned value of `bs`, least significant byte first. */
  function Decode(bs: seq<Byte>): (n: nat)
    ensures n < Pow256(|bs|)
  {
    if bs == [] then 0 else bs[0] + 256 * Decode(bs[1..])
  }

  /** The `k` least significant bytes of `n`, least significant first. */
  function Encode(n: nat, k: nat): (bs: seq<Byte>)
    ensures |bs| == k
  {
    if k == 0 then [] else [n % 256] + Encode(n / 256, k - 1)
  }

  /** The 4-byte unsigned integer of the `<I` struct format. */
  function DecodeU32(bs: seq<Byte>): (n: nat)
    requires |bs| == 4
    ensures n < 0x1_0000_0000
  {
    Decode(bs)
  }

  lemma {:induction false} DecodeEncode(n: nat, k: nat)
    requires n < Pow256(k)
    ensures Decode(Encode(n, k)) == n
  {
    if k > 0 {
      DecodeEncode(n / 256, k - 1);
    }
  }

  lemma {:induction false} EncodeDecode(bs: seq<Byte>)
    ensures Encode(Decode(bs), |bs|) == bs
  {
    if bs != [] {
      var n := Decode(bs);
      assert n % 256 == bs[0] && n / 256 == Decode(bs[1..]);
      EncodeDecode(bs[1..]);
    }
  }

  /** Every 32-bit value is the decoding of exactly one 4-byte sequence. */
  lemma U32RoundTrip(n: nat, bs: seq<Byte>)
    requires n < 0x1_0000_0000 && |bs| == 4
    ensures DecodeU32(Encode(n, 4)) == n
    ensures Encode(DecodeU32(bs), 4) == bs
  {
    assert Pow256(4) == 0x1_0000_0000;
    DecodeEncode(n, 4);
    EncodeDecode(bs);
  }
}
