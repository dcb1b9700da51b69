/** Wire encoding of the memory stream's fixed-width integers.

    The byte-order macros of the stream are the identity, so a multi-byte
    integer goes on the wire in the byte order of the host that wrote it.
    This module fixes that order as little-endian: byte i of a k-byte value
    carries bits 8*i .. 8*i+7 of its two's-complement representation. */
module Wire {

  /** Widths, in bytes, of the stream's scalar encodings. */
  const BYTE_WIDTH: nat := 1
  const INT16_WIDTH: nat := 2
  const INT32_WIDTH: nat := 4
  const INT64_WIDTH: nat := 8

  type int8 = x: int | -0x80 <= x < 0x80
  type int16 = x: int | -0x8000 <= x < 0x8000
  type int32 = x: int | -0x8000_0000 <= x < 0x8000_0000
  type int64 = x: int | -0x8000_0000_0000_0000 <= x < 0x8000_0000_0000_0000
  type uint16 = x: int | 0 <= x < 0x1_0000

  /** One byte of storage, as its unsigned value. */
  type byte = x: int | 0 <= x < 0x100

  /** 256^k: the number of distinct values k bytes can hold. */
  function Pow256(k: nat): (p: nat)
    ensures p > 0
  {
    if k == 0 then 1 else 256 * Pow256(k - 1)
  }

  /** Half of Pow256(k): the bound of the signed k-byte range. */
  function SignedBound(k: nat): (b: nat)
    requires k > 0
    ensures 2 * b == Pow256(k)
  {
    128 * Pow256(k - 1)
  }

  /** The signed k-byte range, -2^(8k-1) .. 2^(8k-1) - 1. */
  predicate FitsSigned(v: int, k: nat)
  {
    k > 0 && -(SignedBound(k) as int) <= v < SignedBound(k)
  }

  lemma WidthBounds()
    ensures SignedBound(BYTE_WIDTH) == 0x80
    ensures SignedBound(INT16_WIDTH) == 0x8000
    ensures SignedBound(INT32_WIDTH) == 0x8000_0000
    ensures SignedBound(INT64_WIDTH) == 0x8000_0000_0000_0000
  {
  }

  /** The value of bs read as an unsigned little-endian number. */
  function Unsigned(bs: seq<byte>): (u: nat)
    ensures u < Pow256(|bs|)
  {
    if bs == [] then 0 else bs[0] + 256 * Unsigned(bs[1..])
  }

  /** The k little-endian bytes of the unsigned value u. */
  function Bytes(u: nat, k: nat): (bs: seq<byte>)
    requires u < Pow256(k)
    ensures |bs| == k
  {
    if k == 0 then [] else [u % 256] + Bytes(u / 256, k - 1)
  }

  /** Reading back the bytes of u yields u. */
  lemma {:induction false} UnsignedOfBytes(u: nat, k: nat)
    requires u < Pow256(k)
    ensures Unsigned(Bytes(u, k)) == u
  {
    if k > 0 {
      var q, m := u / 256, u % 256;
      assert u == m + 256 * q && 0 <= m < 256;
      assert q < Pow256(k - 1);
      UnsignedOfBytes(q, k - 1);
      var bs := Bytes(u, k);
      assert bs[1..] == Bytes(q, k - 1);
    }
  }

  /** Every byte sequence is the encoding of the number it denotes. */
  lemma {:induction false} BytesOfUnsigned(bs: seq<byte>)
    ensures Bytes(Unsigned(bs), |bs|) == bs
  {
    if bs != [] {
      BytesOfUnsigned(bs[1..]);
      var u := Unsigned(bs);
      assert u % 256 == bs[0];
      assert u / 256 == Unsigned(bs[1..]);
    }
  }

  /** The two's-complement k-byte pattern of the signed value v: the
      conversion C performs when a signed integer is cast to the unsigned
      type of the same width. */
  function ToUnsigned(v: int, k: nat): (u: nat)
    requires FitsSigned(v, k)
    ensures u < Pow256(k)
    ensures (v >= 0 ==> u == v) && (v < 0 ==> u == v + Pow256(k))
  {
    if v < 0 then v + Pow256(k) else v
  }

  /** The signed value whose k-byte two's-complement pattern is u: the
      conversion C performs when an unsigned integer is cast to the signed
      type of the same width. */
  function Signed(u: nat, k: nat): (v: int)
    requires k > 0 && u < Pow256(k)
    ensures FitsSigned(v, k)
    ensures ToUnsigned(v, k) == u
  {
    if u < SignedBound(k) then u else u - Pow256(k)
  }

  lemma SignedOfUnsigned(v: int, k: nat)
    requires FitsSigned(v, k)
    ensures Signed(ToUnsigned(v, k), k) == v
  {
  }

  /** The k bytes that carry the signed value v on the wire. */
  function EncodeInt(v: int, k: nat): (bs: seq<byte>)
    requires FitsSigned(v, k)
    ensures |bs| == k
    ensures Unsigned(bs) == ToUnsigned(v, k)
  {
    UnsignedOfBytes(ToUnsigned(v, k), k);
    Bytes(ToUnsigned(v, k), k)
  }

  /** The signed value carried by the bytes bs. */
  function DecodeInt(bs: seq<byte>): (v: int)
    requires |bs| > 0
    ensures FitsSigned(v, |bs|)
    ensures ToUnsigned(v, |bs|) == Unsigned(bs)
  {
    Signed(Unsigned(bs), |bs|)
  }

  /** Round trip: decoding the encoding of v gives v back. */
  lemma DecodeEncode(v: int, k: nat)
    requires FitsSigned(v, k)
    ensures DecodeInt(EncodeInt(v, k)) == v
  {
  }

  /** The other round trip: every k-byte sequence is the encoding of the
      value it decodes to, so the wire format is preserved bit for bit. */
  lemma EncodeDecode(bs: seq<byte>)
    requires |bs| > 0
    ensures EncodeInt(DecodeInt(bs), |bs|) == bs
  {
    BytesOfUnsigned(bs);
  }
}
