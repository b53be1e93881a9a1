/** Little-endian integer decoding as `BitConverter.ToUInt16/32/64` and
    `ToInt16/32/64` perform it on a little-endian machine, always from index 0. */
module Bytes {
  import opened Base

  function Pow256(n: nat): (p: nat)
    ensures p >= 1
  {
    if n == 0 then 1 else 256 * Pow256(n - 1)
  }

  /** The unsigned value of `bs`, least significant byte first. */
  function LittleEndian(bs: seq<byte>): nat {
    if |bs| == 0 then 0 else bs[0] + 256 * LittleEndian(bs[1..])
  }

  /** The `width` bytes that encode `n` little-endian. */
  function Encode(n: nat, width: nat): (bs: seq<byte>)
    ensures |bs| == width
  {
    if width == 0 then [] else [n % 256] + Encode(n / 256, width - 1)
  }

  /** A decoded value always fits in the bytes it came from. */
  lemma {:induction false} LittleEndianBound(bs: seq<byte>)
    ensures LittleEndian(bs) < Pow256(|bs|)
  {
    if |bs| > 0 {
      LittleEndianBound(bs[1..]);
    }
  }

  /** Encoding then decoding gives back any value that fits. */
  lemma {:induction false} DecodeEncode(n: nat, width: nat)
    requires n < Pow256(width)
    ensures LittleEndian(Encode(n, width)) == n
  {
    if width > 0 {
      DecodeEncode(n / 256, width - 1);
      assert Encode(n, width)[1..] == Encode(n / 256, width - 1);
    }
  }

  /** Decoding then encoding gives back the bytes. */
  lemma {:induction false} EncodeDecode(bs: seq<byte>)
    ensures Encode(LittleEndian(bs), |bs|) == bs
  {
    if |bs| > 0 {
      EncodeDecode(bs[1..]);
      var n := LittleEndian(bs);
      assert n % 256 == bs[0] && n / 256 == LittleEndian(bs[1..]);
    }
  }

  /** The smallest `width`-byte value whose top bit is set. */
  function SignBit(width: nat): (h: nat)
    requires width > 0
    ensures Pow256(width) == 2 * h
  {
    128 * Pow256(width - 1)
  }

  /** The two's-complement reading of an unsigned `width`-byte value. */
  function TwosComplement(u: nat, width: nat): (v: int)
    requires width > 0 && u < Pow256(width)
    ensures -(SignBit(width) as int) <= v < SignBit(width)
    ensures v < 0 <==> u >= SignBit(width)
    ensures FromSigned(v, width) == u
  {
    if u >= SignBit(width) then u - Pow256(width) else u
  }

  /** The unsigned `width`-byte pattern of a signed value. */
  function FromSigned(v: int, width: nat): (u: nat)
    requires width > 0 && -(SignBit(width) as int) <= v < SignBit(width)
    ensures u < Pow256(width)
  {
    if v < 0 then v + Pow256(width) else v
  }

  /** `BitConverter.ToUInt*(bs, 0)` for a `width`-byte integer: an empty array is an
      out-of-range start index, a shorter one an argument error, and a longer
      one is read from its first `width` bytes. */
  function ToUnsigned(bs: seq<byte>, width: nat): (r: Result<nat>)
    requires width > 0
    ensures r.Ok? <==> |bs| >= width
    ensures |bs| == 0 ==> r == Err(ArgumentOutOfRange("startIndex"))
    ensures r.Ok? ==> r.value < Pow256(width) && Encode(r.value, width) == bs[..width]
  {
    if |bs| == 0 then Err(ArgumentOutOfRange("startIndex"))
    else if |bs| < width then Err(Argument("value"))
    else
      LittleEndianBound(bs[..width]);
      EncodeDecode(bs[..width]);
      Ok(LittleEndian(bs[..width]))
  }

  /** `BitConverter.ToInt*(bs, 0)`: as `ToUnsigned`, read as two's complement. */
  function ToSigned(bs: seq<byte>, width: nat): (r: Result<int>)
    requires width > 0
    ensures r.Ok? <==> |bs| >= width
    ensures r.Ok? ==> -(SignBit(width) as int) <= r.value < SignBit(width)
    ensures r.Ok? ==> Encode(FromSigned(r.value, width), width) == bs[..width]
  {
    match ToUnsigned(bs, width)
    case Err(f) => Err(f)
    case Ok(u) => Ok(TwosComplement(u, width))
  }

  /** Every value of the signed range is read back from its own encoding. */
  lemma SignedRoundTrip(v: int, width: nat)
    requires width > 0 && -(SignBit(width) as int) <= v < SignBit(width)
    ensures ToSigned(Encode(FromSigned(v, width), width), width) == Ok(v)
  {
    var u := FromSigned(v, width);
    var bs := Encode(u, width);
    DecodeEncode(u, width);
    assert bs[..width] == bs;
  }
}
