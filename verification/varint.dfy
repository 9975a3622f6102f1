/** Base-128 varints as protobuf writes and reads them ("Base 128 Varints" in the
    Protocol Buffers encoding guide): seven payload bits per byte, least significant
    group first, the high bit of every byte but the last set. */
module Varint {
  import opened JavaTypes

  /** `CodedOutputStream.writeRawVarint32` of a value taken as unsigned 32-bit. */
  function Encode(v: nat): (bs: seq<byte>)
    ensures 1 <= |bs|
    ensures bs[|bs| - 1] < 128
    ensures forall k :: 0 <= k < |bs| - 1 ==> bs[k] >= 128
    decreases v
  {
    if v < 128 then [v] else [v % 128 + 128] + Encode(v / 128)
  }

  /** `CodedOutputStream.computeRawVarint32Size`: the number of bytes a varint of an
      unsigned 32-bit value takes. */
  function Size(v: nat): nat
    requires v < TWO_32
  {
    if v < 0x80 then 1
    else if v < 0x4000 then 2
    else if v < 0x20_0000 then 3
    else if v < 0x1000_0000 then 4
    else 5
  }

  /** The value of the seven-bit groups of `bs`, least significant group first. */
  function GroupsValue(bs: seq<byte>): nat
  {
    if |bs| == 0 then 0 else bs[0] % 128 + 128 * GroupsValue(bs[1..])
  }

  /** `CodedInputStream.readRawVarint32` applied to a buffer of at most five bytes
      whose last byte ends the varint: the groups are summed as a `long` and the sum is
      narrowed to `int`, so bits 32 and above of a fifth byte are dropped. */
  function ReadRawVarint32(prefix: seq<byte>): int32
  {
    WrapInt32(GroupsValue(prefix))
  }

  lemma {:induction false} EncodeSizeMatches(v: nat)
    requires v < TWO_32
    ensures |Encode(v)| == Size(v)
    decreases v
  {
    if v >= 128 {
      EncodeSizeMatches(v / 128);
    }
  }

  lemma {:induction false} GroupsValueOfEncode(v: nat)
    ensures GroupsValue(Encode(v)) == v
    decreases v
  {
    if v >= 128 {
      var bs := Encode(v);
      assert bs[1..] == Encode(v / 128);
      GroupsValueOfEncode(v / 128);
    }
  }

  /** Decoding the varint of a non-negative `int` gives the value back. */
  lemma ReadEncodedVarint(v: nat)
    requires v <= INT_MAX
    ensures ReadRawVarint32(Encode(v)) == v
  {
    GroupsValueOfEncode(v);
    WrapInt32Identity(v);
  }

  /** The varint of any non-negative `int` fits the five bytes the frame decoder scans. */
  lemma EncodeAtMostFive(v: nat)
    requires v <= INT_MAX
    ensures |Encode(v)| <= 5
  {
    EncodeSizeMatches(v);
  }

  /** Four groups or fewer carry at most 28 bits, so only a five-byte varint can read
      as a negative `int`. */
  lemma NegativeNeedsFiveBytes(p: seq<byte>)
    requires |p| <= 5
    requires ReadRawVarint32(p) < 0
    ensures |p| == 5
  {
    if |p| < 5 {
      GroupsValueBound(p);
      assert Pow128(|p|) <= Pow128(4) == 0x1000_0000 by {
        assert Pow128(2) == 128 * 128;
      }
      WrapInt32Identity(GroupsValue(p));
    }
  }

  function Pow128(n: nat): nat
  {
    if n == 0 then 1 else 128 * Pow128(n - 1)
  }

  lemma {:induction false} GroupsValueBound(bs: seq<byte>)
    ensures GroupsValue(bs) < Pow128(|bs|)
    decreases |bs|
  {
    if |bs| > 0 {
      GroupsValueBound(bs[1..]);
    }
  }
}
