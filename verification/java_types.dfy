/** Java's fixed-width integers and the big-endian layout that `java.io.DataOutput`
    gives them. Dafny integers are unbounded, so every wrap-around is written out. */
module JavaTypes {

  type byte = x: int | 0 <= x < 256

  const INT_MAX: int := 0x7FFF_FFFF
  const INT_MIN: int := -0x8000_0000
  const TWO_31: int := 0x8000_0000
  const TWO_32: int := 0x1_0000_0000
  const TWO_63: int := 0x8000_0000_0000_0000
  const TWO_64: int := 0x1_0000_0000_0000_0000

  /** Java `int`. */
  type int32 = x: int | -0x8000_0000 <= x <= 0x7FFF_FFFF
  /** Java `long`. */
  type int64 = x: int | -0x8000_0000_0000_0000 <= x <= 0x7FFF_FFFF_FFFF_FFFF

  function Pow256(n: nat): (r: nat)
    ensures r >= 1
  {
    if n == 0 then 1 else 256 * Pow256(n - 1)
  }

  lemma Pow256Values()
    ensures Pow256(4) == TWO_32
    ensures Pow256(8) == TWO_64
  {
    assert Pow256(2) == 65536;
    assert Pow256(4) == 256 * (256 * Pow256(2));
    assert Pow256(8) == 256 * (256 * (256 * (256 * Pow256(4))));
  }

  /** The `n` bytes, most significant first, of the unsigned value `v`. */
  function ToBigEndian(v: nat, n: nat): (bs: seq<byte>)
    requires v < Pow256(n)
    ensures |bs| == n
  {
    if n == 0 then []
    else
      assert v / 256 < Pow256(n - 1) by {
        assert v < 256 * Pow256(n - 1);
      }
      ToBigEndian(v / 256, n - 1) + [v % 256]
  }

  /** The unsigned value of a big-endian byte sequence. */
  function FromBigEndian(bs: seq<byte>): (v: nat)
    ensures v < Pow256(|bs|)
  {
    if |bs| == 0 then 0
    else
      var high := FromBigEndian(bs[..|bs| - 1]);
      assert high * 256 + bs[|bs| - 1] < Pow256(|bs|) by {
        assert high <= Pow256(|bs| - 1) - 1;
        assert high * 256 <= Pow256(|bs| - 1) * 256 - 256;
      }
      high * 256 + bs[|bs| - 1]
  }

  lemma {:induction false} BigEndianRoundTrip(v: nat, n: nat)
    requires v < Pow256(n)
    ensures FromBigEndian(ToBigEndian(v, n)) == v
  {
    if n > 0 {
      assert v / 256 < Pow256(n - 1) by {
        assert v < 256 * Pow256(n - 1);
      }
      var bs := ToBigEndian(v, n);
      assert bs[..n - 1] == ToBigEndian(v / 256, n - 1);
      BigEndianRoundTrip(v / 256, n - 1);
    }
  }

  /** Java's narrowing of any integer to `int`: keep the low 32 bits, read them as
      two's complement (the `(int)` cast of a `long`, or `int` overflow). */
  function WrapInt32(x: int): (r: int32)
    ensures r % TWO_32 == x % TWO_32
  {
    var u := x % TWO_32;
    if u >= TWO_31 then u - TWO_32 else u
  }

  lemma WrapInt32Identity(x: int)
    requires INT_MIN <= x <= INT_MAX
    ensures WrapInt32(x) == x
  {
  }

  /** Two's-complement reading of four big-endian bytes (`DataInput.readInt`). */
  function Int32FromBytes(bs: seq<byte>): int32
    requires |bs| == 4
  {
    Pow256Values();
    WrapInt32(FromBigEndian(bs))
  }

  /** `DataOutput.writeInt`: four bytes, most significant first. */
  function Int32Bytes(x: int32): (bs: seq<byte>)
    ensures |bs| == 4
  {
    Pow256Values();
    ToBigEndian(x % TWO_32, 4)
  }

  lemma Int32RoundTrip(x: int32)
    ensures Int32FromBytes(Int32Bytes(x)) == x
  {
    Pow256Values();
    var u := x % TWO_32;
    assert u == if x < 0 then x + TWO_32 else x;
    BigEndianRoundTrip(u, 4);
  }

  /** `DataOutput.writeLong`: eight bytes, most significant first. */
  function Int64Bytes(x: int64): (bs: seq<byte>)
    ensures |bs| == 8
  {
    Pow256Values();
    ToBigEndian(x % TWO_64, 8)
  }

  /** Two's-complement reading of eight big-endian bytes (`DataInput.readLong`). */
  function Int64FromBytes(bs: seq<byte>): int64
    requires |bs| == 8
  {
    Pow256Values();
    var u := FromBigEndian(bs);
    if u >= TWO_63 then u - TWO_64 else u
  }

  lemma Int64RoundTrip(x: int64)
    ensures Int64FromBytes(Int64Bytes(x)) == x
  {
    Pow256Values();
    BigEndianRoundTrip(x % TWO_64, 8);
  }
}
