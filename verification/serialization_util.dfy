/** `SerializationUtil`: the field-level binary codec over `java.io.DataOutput` and
    `DataInput`. A writer is the byte sequence it appends; a reader takes the unread
    input and returns the value and what is left, or the exception it throws. A Java
    reference that may be null is an `Option`, and every writer substitutes the
    documented default for `None`. */
module SerializationUtil {
  import opened Wrappers
  import opened JavaTypes

  /** The cause inside a `RuntimeSerializationException`. */
  datatype Cause = EndOfInput | NegativeArraySize(size: int32)

  /** What a read throws. Only `Wrapped` is a `RuntimeSerializationException`; the
      other three escape from code outside the wrapping. */
  datatype ReadError =
    | Wrapped(cause: Cause)
    | IllegalCapacity(size: int32)
    | ZeroLengthBigInteger
    | DuplicateKey

  datatype Read<+T> = Read(value: T, rest: seq<byte>)

  type Reader<!T> = seq<byte> -> Result<Read<T>, ReadError>

  /** `r` reads back exactly what `w` wrote, whatever follows it. */
  ghost predicate Inverts<T(!new)>(w: T -> seq<byte>, r: Reader<T>)
  {
    forall x, rest :: r(w(x) + rest) == Success(Read(x, rest))
  }

  const EOF: ReadError := Wrapped(EndOfInput)

  // ---------------------------------------------------------------------------
  // Booleans, ints and longs

  /** `write(out, Boolean)`: one byte, 1 for true; null is written as false. */
  function WriteBoolean(v: Option<bool>): (bs: seq<byte>)
    ensures |bs| == 1
  {
    if v.GetOr(false) then [1] else [0]
  }

  /** `readBoolean`: any non-zero byte is true. */
  function ReadBoolean(input: seq<byte>): (r: Result<Read<bool>, ReadError>)
    ensures |input| < 1 <==> r == Failure(EOF)
    ensures r.Success? ==> r.value.rest == input[1..]
  {
    if |input| < 1 then Failure(EOF) else Success(Read(input[0] != 0, input[1..]))
  }

  /** `write(out, Integer)`: four big-endian bytes; null is written as 0. */
  function WriteInteger(v: Option<int32>): (bs: seq<byte>)
    ensures |bs| == 4
  {
    Int32Bytes(v.GetOr(0))
  }

  function ReadInteger(input: seq<byte>): (r: Result<Read<int32>, ReadError>)
    ensures |input| < 4 <==> r == Failure(EOF)
    ensures r.Success? ==> r.value.rest == input[4..]
  {
    if |input| < 4 then Failure(EOF) else Success(Read(Int32FromBytes(input[..4]), input[4..]))
  }

  /** `write(out, Long)`: eight big-endian bytes; null is written as 0L. */
  function WriteLong(v: Option<int64>): (bs: seq<byte>)
    ensures |bs| == 8
  {
    Int64Bytes(v.GetOr(0))
  }

  function ReadLong(input: seq<byte>): (r: Result<Read<int64>, ReadError>)
    ensures |input| < 8 <==> r == Failure(EOF)
    ensures r.Success? ==> r.value.rest == input[8..]
  {
    if |input| < 8 then Failure(EOF) else Success(Read(Int64FromBytes(input[..8]), input[8..]))
  }

  lemma BooleanRoundTrip(v: Option<bool>, rest: seq<byte>)
    ensures ReadBoolean(WriteBoolean(v) + rest) == Success(Read(v.GetOr(false), rest))
  {
    assert (WriteBoolean(v) + rest)[1..] == rest;
  }

  lemma IntegerRoundTrip(v: Option<int32>, rest: seq<byte>)
    ensures ReadInteger(WriteInteger(v) + rest) == Success(Read(v.GetOr(0), rest))
  {
    var bs := WriteInteger(v);
    assert (bs + rest)[..4] == bs;
    assert (bs + rest)[4..] == rest;
    Int32RoundTrip(v.GetOr(0));
  }

  lemma LongRoundTrip(v: Option<int64>, rest: seq<byte>)
    ensures ReadLong(WriteLong(v) + rest) == Success(Read(v.GetOr(0), rest))
  {
    var bs := WriteLong(v);
    assert (bs + rest)[..8] == bs;
    assert (bs + rest)[8..] == rest;
    Int64RoundTrip(v.GetOr(0));
  }

  // ---------------------------------------------------------------------------
  // Byte arrays and strings

  /** A Java array never has more than `Integer.MAX_VALUE` elements. */
  predicate IsArray(b: seq<byte>)
  {
    |b| <= INT_MAX
  }

  /** `write(out, byte[])`: the length as an int, then the bytes; null is written as
      the empty array. */
  function WriteBytes(v: Option<seq<byte>>): (bs: seq<byte>)
    requires v.Some? ==> IsArray(v.value)
    ensures |bs| == 4 + |v.GetOr([])|
    ensures bs[4..] == v.GetOr([])
  {
    var b := v.GetOr([]);
    WriteInteger(Some(|b|)) + b
  }

  /** `readBytes`: a negative length fails allocating the buffer, a short input fails
      in `readFully`; both are wrapped. */
  function ReadBytes(input: seq<byte>): (r: Result<Read<seq<byte>>, ReadError>)
    ensures r.Success? ==> IsArray(r.value.value)
    ensures r.Success? ==> |input| >= 4 && input == input[..4] + r.value.value + r.value.rest
    ensures r.Failure? ==> r.error.Wrapped?
  {
    if |input| < 4 then Failure(EOF)
    else
      var size := Int32FromBytes(input[..4]);
      var rest := input[4..];
      if size < 0 then Failure(Wrapped(NegativeArraySize(size)))
      else if |rest| < size then Failure(EOF)
      else
        assert input == input[..4] + rest[..size] + rest[size..];
        Success(Read(rest[..size], rest[size..]))
  }

  /** Reading back a written array gives the same array and consumes exactly its
      `4 + |b|` bytes; a null array comes back empty. */
  lemma BytesRoundTrip(v: Option<seq<byte>>, rest: seq<byte>)
    requires v.Some? ==> IsArray(v.value)
    ensures ReadBytes(WriteBytes(v) + rest) == Success(Read(v.GetOr([]), rest))
  {
    var b := v.GetOr([]);
    var input := WriteBytes(v) + rest;
    IntegerRoundTrip(Some(|b|), b + rest);
    assert input == WriteInteger(Some(|b|)) + (b + rest);
    assert input[..4] == WriteInteger(Some(|b|));
    assert input[4..] == b + rest;
    assert (b + rest)[..|b|] == b;
    assert (b + rest)[|b|..] == rest;
  }

  /** Any proper prefix of a written array fails to read, with a wrapped
      end-of-input. */
  lemma TruncatedBytesFail(b: seq<byte>, k: nat)
    requires IsArray(b)
    requires k < 4 + |b|
    ensures ReadBytes(WriteBytes(Some(b))[..k]) == Failure(EOF)
  {
    var input := WriteBytes(Some(b))[..k];
    if k >= 4 {
      IntegerRoundTrip(Some(|b|), []);
      assert WriteInteger(Some(|b|)) + [] == WriteInteger(Some(|b|));
      assert input[..4] == WriteInteger(Some(|b|));
    }
  }

  /** A string encoding: `getBytes` with a fixed charset, and `new String(bytes, charset)`. */
  datatype Charset = Charset(encode: string -> seq<byte>, decode: seq<byte> -> string)

  /** The charset decodes what it encodes, for every string whose encoded form fits an
      array. */
  ghost predicate Faithful(cs: Charset)
  {
    forall s :: IsArray(cs.encode(s)) ==> cs.decode(cs.encode(s)) == s
  }

  /** UTF-32BE, one charset that is faithful: four bytes per code point, most
      significant first. A group that is no code point, and trailing bytes short of a
      group, decode to U+FFFD. */
  const UTF_32BE: Charset := Charset(Utf32Encode, Utf32Decode)

  function CodePointBytes(c: char): (bs: seq<byte>)
    ensures |bs| == 4
  {
    var n := c as int;
    [0, n / 65536, n / 256 % 256, n % 256]
  }

  function CodePointOf(b: seq<byte>): char
    requires |b| == 4
  {
    var n: int := b[0] as int * 16777216 + b[1] as int * 65536 + b[2] as int * 256 + b[3] as int;
    if 0 <= n < 0xD800 || 0xE000 <= n < 0x11_0000 then n as char else '\U{FFFD}'
  }

  function Utf32Encode(s: string): (bs: seq<byte>)
    ensures |bs| == 4 * |s|
  {
    if |s| == 0 then [] else CodePointBytes(s[0]) + Utf32Encode(s[1..])
  }

  function Utf32Decode(bs: seq<byte>): string
    decreases |bs|
  {
    if |bs| == 0 then ""
    else if |bs| < 4 then "\U{FFFD}"
    else [CodePointOf(bs[..4])] + Utf32Decode(bs[4..])
  }

  /** UTF-32BE decodes every string it encodes, so `Faithful` can be met. */
  lemma Utf32IsFaithful()
    ensures Faithful(UTF_32BE)
  {
    forall s | IsArray(UTF_32BE.encode(s))
      ensures UTF_32BE.decode(UTF_32BE.encode(s)) == s
    {
      Utf32RoundTrip(s);
    }
  }

  lemma {:induction false} Utf32RoundTrip(s: string)
    ensures Utf32Decode(Utf32Encode(s)) == s
    decreases |s|
  {
    if |s| > 0 {
      var bs := Utf32Encode(s);
      assert bs[..4] == CodePointBytes(s[0]);
      assert bs[4..] == Utf32Encode(s[1..]);
      CodePointRoundTrip(s[0]);
      assert Utf32Decode(bs) == [s[0]] + Utf32Decode(Utf32Encode(s[1..]));
      Utf32RoundTrip(s[1..]);
      assert [s[0]] + s[1..] == s;
    }
  }

  lemma CodePointRoundTrip(c: char)
    ensures CodePointOf(CodePointBytes(c)) == c
  {
    var n := c as int;
    var b := CodePointBytes(c);
    assert b[0] as int * 16777216 == 0;
    assert b[1] as int * 65536 + b[2] as int * 256 + b[3] as int == n;
  }

  /** `write(out, String)`: the encoded bytes as a byte array; null is written as "". */
  function WriteString(cs: Charset, v: Option<string>): (bs: seq<byte>)
    requires IsArray(cs.encode(v.GetOr("")))
    ensures var e := cs.encode(v.GetOr(""));
      |bs| == 4 + |e| && bs[..4] == Int32Bytes(|e|) && bs[4..] == e
  {
    WriteBytes(Some(cs.encode(v.GetOr(""))))
  }

  /** `readString`: a byte array, decoded. */
  function ReadString(cs: Charset, input: seq<byte>): (r: Result<Read<string>, ReadError>)
    ensures r.Failure? <==> ReadBytes(input).Failure?
    ensures r.Success? ==> r.value.rest == ReadBytes(input).value.rest
  {
    var b :- ReadBytes(input);
    Success(Read(cs.decode(b.value), b.rest))
  }

  lemma StringRoundTrip(cs: Charset, v: Option<string>, rest: seq<byte>)
    requires Faithful(cs)
    requires IsArray(cs.encode(v.GetOr("")))
    ensures ReadString(cs, WriteString(cs, v) + rest) == Success(Read(v.GetOr(""), rest))
  {
    BytesRoundTrip(Some(cs.encode(v.GetOr(""))), rest);
  }

  // ---------------------------------------------------------------------------
  // BigInteger and BigDecimal

  /** `BigInteger.toByteArray`: the minimal big-endian two's-complement bytes, at least
      one, whose sign bit is the sign of `x`. */
  function ToByteArray(x: int): (bs: seq<byte>)
    ensures |bs| >= 1
    ensures bs[0] >= 128 <==> x < 0
    decreases if x < 0 then -x else x
  {
    if -128 <= x < 128 then [x % 256]
    else
      assert if x / 256 < 0 then -(x / 256) < -x else x / 256 < x;
      ToByteArray(x / 256) + [x % 256]
  }

  /** `new BigInteger(byte[])`: the two's-complement value of a non-empty array. */
  function FromByteArray(bs: seq<byte>): int
    requires |bs| >= 1
  {
    if bs[0] >= 128 then FromBigEndian(bs) - Pow256(|bs|) else FromBigEndian(bs)
  }

  lemma AppendByteValue(bs: seq<byte>, b: byte)
    requires |bs| >= 1
    ensures FromByteArray(bs + [b]) == 256 * FromByteArray(bs) + b
  {
    var ext := bs + [b];
    assert ext[..|ext| - 1] == bs;
    assert ext[0] == bs[0];
  }

  lemma {:induction false} ByteArrayRoundTrip(x: int)
    ensures FromByteArray(ToByteArray(x)) == x
    decreases if x < 0 then -x else x
  {
    if !(-128 <= x < 128) {
      assert if x / 256 < 0 then -(x / 256) < -x else x / 256 < x;
      ByteArrayRoundTrip(x / 256);
      AppendByteValue(ToByteArray(x / 256), x % 256);
    }
  }

  /** `write(out, BigInteger)`: `toByteArray` written as a byte array; null is 0. */
  function WriteBigInteger(v: Option<int>): (bs: seq<byte>)
    requires IsArray(ToByteArray(v.GetOr(0)))
    ensures var e := ToByteArray(v.GetOr(0));
      |bs| == 4 + |e| && bs[..4] == Int32Bytes(|e|) && bs[4..] == e
  {
    WriteBytes(Some(ToByteArray(v.GetOr(0))))
  }

  /** `readBigInteger`: a zero-length array makes the `BigInteger` constructor throw,
      outside the wrapping of `readBytes`. */
  function ReadBigInteger(input: seq<byte>): (r: Result<Read<int>, ReadError>)
    ensures r.Failure? <==> (ReadBytes(input).Failure? || ReadBytes(input).value.value == [])
    ensures r.Failure? && ReadBytes(input).Success? ==> r.error == ZeroLengthBigInteger
  {
    var b :- ReadBytes(input);
    if |b.value| == 0 then Failure(ZeroLengthBigInteger)
    else Success(Read(FromByteArray(b.value), b.rest))
  }

  lemma BigIntegerRoundTrip(v: Option<int>, rest: seq<byte>)
    requires IsArray(ToByteArray(v.GetOr(0)))
    ensures ReadBigInteger(WriteBigInteger(v) + rest) == Success(Read(v.GetOr(0), rest))
  {
    BytesRoundTrip(Some(ToByteArray(v.GetOr(0))), rest);
    ByteArrayRoundTrip(v.GetOr(0));
  }

  /** An empty array where a `BigInteger` is expected is not reported as a
      `RuntimeSerializationException`. */
  lemma EmptyBigIntegerUnwrapped(rest: seq<byte>)
    ensures ReadBigInteger(WriteBytes(Some([])) + rest) == Failure(ZeroLengthBigInteger)
  {
    BytesRoundTrip(Some([]), rest);
  }

  /** `BigDecimal`: an unscaled value and a scale. */
  datatype Decimal = Decimal(unscaled: int, scale: int32)

  const DECIMAL_ZERO := Decimal(0, 0)

  /** `write(out, BigDecimal)`: the unscaled value, then the scale; null is zero. */
  function WriteBigDecimal(v: Option<Decimal>): (bs: seq<byte>)
    requires IsArray(ToByteArray(v.GetOr(DECIMAL_ZERO).unscaled))
    ensures var e := ToByteArray(v.GetOr(DECIMAL_ZERO).unscaled);
      |bs| == 8 + |e| && bs[..4] == Int32Bytes(|e|) && bs[4..4 + |e|] == e
    ensures |bs| >= 4 && bs[|bs| - 4..] == WriteInteger(Some(v.GetOr(DECIMAL_ZERO).scale))
  {
    var d := v.GetOr(DECIMAL_ZERO);
    WriteBigInteger(Some(d.unscaled)) + WriteInteger(Some(d.scale))
  }

  /** `readBigDecimal`: the constructor's arguments are read left to right. */
  function ReadBigDecimal(input: seq<byte>): (r: Result<Read<Decimal>, ReadError>)
  {
    var unscaled :- ReadBigInteger(input);
    var scale :- ReadInteger(unscaled.rest);
    Success(Read(Decimal(unscaled.value, scale.value), scale.rest))
  }

  lemma BigDecimalRoundTrip(v: Option<Decimal>, rest: seq<byte>)
    requires IsArray(ToByteArray(v.GetOr(DECIMAL_ZERO).unscaled))
    ensures ReadBigDecimal(WriteBigDecimal(v) + rest) == Success(Read(v.GetOr(DECIMAL_ZERO), rest))
  {
    var d := v.GetOr(DECIMAL_ZERO);
    var a, b := WriteBigInteger(Some(d.unscaled)), WriteInteger(Some(d.scale));
    assert a + b + rest == a + (b + rest);
    BigIntegerRoundTrip(Some(d.unscaled), b + rest);
    IntegerRoundTrip(Some(d.scale), rest);
  }

  // ---------------------------------------------------------------------------
  // Optionals, collections and maps

  /** `write(out, Optional, consumer)`: the presence flag, then the value only if
      present; a null `Optional` is written as empty. */
  function WriteOptional<T>(v: Option<Option<T>>, w: T -> seq<byte>): (bs: seq<byte>)
    ensures |bs| >= 1 && bs[..1] == WriteBoolean(Some(v.GetOr(None).Some?))
    ensures v.GetOr(None).Some? ==> bs[1..] == w(v.GetOr(None).value)
    ensures v.GetOr(None).None? ==> |bs| == 1
  {
    var o := v.GetOr(None);
    WriteBoolean(Some(o.Some?)) + (if o.Some? then w(o.value) else [])
  }

  /** `readOptional`: the element reader runs only when the flag is set. */
  function ReadOptional<T>(input: seq<byte>, r: Reader<T>): (res: Result<Read<Option<T>>, ReadError>)
  {
    var present :- ReadBoolean(input);
    if present.value then
      var x :- r(present.rest);
      Success(Read(Some(x.value), x.rest))
    else Success(Read(None, present.rest))
  }

  lemma OptionalRoundTrip<T(!new)>(v: Option<Option<T>>, w: T -> seq<byte>, r: Reader<T>, rest: seq<byte>)
    requires Inverts(w, r)
    ensures ReadOptional(WriteOptional(v, w) + rest, r) == Success(Read(v.GetOr(None), rest))
  {
    var o := v.GetOr(None);
    var flag := WriteBoolean(Some(o.Some?));
    var body := if o.Some? then w(o.value) else [];
    assert WriteOptional(v, w) + rest == flag + (body + rest);
    BooleanRoundTrip(Some(o.Some?), body + rest);
    if o.None? {
      assert body + rest == rest;
    }
  }

  /** The elements written one after the other, in iteration order. */
  function WriteAll<T>(xs: seq<T>, w: T -> seq<byte>): (bs: seq<byte>)
    decreases |xs|
  {
    if |xs| == 0 then [] else w(xs[0]) + WriteAll(xs[1..], w)
  }

  /** A collection's `size()` is an `int`. */
  predicate FitsSize<T>(xs: seq<T>)
  {
    |xs| <= INT_MAX
  }

  /** `write(out, Collection, consumer)`: the size, then every element; a null
      collection is written as empty. */
  function WriteCollection<T>(c: Option<seq<T>>, w: T -> seq<byte>): (bs: seq<byte>)
    requires c.Some? ==> FitsSize(c.value)
    ensures |bs| >= 4 && bs[..4] == WriteInteger(Some(|c.GetOr([])|))
    ensures bs[4..] == WriteAll(c.GetOr([]), w)
  {
    var xs := c.GetOr([]);
    WriteInteger(Some(|xs|)) + WriteAll(xs, w)
  }

  /** `n` calls of the element reader, each on what the previous one left. */
  function ReadElements<T>(input: seq<byte>, r: Reader<T>, n: nat): (res: Result<Read<seq<T>>, ReadError>)
    ensures res.Success? ==> |res.value.value| == n
    decreases n
  {
    if n == 0 then Success(Read([], input))
    else
      var first :- r(input);
      var others :- ReadElements(first.rest, r, n - 1);
      Success(Read([first.value] + others.value, others.rest))
  }

  /** `readList`: the size is read through `readInteger`; a negative size makes the
      `ArrayList` constructor throw; then exactly `size` elements are read. */
  function ReadList<T>(input: seq<byte>, r: Reader<T>): (res: Result<Read<seq<T>>, ReadError>)
    ensures res.Success? ==> FitsSize(res.value.value)
    ensures ReadInteger(input).Failure? ==> res == Failure(EOF)
    ensures ReadInteger(input).Success? && ReadInteger(input).value.value < 0
         ==> res == Failure(IllegalCapacity(ReadInteger(input).value.value))
  {
    var size :- ReadInteger(input);
    if size.value < 0 then Failure(IllegalCapacity(size.value))
    else ReadElements(size.rest, r, size.value)
  }

  lemma {:induction false} ReadElementsOfWritten<T(!new)>(xs: seq<T>, w: T -> seq<byte>, r: Reader<T>, rest: seq<byte>)
    requires Inverts(w, r)
    ensures ReadElements(WriteAll(xs, w) + rest, r, |xs|) == Success(Read(xs, rest))
    decreases |xs|
  {
    if |xs| > 0 {
      var tail := WriteAll(xs[1..], w) + rest;
      var input := WriteAll(xs, w) + rest;
      assert input == w(xs[0]) + tail;
      assert r(input) == Success(Read(xs[0], tail));
      ReadElementsOfWritten(xs[1..], w, r, rest);
      assert ReadElements(tail, r, |xs| - 1) == Success(Read(xs[1..], rest));
      assert [xs[0]] + xs[1..] == xs;
    } else {
      assert WriteAll(xs, w) + rest == rest;
    }
  }

  /** A collection comes back as a list of the same elements in the same order; a
      null collection comes back empty. */
  lemma ListRoundTrip<T(!new)>(c: Option<seq<T>>, w: T -> seq<byte>, r: Reader<T>, rest: seq<byte>)
    requires c.Some? ==> FitsSize(c.value)
    requires Inverts(w, r)
    ensures ReadList(WriteCollection(c, w) + rest, r) == Success(Read(c.GetOr([]), rest))
  {
    var xs := c.GetOr([]);
    var body := WriteAll(xs, w) + rest;
    assert WriteCollection(c, w) + rest == WriteInteger(Some(|xs|)) + body;
    IntegerRoundTrip(Some(|xs|), body);
    ReadElementsOfWritten(xs, w, r, rest);
  }

  /** A size of -1 is not reported as a `RuntimeSerializationException`. */
  lemma NegativeListSizeUnwrapped<T>(r: Reader<T>, rest: seq<byte>)
    ensures ReadList(WriteInteger(Some(-1)) + rest, r) == Failure(IllegalCapacity(-1))
  {
    IntegerRoundTrip(Some(-1), rest);
  }

  /** `readSet`: the elements of `readList`, as a set. */
  function ReadSet<T(==,!new)>(input: seq<byte>, r: Reader<T>): (res: Result<Read<set<T>>, ReadError>)
    ensures res.Success? ==>
      ReadList(input, r).Success?
      && (forall x :: x in res.value.value <==> x in ReadList(input, r).value.value)
  {
    var l :- ReadList(input, r);
    Success(Read((set x | x in l.value), l.rest))
  }

  /** Every element of a written collection, and nothing else, is in the set read
      back. */
  lemma SetRoundTrip<T(!new)>(xs: seq<T>, w: T -> seq<byte>, r: Reader<T>, rest: seq<byte>)
    requires FitsSize(xs)
    requires Inverts(w, r)
    ensures ReadSet(WriteCollection(Some(xs), w) + rest, r).Success?
    ensures forall x :: x in ReadSet(WriteCollection(Some(xs), w) + rest, r).value.value <==> x in xs
  {
    ListRoundTrip(Some(xs), w, r, rest);
  }

  /** The key/value pair written by the map writer. */
  function WriteEntry<K, V>(wk: K -> seq<byte>, wv: V -> seq<byte>, e: (K, V)): seq<byte>
  {
    wk(e.0) + wv(e.1)
  }

  /** `Maps.immutableEntry(keySupplier.get(), valueSupplier.get())`: key first. */
  function ReadEntry<K, V>(rk: Reader<K>, rv: Reader<V>, input: seq<byte>): Result<Read<(K, V)>, ReadError>
  {
    var k :- rk(input);
    var v :- rv(k.rest);
    Success(Read((k.value, v.value), v.rest))
  }

  lemma EntryInverts<K(!new), V(!new)>(wk: K -> seq<byte>, wv: V -> seq<byte>, rk: Reader<K>, rv: Reader<V>)
    requires Inverts(wk, rk) && Inverts(wv, rv)
    ensures Inverts((e: (K, V)) => WriteEntry(wk, wv, e), (input: seq<byte>) => ReadEntry(rk, rv, input))
  {
    forall e: (K, V), rest: seq<byte>
      ensures ReadEntry(rk, rv, WriteEntry(wk, wv, e) + rest) == Success(Read(e, rest))
    {
      assert WriteEntry(wk, wv, e) + rest == wk(e.0) + (wv(e.1) + rest);
    }
  }

  /** The entries of a `java.util.Map`, in its iteration order: no key twice. */
  ghost predicate DistinctKeys<K, V>(es: seq<(K, V)>)
  {
    forall i, j :: 0 <= i < j < |es| ==> es[i].0 != es[j].0
  }

  /** No key is paired with two different values. */
  ghost predicate Consistent<K, V>(es: seq<(K, V)>)
  {
    forall i, j :: 0 <= i < |es| && 0 <= j < |es| && es[i].0 == es[j].0 ==> es[i].1 == es[j].1
  }

  /** `Collectors.toMap` over the entries: a key paired with two different values
      throws; an entry repeated verbatim has already collapsed in the `HashSet`. */
  function ToMap<K(==,!new), V(==)>(es: seq<(K, V)>): (r: Result<map<K, V>, ReadError>)
    ensures r.Success? <==> Consistent(es)
    ensures r.Failure? ==> r.error == DuplicateKey
    ensures r.Success? ==> forall k :: k in r.value <==> exists i :: 0 <= i < |es| && es[i].0 == k
    ensures r.Success? ==> forall i :: 0 <= i < |es| ==> r.value[es[i].0] == es[i].1
    decreases |es|
  {
    if |es| == 0 then Success(map[])
    else
      var init := es[..|es| - 1];
      var (k, v) := es[|es| - 1];
      var m :- ToMap(init);
      assert forall i :: 0 <= i < |init| ==> init[i] == es[i];
      if k in m && m[k] != v then
        assert !Consistent(es) by {
          var i :| 0 <= i < |init| && init[i].0 == k;
          assert es[i].0 == es[|es| - 1].0 && es[i].1 != es[|es| - 1].1;
        }
        Failure(DuplicateKey)
      else
        assert Consistent(es) by {
          forall i, j | 0 <= i < |es| && 0 <= j < |es| && es[i].0 == es[j].0
            ensures es[i].1 == es[j].1
          {
            if i < |init| && j < |init| {
              assert Consistent(init);
              assert init[i].0 == init[j].0;
            }
          }
        }
        Success(m[k := v])
  }

  /** `write(out, Map, keyConsumer, valueConsumer)`: the size, then key and value of
      each entry; a null map is written as empty. */
  function WriteMap<K, V>(m: Option<seq<(K, V)>>, wk: K -> seq<byte>, wv: V -> seq<byte>): (bs: seq<byte>)
    requires m.Some? ==> FitsSize(m.value)
    ensures |bs| >= 4 && bs[..4] == Int32Bytes(|m.GetOr([])|)
    ensures bs[4..] == KeysAndValues(m.GetOr([]), wk, wv)
  {
    EntriesAreKeysAndValues(m.GetOr([]), wk, wv);
    WriteCollection(m, (e: (K, V)) => WriteEntry(wk, wv, e))
  }

  /** Each entry's key bytes, then its value bytes, entry after entry. */
  function KeysAndValues<K, V>(es: seq<(K, V)>, wk: K -> seq<byte>, wv: V -> seq<byte>): seq<byte>
    decreases |es|
  {
    if |es| == 0 then [] else wk(es[0].0) + wv(es[0].1) + KeysAndValues(es[1..], wk, wv)
  }

  lemma {:induction false} EntriesAreKeysAndValues<K, V>(es: seq<(K, V)>, wk: K -> seq<byte>, wv: V -> seq<byte>)
    ensures WriteAll(es, (e: (K, V)) => WriteEntry(wk, wv, e)) == KeysAndValues(es, wk, wv)
    decreases |es|
  {
    if |es| > 0 {
      EntriesAreKeysAndValues(es[1..], wk, wv);
    }
  }

  /** `readMap`: a set of entries read as by `readSet`, collected into a map. */
  function ReadMap<K(==,!new), V(==)>(input: seq<byte>, rk: Reader<K>, rv: Reader<V>): Result<Read<map<K, V>>, ReadError>
  {
    var l :- ReadList(input, (i: seq<byte>) => ReadEntry(rk, rv, i));
    var m :- ToMap(l.value);
    Success(Read(m, l.rest))
  }

  /** A written map is rebuilt with the same keys, each mapped to its value; a null
      map comes back empty. */
  lemma MapRoundTrip<K(!new), V(!new)>(m: Option<seq<(K, V)>>, wk: K -> seq<byte>, wv: V -> seq<byte>,
                                   rk: Reader<K>, rv: Reader<V>, rest: seq<byte>)
    requires m.Some? ==> FitsSize(m.value) && DistinctKeys(m.value)
    requires Inverts(wk, rk) && Inverts(wv, rv)
    ensures ReadMap(WriteMap(m, wk, wv) + rest, rk, rv).Success?
    ensures var es := m.GetOr([]);
      var back := ReadMap(WriteMap(m, wk, wv) + rest, rk, rv).value;
      && back.rest == rest
      && (forall k :: k in back.value <==> exists i :: 0 <= i < |es| && es[i].0 == k)
      && (forall i :: 0 <= i < |es| ==> back.value[es[i].0] == es[i].1)
  {
    var es := m.GetOr([]);
    EntryInverts(wk, wv, rk, rv);
    ListRoundTrip(m, (e: (K, V)) => WriteEntry(wk, wv, e), (i: seq<byte>) => ReadEntry(rk, rv, i), rest);
    assert Consistent(es) by {
      forall i, j | 0 <= i < |es| && 0 <= j < |es| && es[i].0 == es[j].0
        ensures es[i].1 == es[j].1
      {
        assert i == j;
      }
    }
  }
}
