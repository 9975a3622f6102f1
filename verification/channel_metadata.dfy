/** The two stream-control sentinels. On the wire a sentinel is the bare varint of
    its code, with no body; the codes sit at the top of the `int` range so that no
    ordinary frame length of a realistic size takes them. */
module ChannelMetadata {
  import opened Wrappers
  import opened JavaTypes
  import Varint

  /** `DatumMetadataMessage`: a body-less control message, identified by its code. */
  datatype Metadata = StreamStart | StreamEnd

  const STREAM_START_CODE: int32 := INT_MAX
  const STREAM_END_CODE: int32 := INT_MAX - 1

  function Code(m: Metadata): int32
  {
    match m
    case StreamStart => STREAM_START_CODE
    case StreamEnd => STREAM_END_CODE
  }

  /** The known sentinels, in declaration order: start first, end last. */
  const METADATA_MESSAGES: seq<Metadata> := [StreamStart, StreamEnd]

  /** The first message of `ms` carrying `code` (a sequential `findAny`). */
  function FindByCode(ms: seq<Metadata>, code: int): (r: Option<Metadata>)
    ensures r.Some? ==> r.value in ms && Code(r.value) == code
    ensures r.None? ==> forall m :: m in ms ==> Code(m) != code
  {
    if |ms| == 0 then None
    else if Code(ms[0]) == code then Some(ms[0])
    else FindByCode(ms[1..], code)
  }

  /** `fromMessageCode`: codes below the last sentinel's code are rejected outright;
      the rest are looked up among the known sentinels. */
  function FromMessageCode(code: int32): (r: Option<Metadata>)
    ensures r.Some? <==> (code == STREAM_START_CODE || code == STREAM_END_CODE)
    ensures r.Some? ==> Code(r.value) == code
    ensures code < STREAM_END_CODE ==> r.None?
  {
    if code < Code(METADATA_MESSAGES[|METADATA_MESSAGES| - 1]) then None
    else FindByCode(METADATA_MESSAGES, code)
  }

  /** The varint of a sentinel code is always five bytes. */
  lemma CodeVarintIsFiveBytes(m: Metadata)
    ensures |Varint.Encode(Code(m))| == 5
  {
    Varint.EncodeSizeMatches(Code(m));
  }

  /** `writeMetadataMessage`: append the raw varint of the code, and nothing else. */
  function WriteMetadataMessage(m: Metadata, buffer: seq<byte>): (r: seq<byte>)
    ensures |r| == |buffer| + 5
    ensures r[..|buffer|] == buffer
    ensures Varint.ReadRawVarint32(r[|buffer|..]) == Code(m)
    ensures forall k :: |buffer| <= k < |r| - 1 ==> r[k] >= 128
    ensures r[|r| - 1] < 128
  {
    CodeVarintIsFiveBytes(m);
    Varint.ReadEncodedVarint(Code(m));
    var r := buffer + Varint.Encode(Code(m));
    assert r[|buffer|..] == Varint.Encode(Code(m));
    r
  }

  lemma SentinelCodesDistinct()
    ensures STREAM_START_CODE == TWO_31 - 1
    ensures STREAM_END_CODE == TWO_31 - 2
    ensures Code(StreamStart) != Code(StreamEnd)
  {
  }

  /** Looking up the code of a sentinel gives that sentinel back. */
  lemma FromMessageCodeOfCode(m: Metadata)
    ensures FromMessageCode(Code(m)) == Some(m)
  {
  }
}
