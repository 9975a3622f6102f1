/** Wire framing. Every ordinary frame is `varint32(length) ++ body`; the two
    sentinels are the bare varint of their code. `DecodeOne` is one call of the frame
    decoder's `decode`; `DecodeAll` and `Feed` model the byte-cumulating loop that calls
    it while bytes remain and progress is made. */
module Framing {
  import opened Wrappers
  import opened JavaTypes
  import Varint
  import opened ChannelMetadata
  import opened Cumulation

  /** What one `decode` call adds to its output list. */
  datatype Unit = Sentinel(metadata: Metadata) | Frame(body: seq<byte>)

  /** The two `CorruptedFrameException`s. */
  datatype CorruptReason = NegativeLength(length: int32) | WiderThan32Bit

  type FrameStep = Step<Unit, CorruptReason>

  /** Where the length prefix ends, if anywhere within the five bytes scanned. */
  datatype PrefixScan = Short | Ends(last: nat) | Wide

  /** A complete varint prefix: at most five bytes, only the last one below 128. */
  ghost predicate Terminated(p: seq<byte>)
  {
    && 1 <= |p| <= 5
    && p[|p| - 1] < 128
    && forall k :: 0 <= k < |p| - 1 ==> p[k] >= 128
  }

  /** The prefix loop: before reading byte `i`, give up if no byte is readable; stop
      at the first byte with the high bit clear; after five bytes, report `Wide`. */
  function ScanPrefix(buf: seq<byte>, i: nat): (s: PrefixScan)
    requires i <= 5 && i <= |buf|
    ensures s.Ends? ==>
      && i <= s.last < 5 && s.last < |buf| && buf[s.last] < 128
      && forall k :: i <= k < s.last ==> buf[k] >= 128
    ensures s.Short? ==> |buf| < 5 && forall k :: i <= k < |buf| ==> buf[k] >= 128
    ensures s.Wide? ==> |buf| >= 5 && forall k :: i <= k < 5 ==> buf[k] >= 128
    decreases 5 - i
  {
    if i == 5 then Wide
    else if i >= |buf| then Short
    else if buf[i] < 128 then Ends(i)
    else ScanPrefix(buf, i + 1)
  }

  /** One call of `DatumFrameDecoder.decode` on the readable bytes `buf`. */
  function DecodeOne(buf: seq<byte>): (s: FrameStep)
    ensures s.Emit? ==> 1 <= s.consumed <= |buf|
    ensures s.Emit? && s.unit.Frame? ==>
      |s.unit.body| < s.consumed && buf[s.consumed - |s.unit.body|..s.consumed] == s.unit.body
    ensures s.Emit? && s.unit.Sentinel? ==> s.consumed <= 5
    ensures s.Corrupt? ==> s.consumed == 5 <= |buf|
  {
    match ScanPrefix(buf, 0)
    case Short => NeedMore
    case Wide => Corrupt(WiderThan32Bit, 5)
    case Ends(last) => AfterPrefix(buf[..last + 1], buf[last + 1..])
  }

  /** The rest of `decode` once the prefix `p` has been read: a negative length is
      corruption, thrown with the prefix consumed; a sentinel code is emitted alone; an
      ordinary length waits until the whole body `rest[..length]` is readable. */
  function AfterPrefix(p: seq<byte>, rest: seq<byte>): (s: FrameStep)
    requires 1 <= |p| <= 5
    ensures s.Emit? ==> |p| <= s.consumed <= |p| + |rest|
    ensures s.Emit? && s.unit.Frame? ==> s.consumed == |p| + |s.unit.body|
    ensures s.Emit? && s.unit.Frame? ==> s.unit.body == rest[..|s.unit.body|]
    ensures s.Emit? && s.unit.Sentinel? ==> s.consumed == |p|
    ensures s.Corrupt? ==> s.consumed == |p| == 5
  {
    var length := Varint.ReadRawVarint32(p);
    if length < 0 then
      Varint.NegativeNeedsFiveBytes(p);
      Corrupt(NegativeLength(length), |p|)
    else
      match FromMessageCode(length)
      case Some(m) => Emit(Sentinel(m), |p|)
      case None =>
        if |rest| < length then NeedMore
        else Emit(Frame(rest[..length]), |p| + length)
  }

  /** The length prepender's output for an ordinary frame (the prepender itself is
      library code; this is its specification). */
  function EncodeFrame(body: seq<byte>): seq<byte>
  {
    Varint.Encode(|body|) + body
  }

  // ---------------------------------------------------------------------------
  // The prefix scan

  lemma {:induction false} ScanTerminated(p: seq<byte>, rest: seq<byte>, i: nat)
    requires Terminated(p)
    requires i <= |p| - 1
    ensures ScanPrefix(p + rest, i) == Ends(|p| - 1)
    decreases 5 - i
  {
    var buf := p + rest;
    assert buf[i] == p[i];
    if i < |p| - 1 {
      ScanTerminated(p, rest, i + 1);
    }
  }

  lemma {:induction false} ScanStable(a: seq<byte>, b: seq<byte>, i: nat)
    requires i <= 5 && i <= |a|
    requires !ScanPrefix(a, i).Short?
    ensures ScanPrefix(a + b, i) == ScanPrefix(a, i)
    decreases 5 - i
  {
    if i < 5 {
      assert (a + b)[i] == a[i];
      if a[i] >= 128 {
        ScanStable(a, b, i + 1);
      }
    }
  }

  /** Decoding a complete prefix: what follows it is only looked at for a frame body. */
  lemma DecodeAfterPrefix(p: seq<byte>, rest: seq<byte>)
    requires Terminated(p)
    ensures DecodeOne(p + rest) == AfterPrefix(p, rest)
  {
    ScanTerminated(p, rest, 0);
    assert (p + rest)[..|p|] == p;
    assert (p + rest)[|p|..] == rest;
  }

  lemma EncodedVarintTerminated(v: nat)
    requires v <= INT_MAX
    ensures Terminated(Varint.Encode(v))
    ensures Varint.ReadRawVarint32(Varint.Encode(v)) == v
  {
    Varint.EncodeAtMostFive(v);
    Varint.ReadEncodedVarint(v);
  }

  // ---------------------------------------------------------------------------
  // Properties of one decode call

  /** The input ends before a byte with the high bit clear: nothing is emitted. */
  lemma ShortPrefixNeedsMore(buf: seq<byte>)
    requires |buf| < 5
    requires forall k :: 0 <= k < |buf| ==> buf[k] >= 128
    ensures DecodeOne(buf) == NeedMore
  {
  }

  /** Five continuation bytes: the length is wider than 32 bits. */
  lemma FiveContinuationBytesCorrupt(buf: seq<byte>)
    requires |buf| >= 5
    requires forall k :: 0 <= k < 5 ==> buf[k] >= 128
    ensures DecodeOne(buf) == Corrupt(WiderThan32Bit, 5)
  {
  }

  /** A complete prefix whose value is negative as an `int` is corruption, whatever
      follows it; only a five-byte prefix can be negative. */
  lemma NegativeLengthCorrupt(p: seq<byte>, rest: seq<byte>)
    requires Terminated(p)
    requires Varint.ReadRawVarint32(p) < 0
    ensures |p| == 5
    ensures DecodeOne(p + rest) == Corrupt(NegativeLength(Varint.ReadRawVarint32(p)), 5)
  {
    DecodeAfterPrefix(p, rest);
  }

  /** A concrete negative prefix: the five-byte varint of 2^31 reads as `INT_MIN`. */
  lemma NegativeLengthExample()
    ensures DecodeOne([0x80, 0x80, 0x80, 0x80, 0x08]) == Corrupt(NegativeLength(INT_MIN), 5)
  {
    var p: seq<byte> := [0x80, 0x80, 0x80, 0x80, 0x08];
    assert Varint.GroupsValue(p[4..]) == 8;
    assert Varint.GroupsValue(p[3..]) == 8 * 128;
    assert Varint.GroupsValue(p[2..]) == 8 * 128 * 128;
    assert Varint.GroupsValue(p[1..]) == 8 * 128 * 128 * 128;
    assert Varint.GroupsValue(p) == TWO_31;
    DecodeAfterPrefix(p, []);
    assert p + [] == p;
  }

  /** A sentinel's varint emits that sentinel and consumes only its five bytes; no body
      is read, whatever follows. */
  lemma SentinelDecodes(m: Metadata, rest: seq<byte>)
    ensures DecodeOne(Varint.Encode(Code(m)) + rest) == Emit(Sentinel(m), 5)
  {
    EncodedVarintTerminated(Code(m));
    CodeVarintIsFiveBytes(m);
    DecodeAfterPrefix(Varint.Encode(Code(m)), rest);
  }

  /** The bytes `writeMetadataMessage` appends decode to the same sentinel. */
  lemma WrittenSentinelDecodes(m: Metadata, rest: seq<byte>)
    ensures DecodeOne(WriteMetadataMessage(m, []) + rest) == Emit(Sentinel(m), 5)
  {
    assert WriteMetadataMessage(m, []) == Varint.Encode(Code(m));
    SentinelDecodes(m, rest);
  }

  /** An ordinary length with fewer body bytes than it announces: nothing is emitted
      and no byte is consumed, so a partial frame is never emitted. */
  lemma PartialFrameNeedsMore(n: nat, partial: seq<byte>)
    requires n < STREAM_END_CODE
    requires |partial| < n
    ensures DecodeOne(Varint.Encode(n) + partial) == NeedMore
  {
    EncodedVarintTerminated(n);
    DecodeAfterPrefix(Varint.Encode(n), partial);
  }

  /** With the whole body present, exactly the `length` bytes after the prefix are
      emitted as one frame, and prefix plus body are consumed. */
  lemma FrameDecodes(body: seq<byte>, rest: seq<byte>)
    requires |body| < STREAM_END_CODE
    ensures DecodeOne(EncodeFrame(body) + rest) == Emit(Frame(body), |EncodeFrame(body)|)
  {
    var p := Varint.Encode(|body|);
    EncodedVarintTerminated(|body|);
    assert EncodeFrame(body) + rest == p + (body + rest);
    DecodeAfterPrefix(p, body + rest);
    assert (body + rest)[..|body|] == body;
  }

  /** The prepender does not exclude a body whose length equals the stream-end code;
      such a frame is read back as the stream-end sentinel and its body is left
      unread. */
  lemma SentinelLengthFrameMisread(body: seq<byte>)
    requires |body| == STREAM_END_CODE
    ensures DecodeOne(EncodeFrame(body)) == Emit(Sentinel(StreamEnd), 5)
  {
    assert Varint.Encode(|body|) == Varint.Encode(Code(StreamEnd));
    SentinelDecodes(StreamEnd, body);
  }

  lemma AfterPrefixStable(p: seq<byte>, rest: seq<byte>, more: seq<byte>)
    requires 1 <= |p| <= 5
    requires !AfterPrefix(p, rest).NeedMore?
    ensures AfterPrefix(p, rest + more) == AfterPrefix(p, rest)
  {
    var length := Varint.ReadRawVarint32(p);
    if 0 <= length <= |rest| {
      assert (rest + more)[..length] == rest[..length];
    }
  }

  /** Whatever a decode call decided on `a` it decides again once more bytes have
      arrived, unless it was waiting for them. */
  lemma DecodeOneStable(a: seq<byte>, b: seq<byte>)
    requires !DecodeOne(a).NeedMore?
    ensures DecodeOne(a + b) == DecodeOne(a)
  {
    ScanStable(a, b, 0);
    var scan := ScanPrefix(a, 0);
    if scan.Ends? {
      var p, r := a[..scan.last + 1], a[scan.last + 1..];
      assert (a + b)[..scan.last + 1] == p;
      assert (a + b)[scan.last + 1..] == r + b;
      AfterPrefixStable(p, r, b);
    }
  }

  // ---------------------------------------------------------------------------
  // The cumulating decode loop, run with this decoder

  /** `DecodeOne` is a decode step the cumulating loop can be run with, and one that
      never waits for bytes it does not need. */
  lemma DecodeOneWellBehaved()
    ensures Consumes(DecodeOne)
    ensures PrefixStable(DecodeOne)
  {
    forall buf
      ensures ConsumesAt(DecodeOne, buf)
    {
    }
    forall a, b
      ensures StableAt(DecodeOne, a, b)
    {
      if !DecodeOne(a).NeedMore? {
        DecodeOneStable(a, b);
      }
    }
  }

  /** All units one read of `buf` yields, what stays in the cumulation, and the
      corruption that ended the read, if any. */
  function DecodeAll(buf: seq<byte>): Decoded<Unit, CorruptReason>
  {
    DecodeOneWellBehaved();
    Cumulate(DecodeOne, buf)
  }

  /** The reads of a decoder that starts with an empty cumulation. */
  function Reads(chunks: seq<seq<byte>>): seq<Decoded<Unit, CorruptReason>>
  {
    DecodeOneWellBehaved();
    FeedAll(DecodeOne, [], chunks)
  }

  /** However the bytes are split into reads, the frame decoder agrees with one read
      of all of them. Without corruption, no read throws, and the reads emit the same
      units and keep the same cumulation. With corruption, the first read that throws
      throws the same exception, after the same units, and what it keeps followed by
      the chunks still to come is what the one read keeps. */
  lemma FramesIndependentOfChunking(chunks: seq<seq<byte>>)
    ensures var whole := DecodeAll(Flatten(chunks));
      var run := Reads(chunks);
      && (whole.failure.None? ==> Clean(run) && Units(run) == whole.units && Last([], run) == whole.rest)
      && (whole.failure.Some? ==> exists k: nat :: FirstFailureAt(run, chunks, k, whole))
  {
    DecodeOneWellBehaved();
    ChunkingIrrelevant(DecodeOne, chunks);
    assert [] + Flatten(chunks) == Flatten(chunks);
    assert DecodeAll(Flatten(chunks)) == Cumulate(DecodeOne, [] + Flatten(chunks));
    assert Reads(chunks) == FeedAll(DecodeOne, [], chunks);
  }

  /** A read that hits corruption has consumed the five-byte prefix it rejected and
      keeps only the bytes after it; the next read decodes those bytes followed by its
      own chunk, so decoding resumes right after the prefix. */
  lemma FrameCorruptionResumes(cumulation: seq<byte>, chunk: seq<byte>, next: seq<byte>)
    requires DecodeAll(cumulation + chunk).failure.Some?
    ensures var buf := cumulation + chunk;
      var run := FeedAll(DecodeOne, cumulation, [chunk, next]);
      var j := |buf| - |run[0].rest| - 5;
      && 0 <= j
      && DecodeOne(buf[j..]) == Corrupt(run[0].failure.value, 5)
      && run[0].rest == buf[j + 5..]
      && run[1] == DecodeAll(buf[j + 5..] + next)
  {
    DecodeOneWellBehaved();
    var buf := cumulation + chunk;
    var run := FeedAll(DecodeOne, cumulation, [chunk, next]);
    ReadAfterCorruption(DecodeOne, cumulation, chunk, next);
    var j: nat, c: nat :| CorruptAt(DecodeOne, buf, j, c) && run[1] == Cumulate(DecodeOne, buf[j + c..] + next);
    var d := Cumulate(DecodeOne, buf);
    assert run[0] == d;
    assert DecodeOne(buf[j..]) == Corrupt(d.failure.value, c);
    assert c == 5;
    assert |d.rest| == |buf| - j - 5;
    assert run[1] == DecodeAll(buf[j + 5..] + next);
  }

  /** Five continuation bytes then `0x00` in one read, then `0x05` in the next: the
      first read throws and keeps `0x00`; the second emits the empty frame that
      `0x00` announces and waits on `0x05`. */
  lemma CorruptionThenEmptyFrame()
    ensures Reads([[0x80, 0x80, 0x80, 0x80, 0x80, 0x00], [0x05]])
         == [Decoded([], [0x00], Some(WiderThan32Bit)), Decoded([Frame([])], [0x05], None)]
  {
    var first: seq<byte> := [0x80, 0x80, 0x80, 0x80, 0x80, 0x00];
    var second: seq<byte> := [0x05];
    var kept: seq<byte> := [0x00];
    var d1 := Decoded([], kept, Some(WiderThan32Bit));
    var d2 := Decoded([Frame([])], second, None);
    ExampleFirstRead();
    assert DecodeAll(first) == d1;
    assert kept + second == [0x00, 0x05];
    ExampleSecondRead();
    assert DecodeAll(d1.rest + second) == d2;
    TwoReads(first, second);
    assert Reads([first, second]) == [d1, d2];
  }

  /** Two reads: the second decodes what the first kept, followed by its own bytes. */
  lemma TwoReads(a: seq<byte>, b: seq<byte>)
    ensures Reads([a, b]) == [DecodeAll(a), DecodeAll(DecodeAll(a).rest + b)]
  {
    DecodeOneWellBehaved();
    var chunks: seq<seq<byte>> := [a, b];
    assert [] + a == a;
    assert chunks[1..] == [b] && chunks[1..][1..] == [];
    var d := Feed(DecodeOne, [], a);
    assert d == DecodeAll(a);
    assert FeedAll(DecodeOne, d.rest, [b]) == [Feed(DecodeOne, d.rest, b)];
  }

  lemma ExampleFirstRead()
    ensures DecodeAll([0x80, 0x80, 0x80, 0x80, 0x80, 0x00]) == Decoded([], [0x00], Some(WiderThan32Bit))
  {
    var first: seq<byte> := [0x80, 0x80, 0x80, 0x80, 0x80, 0x00];
    FiveContinuationBytesCorrupt(first);
    assert first[5..] == [0x00];
  }

  lemma ExampleSecondRead()
    ensures DecodeAll([0x00, 0x05]) == Decoded([Frame([])], [0x05], None)
  {
    var buf: seq<byte> := [0x00, 0x05];
    var tail: seq<byte> := [0x05];
    var units: seq<Unit> := [Frame([])];
    LoneFiveWaits(tail);
    EmptyFrameFirst(buf, tail);
    assert units + [] == units;
  }

  lemma LoneFiveWaits(tail: seq<byte>)
    requires tail == [0x05]
    ensures Cumulate(DecodeOne, tail) == Decoded([], tail, None)
  {
    DecodeOneWellBehaved();
    LoneFiveNeedsMore();
  }

  lemma EmptyFrameFirst(buf: seq<byte>, tail: seq<byte>)
    requires buf == [0x00, 0x05] && tail == [0x05]
    ensures DecodeAll(buf) == Prepend([Frame([])], Cumulate(DecodeOne, tail))
  {
    DecodeOneWellBehaved();
    EmptyFrameThenFive();
    assert buf[1..] == tail;
    CumulateEmit(DecodeOne, buf, Frame([]), 1);
  }

  lemma EmptyFrameThenFive()
    ensures DecodeOne([0x00, 0x05]) == Emit(Frame([]), 1)
  {
    assert Varint.Encode(0) == [0x00];
    FrameDecodes([], [0x05]);
    assert EncodeFrame([]) + [0x05] == [0x00, 0x05];
  }

  lemma LoneFiveNeedsMore()
    ensures DecodeOne([0x05]) == NeedMore
  {
    assert Varint.Encode(5) == [0x05];
    PartialFrameNeedsMore(5, []);
    assert Varint.Encode(5) + [] == [0x05];
  }

  // ---------------------------------------------------------------------------
  // Round trips of whole streams

  /** A unit the sender can put on the wire without it being misread. */
  ghost predicate Encodable(u: Unit)
  {
    u.Frame? ==> |u.body| < STREAM_END_CODE
  }

  function EncodeUnit(u: Unit): seq<byte>
  {
    match u
    case Sentinel(m) => Varint.Encode(Code(m))
    case Frame(b) => EncodeFrame(b)
  }

  /** The bytes a stream of units takes on the wire, one unit after another. */
  function EncodeUnits(units: seq<Unit>): (bs: seq<byte>)
  {
    Flatten(UnitPieces(units))
  }

  function UnitPieces(units: seq<Unit>): (pieces: seq<seq<byte>>)
    ensures |pieces| == |units|
    ensures forall k :: 0 <= k < |units| ==> pieces[k] == EncodeUnit(units[k])
  {
    seq(|units|, k requires 0 <= k < |units| => EncodeUnit(units[k]))
  }

  lemma UnitDecodes(u: Unit, rest: seq<byte>)
    requires Encodable(u)
    ensures DecodeOne(EncodeUnit(u) + rest) == Emit(u, |EncodeUnit(u)|)
  {
    match u
    case Sentinel(m) =>
      CodeVarintIsFiveBytes(m);
      SentinelDecodes(m, rest);
    case Frame(b) =>
      FrameDecodes(b, rest);
  }

  /** Decoding the encoding of a stream of units gives the units back and leaves
      nothing behind. */
  lemma DecodeEncodedUnits(units: seq<Unit>)
    requires forall k :: 0 <= k < |units| ==> Encodable(units[k])
    ensures DecodeAll(EncodeUnits(units)) == Decoded(units, [], None)
  {
    var pieces := UnitPieces(units);
    forall k, rest | 0 <= k < |pieces|
      ensures DecodeOne(pieces[k] + rest) == Emit(units[k], |pieces[k]|)
    {
      UnitDecodes(units[k], rest);
    }
    CumulatePieces(DecodeOne, pieces, units);
  }

  function Singletons(bs: seq<byte>): (chunks: seq<seq<byte>>)
    ensures |chunks| == |bs|
    ensures Flatten(chunks) == bs
    decreases |bs|
  {
    if |bs| == 0 then [] else [[bs[0]]] + Singletons(bs[1..])
  }

  /** A frame `varint(n) ++ b` with `|b| = n` is emitted exactly once, as `b`, whether
      its bytes arrive in one read or one byte per read. */
  lemma FrameWholeOrByteByByte(body: seq<byte>)
    requires |body| < STREAM_END_CODE
    ensures DecodeAll(EncodeFrame(body)) == Decoded([Frame(body)], [], None)
    ensures var run := Reads(Singletons(EncodeFrame(body)));
      Clean(run) && Units(run) == [Frame(body)] && Last([], run) == []
  {
    var units := [Frame(body)];
    var pieces := UnitPieces(units);
    assert pieces[0] == EncodeFrame(body) && pieces[1..] == [];
    assert EncodeUnits(units) == EncodeFrame(body) + Flatten([]);
    assert EncodeFrame(body) + [] == EncodeFrame(body);
    DecodeEncodedUnits(units);
    FramesIndependentOfChunking(Singletons(EncodeFrame(body)));
  }

  /** The same for a whole stream of units. */
  lemma StreamByteByByte(units: seq<Unit>)
    requires forall k :: 0 <= k < |units| ==> Encodable(units[k])
    ensures var run := Reads(Singletons(EncodeUnits(units)));
      Clean(run) && Units(run) == units && Last([], run) == []
  {
    DecodeEncodedUnits(units);
    FramesIndependentOfChunking(Singletons(EncodeUnits(units)));
  }
}
