/** A connection's pipeline as an ordered list of stages (`ChannelHandlers`,
    `DatumServerInitializer`), the pipeline operations the handshakes use, and the
    way an outbound message is carried from a stage toward the socket. */
module Pipeline {
  import opened Wrappers
  import opened JavaTypes
  import opened JavaLang
  import opened Codecs
  import opened Callbacks
  import opened ChannelMetadata
  import opened Messages
  import opened ConnectionSettings
  import Varint
  import Framing
  import Cumulation
  import MessageEncoder

  /** A stage of the pipeline. The stages `ChannelHandlers` keeps in static fields
      (logging, metadata encoder, length prepender, stream end, request decoder and
      encoder) and the one `DatumServerHandler` every connection shares carry no
      identity: every occurrence is the same object. Every other stage is created per
      use and carries an identity `id` that makes it a distinct object. */
  datatype Stage =
    | Logging
    | TrafficShaping(writeBandwidth: int32, readBandwidth: int32, checkInterval: int32, waitDelay: int32, id: nat)
    | TrafficLogging(id: nat)
    | MetadataEncoder
    | FrameDecoder(id: nat)
    | FrameEncoder
    | RequestDecoder
    | RequestEncoder
    | ServerDispatch
    | PayloadEncoder(encoder: MessageEncoder.Encoder, id: nat)
    | PayloadDecoder(payloadClass: JavaClass, deserializer: Deserializer, id: nat)
    | UploadEngineStage(callback: Callback, id: nat)
    | DownloadEngineStage(payloadClass: JavaClass, callback: Callback, id: nat)
    | StreamEndStage
    | StreamStartStage(id: nat)

  /** The binary name of the stage's class, which Netty's `remove` reports when the
      stage is absent. */
  function ClassName(s: Stage): string
  {
    match s
    case Logging => "com.adobe.datum.common.handler.DatumLoggingHandler"
    case TrafficShaping(_, _, _, _, _) => "io.netty.handler.traffic.ChannelTrafficShapingHandler"
    case TrafficLogging(_) => "com.adobe.datum.common.handler.TrafficLoggingHandler"
    case MetadataEncoder => "com.adobe.datum.common.handler.DatumStreamMetadataEncoder"
    case FrameDecoder(_) => "com.adobe.datum.common.handler.DatumFrameDecoder"
    case FrameEncoder => "io.netty.handler.codec.protobuf.ProtobufVarint32LengthFieldPrepender"
    case RequestDecoder => "com.adobe.datum.common.handler.DatumMessageDecoder"
    case PayloadDecoder(_, _, _) => "com.adobe.datum.common.handler.DatumMessageDecoder"
    case RequestEncoder => "com.adobe.datum.common.handler.DatumMessageEncoder"
    case PayloadEncoder(_, _) => "com.adobe.datum.common.handler.DatumMessageEncoder"
    case ServerDispatch => "com.adobe.datum.server.handler.DatumServerHandler"
    case UploadEngineStage(_, _) => "com.adobe.datum.common.handler.DatumChannelUploadHandler"
    case DownloadEngineStage(_, _, _) => "com.adobe.datum.common.handler.DatumChannelDownloadHandler"
    case StreamEndStage => "com.adobe.datum.common.handler.StreamEndHandler"
    case StreamStartStage(_) => "com.adobe.datum.client.handler.StreamStartHandler"
  }

  // ---------------------------------------------------------------------------
  // Pipeline operations

  /** The position of the first occurrence of a stage, searching from the head. */
  function Find(p: seq<Stage>, s: Stage): (r: Option<nat>)
    ensures r.Some? <==> s in p
    ensures r.Some? ==> r.value < |p| && p[r.value] == s && s !in p[..r.value]
    decreases |p|
  {
    if |p| == 0 then None
    else if p[0] == s then Some(0)
    else
      match Find(p[1..], s)
      case None => None
      case Some(i) =>
        assert p[..i + 1] == [p[0]] + p[1..][..i];
        Some(i + 1)
  }

  /** `pipeline.remove(handler)` (and `remove(Class)` for a class with one instance):
      unlink the first occurrence, or throw `NoSuchElementException` naming the
      class when the stage is not there. */
  function Remove(p: seq<Stage>, s: Stage): (r: Result<seq<Stage>, Throwable>)
    ensures r.Success? <==> s in p
    ensures r.Failure? ==> r.error == NoSuchElement(ClassName(s))
    ensures r.Success? ==> |r.value| == |p| - 1
  {
    match Find(p, s)
    case None => Failure(NoSuchElement(ClassName(s)))
    case Some(i) => Success(p[..i] + p[i + 1..])
  }

  /** Removing one stage keeps every other stage present. */
  lemma RemoveKeepsOthers(p: seq<Stage>, s: Stage, t: Stage)
    requires s in p && t != s
    ensures t in Remove(p, s).value <==> t in p
  {
    var i := Find(p, s).value;
    assert p == p[..i] + [p[i]] + p[i + 1..];
  }

  /** The reference: the pipeline with every occurrence of a stage dropped and the
      order of the others kept. */
  function Without(p: seq<Stage>, s: Stage): (r: seq<Stage>)
    decreases |p|
  {
    if |p| == 0 then [] else (if p[0] == s then [] else [p[0]]) + Without(p[1..], s)
  }

  lemma {:induction false} WithoutAbsent(p: seq<Stage>, s: Stage)
    requires s !in p
    ensures Without(p, s) == p
    decreases |p|
  {
    if |p| > 0 {
      WithoutAbsent(p[1..], s);
    }
  }

  lemma {:induction false} WithoutConcat(a: seq<Stage>, b: seq<Stage>, s: Stage)
    ensures Without(a + b, s) == Without(a, s) + Without(b, s)
    decreases |a|
  {
    if |a| == 0 {
      assert a + b == b;
    } else {
      assert (a + b)[1..] == a[1..] + b;
      WithoutConcat(a[1..], b, s);
    }
  }

  /** Removing a stage whose first occurrence is at `i` unlinks position `i`. */
  lemma RemoveAt(p: seq<Stage>, s: Stage, i: nat)
    requires i < |p| && p[i] == s && s !in p[..i]
    ensures Remove(p, s) == Success(p[..i] + p[i + 1..])
  {
  }

  /** A stage that occurs once is removed exactly: what is left is the pipeline
      without it, every other stage in its original order. */
  lemma RemoveUnique(p: seq<Stage>, s: Stage)
    requires multiset(p)[s] == 1
    ensures Remove(p, s).Success?
    ensures Remove(p, s).value == Without(p, s)
    ensures s !in Remove(p, s).value
  {
    var i := Find(p, s).value;
    var before, after := p[..i], p[i + 1..];
    assert p == before + [s] + after;
    OnceNotAfter(before, s, after);
    WithoutAround(before, s, after);
    RemoveAt(p, s, i);
  }

  lemma OnceNotAfter(before: seq<Stage>, s: Stage, after: seq<Stage>)
    requires multiset(before + [s] + after)[s] == 1
    ensures s !in after
  {
    assert multiset(before + [s] + after) == multiset(before) + multiset{s} + multiset(after);
  }

  lemma WithoutAround(before: seq<Stage>, s: Stage, after: seq<Stage>)
    requires s !in before && s !in after
    ensures Without(before + [s] + after, s) == before + after
  {
    var front := before + [s];
    WithoutConcat(front, after, s);
    WithoutConcat(before, [s], s);
    WithoutAbsent(before, s);
    WithoutAbsent(after, s);
    assert Without([s], s) == [] by { assert [s][1..] == []; }
    assert Without(front, s) == before + [];
    assert before + [] == before;
  }

  // ---------------------------------------------------------------------------
  // `ChannelHandlers`

  /** `inboundHandlers`: a new payload decoder, the given handler, and the shared
      stream-end stage, in that order. */
  function InboundHandlers(payloadClass: JavaClass, deserializer: Deserializer, handler: Stage, id: nat): (r: seq<Stage>)
    ensures |r| == 3
  {
    [PayloadDecoder(payloadClass, deserializer, id), handler, StreamEndStage]
  }

  /** `trafficShapingHandlers`: a new shaping stage given the write bandwidth, read
      bandwidth, check interval and wait delay, in that order, then a new traffic
      logger. */
  function TrafficShapingHandlers(settings: Settings, id: nat): (r: seq<Stage>)
    ensures |r| == 2
  {
    [TrafficShaping(settings.writeBandwidth, settings.readBandwidth, settings.bandwidthCheckInterval,
                    settings.bandwidthWaitDelay, id),
     TrafficLogging(id + 1)]
  }

  /** `DatumServerInitializer.initChannel`: the stages a new server connection starts
      with. The fresh stages take identities `id`, `id + 1` and `id + 2`. */
  function ServerInitialPipeline(settings: Settings, id: nat): (p: seq<Stage>)
    ensures |p| == 8
  {
    [Logging] + TrafficShapingHandlers(settings, id)
      + [MetadataEncoder, FrameDecoder(id + 2), FrameEncoder, RequestDecoder, ServerDispatch]
  }

  /** The initial server pipeline holds the dispatch stage. */
  lemma InitialHasDispatch(settings: Settings, id: nat)
    ensures ServerDispatch in ServerInitialPipeline(settings, id)
  {
    assert ServerInitialPipeline(settings, id)[7] == ServerDispatch;
  }

  /** The initial server pipeline, stage by stage: logging, traffic shaping with the
      settings' write bandwidth, read bandwidth, check interval and wait delay, traffic
      logging, metadata encoder, frame decoder, length prepender, request decoder and
      the dispatch stage last. Each of the envelope stages occurs once. */
  lemma ServerInitialOrder(settings: Settings, id: nat)
    ensures var p := ServerInitialPipeline(settings, id);
      && p[0] == Logging
      && p[1] == TrafficShaping(settings.writeBandwidth, settings.readBandwidth,
                                settings.bandwidthCheckInterval, settings.bandwidthWaitDelay, id)
      && p[2].TrafficLogging? && p[3] == MetadataEncoder && p[4].FrameDecoder?
      && p[5] == FrameEncoder && p[6] == RequestDecoder && p[7] == ServerDispatch
      && multiset(p)[RequestDecoder] == 1 && multiset(p)[ServerDispatch] == 1
  {
    var front := ServerPrepared(settings, id);
    InitialIsPreparedPlusEnvelope(settings, id);
    OnceEach(front, RequestDecoder, ServerDispatch);
  }

  lemma InitialIsPreparedPlusEnvelope(settings: Settings, id: nat)
    ensures ServerInitialPipeline(settings, id) == ServerPrepared(settings, id) + [RequestDecoder, ServerDispatch]
  {
  }

  /** Two distinct stages appended to a pipeline holding neither occur once each. */
  lemma OnceEach(front: seq<Stage>, x: Stage, y: Stage)
    requires x !in front && y !in front && x != y
    ensures multiset(front + [x, y])[x] == 1 && multiset(front + [x, y])[y] == 1
  {
    assert multiset(front + [x, y]) == multiset(front) + multiset{x} + multiset{y};
    assert multiset(front)[x] == 0 && multiset(front)[y] == 0;
  }

  /** Two connections share the singleton stages and the one dispatch stage, but
      get distinct frame decoders, shaping stages and traffic loggers. */
  lemma ConnectionsShareSingletons(s1: Settings, id1: nat, s2: Settings, id2: nat)
    requires id1 != id2
    ensures var p := ServerInitialPipeline(s1, id1);
      var q := ServerInitialPipeline(s2, id2);
      && (forall k | k in {0, 3, 5, 6, 7} :: p[k] == q[k])
      && p[1] != q[1] && p[2] != q[2] && p[4] != q[4]
  {
  }

  /** Every call to `inboundHandlers` makes a new payload decoder but hands out the
      same stream-end stage. */
  lemma InboundHandlersShareStreamEnd(c1: JavaClass, d1: Deserializer, h1: Stage, id1: nat,
                                      c2: JavaClass, d2: Deserializer, h2: Stage, id2: nat)
    requires id1 != id2
    ensures InboundHandlers(c1, d1, h1, id1)[0] != InboundHandlers(c2, d2, h2, id2)[0]
    ensures InboundHandlers(c1, d1, h1, id1)[2] == InboundHandlers(c2, d2, h2, id2)[2] == StreamEndStage
    ensures InboundHandlers(c1, d1, h1, id1)[1] == h1
    ensures var dec := InboundHandlers(c1, d1, h1, id1)[0];
      dec.PayloadDecoder? && dec.payloadClass == c1 && dec.deserializer == d1
  {
  }

  /** `AbstractRequestHandler.prepareChannel`: what is left of the server pipeline
      once the request decoder and then the dispatch stage are removed. */
  function ServerPrepared(settings: Settings, id: nat): (p: seq<Stage>)
    ensures RequestDecoder !in p && ServerDispatch !in p
  {
    [Logging,
     TrafficShaping(settings.writeBandwidth, settings.readBandwidth, settings.bandwidthCheckInterval,
                    settings.bandwidthWaitDelay, id),
     TrafficLogging(id + 1), MetadataEncoder, FrameDecoder(id + 2), FrameEncoder]
  }

  /** Removing the two envelope stages from the initial pipeline, in the order
      `prepareChannel` does, succeeds and leaves the prepared pipeline. */
  lemma PrepareInitialPipeline(settings: Settings, id: nat)
    ensures var p := ServerInitialPipeline(settings, id);
      && Remove(p, RequestDecoder).Success?
      && Remove(Remove(p, RequestDecoder).value, ServerDispatch) == Success(ServerPrepared(settings, id))
  {
    var p := ServerInitialPipeline(settings, id);
    var prepared := ServerPrepared(settings, id);
    assert p == prepared + [RequestDecoder, ServerDispatch];
    assert p[..6] == prepared;
    RemoveAt(p, RequestDecoder, 6);
    var q := prepared + [ServerDispatch];
    assert p[..6] + p[7..] == q;
    assert q[..6] == prepared;
    RemoveAt(q, ServerDispatch, 6);
    assert q[..6] + q[7..] == prepared;
  }

  // ---------------------------------------------------------------------------
  // Outbound

  /** One stage on the way out. The metadata encoder turns a sentinel into its raw
      varint; the length prepender prefixes a buffer with its length; the request
      encoder serializes the envelope; a payload encoder applies `encode`; every
      other stage passes the message on unchanged. */
  function StageOut(b: Behaviour, s: Stage, msg: Message): (r: Result<Message, Throwable>)
  {
    match s
    case MetadataEncoder =>
      if msg.Meta? then Success(Bytes(WriteMetadataMessage(msg.metadata, []))) else Success(msg)
    case FrameEncoder =>
      if msg.Bytes? then Success(Bytes(Framing.EncodeFrame(msg.content))) else Success(msg)
    case RequestEncoder =>
      if msg.Request? then Success(Bytes(b.serializeRequest(msg.envelope))) else Success(msg)
    case PayloadEncoder(enc, _) => MessageEncoder.Encode(b, enc, msg)
    case _ => Success(msg)
  }

  /** The head of the pipeline writes buffers to the socket and rejects anything
      else. */
  function Head(msg: Message): (r: Result<seq<byte>, Throwable>)
    ensures r.Success? <==> msg.Bytes?
  {
    if msg.Bytes? then Success(msg.content) else Failure(UnsupportedOperation("unsupported message type"))
  }

  /** A write issued at position `k`: it passes stages `k - 1` down to `0`, then the
      head. `context.write` from the stage at `k` starts here; `channel.write`
      starts at `|p|`, behind the tail. */
  function OutboundAt(b: Behaviour, p: seq<Stage>, k: nat, msg: Message): (r: Result<seq<byte>, Throwable>)
    requires k <= |p|
    decreases k
  {
    if k == 0 then Head(msg)
    else
      match StageOut(b, p[k - 1], msg)
      case Success(next) => OutboundAt(b, p, k - 1, next)
      case Failure(e) => Failure(e)
  }

  lemma OutboundStep(b: Behaviour, p: seq<Stage>, k: nat, msg: Message, next: Message)
    requires 0 < k <= |p| && StageOut(b, p[k - 1], msg) == Success(next)
    ensures OutboundAt(b, p, k, msg) == OutboundAt(b, p, k - 1, next)
  {
  }

  /** Stages that leave a message alone can be skipped. */
  lemma {:induction false} PassThrough(b: Behaviour, p: seq<Stage>, j: nat, k: nat, msg: Message)
    requires j <= k <= |p|
    requires forall i :: j <= i < k ==> StageOut(b, p[i], msg) == Success(msg)
    ensures OutboundAt(b, p, k, msg) == OutboundAt(b, p, j, msg)
    decreases k
  {
    if j < k {
      PassThrough(b, p, j, k - 1, msg);
    }
  }

  /** On the prepared server pipeline, a sentinel written from behind any stages
      appended to it that leave sentinels alone (`tail`) leaves as its bare varint,
      exactly the bytes the peer's frame decoder reads as that sentinel. With an empty
      `rest` this is `channel.writeAndFlush`; with the writer in `rest[0]` it is that
      stage's `context.writeAndFlush`. */
  lemma SentinelLeavesBare(b: Behaviour, settings: Settings, id: nat, tail: seq<Stage>, rest: seq<Stage>, m: Metadata)
    requires forall i :: 0 <= i < |tail| ==> StageOut(b, tail[i], Meta(m)) == Success(Meta(m))
    ensures OutboundAt(b, ServerPrepared(settings, id) + tail + rest, 6 + |tail|, Meta(m))
         == Success(Framing.EncodeUnit(Framing.Sentinel(m)))
  {
    var prepared := ServerPrepared(settings, id);
    var p := prepared + tail + rest;
    forall i | 6 <= i < 6 + |tail|
      ensures StageOut(b, p[i], Meta(m)) == Success(Meta(m))
    {
      assert p[i] == tail[i - 6];
    }
    PassThrough(b, p, 6, 6 + |tail|, Meta(m));
    OutboundPrefix(b, p, prepared, 6, Meta(m));
    PreparedCarriesSentinel(b, settings, id, m);
    MetadataMessageIsVarint(m);
  }

  /** A write depends only on the stages it passes. */
  lemma {:induction false} OutboundPrefix(b: Behaviour, p: seq<Stage>, q: seq<Stage>, k: nat, msg: Message)
    requires k <= |p| && k <= |q| && p[..k] == q[..k]
    ensures OutboundAt(b, p, k, msg) == OutboundAt(b, q, k, msg)
    decreases k
  {
    if k > 0 {
      assert p[k - 1] == p[..k][k - 1] == q[k - 1];
      assert p[..k - 1] == p[..k][..k - 1];
      assert q[..k - 1] == q[..k][..k - 1];
      match StageOut(b, p[k - 1], msg)
      case Success(next) => OutboundPrefix(b, p, q, k - 1, next);
      case Failure(_) =>
    }
  }

  lemma MetadataMessageIsVarint(m: Metadata)
    ensures WriteMetadataMessage(m, []) == Varint.Encode(Code(m))
  {
  }

  lemma PreparedCarriesSentinel(b: Behaviour, settings: Settings, id: nat, m: Metadata)
    ensures OutboundAt(b, ServerPrepared(settings, id), 6, Meta(m)) == Success(WriteMetadataMessage(m, []))
  {
    var p := ServerPrepared(settings, id);
    var w := WriteMetadataMessage(m, []);
    OutboundStep(b, p, 6, Meta(m), Meta(m));
    OutboundStep(b, p, 5, Meta(m), Meta(m));
    OutboundStep(b, p, 4, Meta(m), Bytes(w));
    PreparedCarriesBytes(b, settings, id, w);
  }

  /** Logging and traffic shaping hand buffers to the head untouched. */
  lemma PreparedCarriesBytes(b: Behaviour, settings: Settings, id: nat, c: seq<byte>)
    ensures OutboundAt(b, ServerPrepared(settings, id), 3, Bytes(c)) == Success(c)
  {
  }

  /** A payload written by the engine on the server's download pipeline (the prepared
      stages, then the payload encoder, then the engine) leaves as one length-prefixed
      frame holding exactly the serializer's bytes; a serializer failure leaves
      nothing and fails the write with the encoder's exception. */
  lemma PayloadLeavesFramed(b: Behaviour, settings: Settings, id: nat, enc: MessageEncoder.Encoder,
                            encId: nat, engine: Stage, v: Value)
    requires v.cls == enc.payloadClass
    ensures var p := ServerPrepared(settings, id) + [PayloadEncoder(enc, encId), engine];
      var out := OutboundAt(b, p, 7, Payload(v));
      && (out.Success? <==> b.serialize(enc.serializer, v).Success?)
      && (out.Success? ==> out.value == Framing.EncodeUnit(Framing.Frame(b.serialize(enc.serializer, v).value)))
      && (out.Failure? ==> out.error == EncoderFailure(b.serialize(enc.serializer, v).error))
  {
    var p := ServerPrepared(settings, id) + [PayloadEncoder(enc, encId), engine];
    var r := b.serialize(enc.serializer, v);
    assert p[6] == PayloadEncoder(enc, encId);
    if r.Success? {
      assert OutboundAt(b, p, 7, Payload(v)) == OutboundAt(b, p, 6, Bytes(r.value));
      var framed := Bytes(Framing.EncodeFrame(r.value));
      assert p[5] == FrameEncoder;
      assert OutboundAt(b, p, 6, Bytes(r.value)) == OutboundAt(b, p, 5, framed);
      assert p[3] == MetadataEncoder && p[4].FrameDecoder?;
      assert p[0] == Logging && p[1].TrafficShaping? && p[2].TrafficLogging?;
      PassThrough(b, p, 0, 5, framed);
    }
  }

  /** The stage order matters: were the length prepender nearer the head than the
      metadata encoder, a sentinel would leave length-prefixed, as a 6-byte frame,
      and the peer would read an ordinary frame instead of the sentinel. */
  lemma SwappedEncodersFrameTheSentinel(b: Behaviour, m: Metadata)
    ensures var out := OutboundAt(b, [FrameEncoder, MetadataEncoder], 2, Meta(m));
      && out == Success(Framing.EncodeFrame(WriteMetadataMessage(m, [])))
      && |out.value| == 6
      && Framing.DecodeOne(out.value) == Cumulation.Emit(Framing.Frame(WriteMetadataMessage(m, [])), 6)
  {
    var w := WriteMetadataMessage(m, []);
    var p := [FrameEncoder, MetadataEncoder];
    assert OutboundAt(b, p, 2, Meta(m)) == OutboundAt(b, p, 1, Bytes(w));
    assert OutboundAt(b, p, 1, Bytes(w)) == OutboundAt(b, p, 0, Bytes(Framing.EncodeFrame(w)));
    assert |w| == 5;
    assert Varint.Encode(|w|) == [5];
    Framing.FrameDecodes(w, []);
    assert Framing.EncodeFrame(w) + [] == Framing.EncodeFrame(w);
  }
}
