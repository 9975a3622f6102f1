/** The client's side of a connection (`DatumClient.sendDownloadRequest`,
    `sendUploadRequest`, `sendRequest`, `waitForStreamStart`, `newChannel`, and the
    `StreamStartHandler` and `StreamEndHandler` stages): the request serializer is
    resolved, a connection opened, the envelope written; once that write succeeds the
    request encoder gives way to a stream-start stage, and the first sentinel to reach
    that stage resolves the payload codec and appends the typed stages. */
module ClientHandshake {
  import opened Wrappers
  import opened JavaLang
  import opened Codecs
  import opened Envelopes
  import opened Callbacks
  import opened ChannelMetadata
  import opened Messages
  import opened SerializationContext
  import opened SerializerProvider
  import opened Routing
  import opened Pipeline
  import MessageEncoder
  import ConnectionSettings

  /** What a connection does, in order. */
  datatype Effect =
    | Closed                      // `channel.close()` / `context.close()`
    | Wrote(msg: Message)         // `channel.writeAndFlush(msg)`
    | Notify(call: Call)          // a listener reached by `onComplete`/`onError`
    | ListenerFailed(cause: Throwable)  // a write listener threw; Netty logs it and goes on
    | Unhandled(cause: Throwable)       // an exception passed the last stage; Netty logs it
    | Dropped(msg: Message)             // an inbound message no stage took

  /** What the stream-start continuation needs: the operation, the payload class and
      the user's callback. */
  datatype Continuation = Continuation(kind: RequestType, payloadClass: JavaClass, callback: Callback)

  /** A connection: its pipeline, the next fresh stage identity, what it did, and the
      request it carries. */
  datatype Conn = Conn(pipeline: seq<Stage>, nextId: nat, effects: seq<Effect>, continuation: Continuation)

  /** The bootstrap's answer: a channel whose pipeline the client initializer set up
      (fresh stages from `id` on), an interruption while waiting for it, or any other
      exception out of `bootstrap` (settings that fail validation, a connection that
      cannot be made). */
  datatype Connect =
    | Connected(pipeline: seq<Stage>, id: nat)
    | Interrupted(cause: Throwable)
    | Refused(cause: Throwable)

  /** `DatumClientBootstrap.bootstrap`: the settings are validated before any
      connection is tried, and a failure throws `checkArgument`'s exception; valid
      settings give the connection attempt's answer. */
  function Bootstrap(settings: ConnectionSettings.Settings, attempt: Connect): (r: Connect)
    ensures ConnectionSettings.Validate(settings).Pass? ==> r == attempt
    ensures ConnectionSettings.Validate(settings).Fail?
        ==> r == Refused(IllegalArgument(ConnectionSettings.Validate(settings).error))
  {
    match ConnectionSettings.Validate(settings)
    case Pass => attempt
    case Fail(message) => Refused(IllegalArgument(message))
  }

  const CHANNEL_FAILURE: string := "unable to get communication channel"
  const SEND_FAILURE: string := "unable to send datum request"

  /** What a send leaves behind: the provider's context (which every request of the
      client shares), the connection if one was opened, and the exception thrown to the
      caller, if any. */
  datatype Sent = Sent(ctx: Context, conn: Option<Conn>, thrown: Option<Throwable>)

  /** `sendDownloadRequest`/`sendUploadRequest` up to the envelope write: resolve the
      request serializer, open the channel (an interruption is wrapped, any other
      exception from the bootstrap is thrown as it is), build the envelope and write
      it; a failure to build it closes the channel and is wrapped. The payload codec
      is not looked at. */
  function Send(b: Behaviour, ctx: Context, request: Value, payloadClass: JavaClass, kind: RequestType,
                callback: Callback, connect: Connect): (r: Sent)
    ensures r.conn.Some? || r.thrown.Some?
    ensures r.conn.Some? ==> |r.conn.value.effects| == 1 && (r.conn.value.effects[0].Wrote? || r.conn.value.effects[0] == Closed)
    ensures r.thrown.None? <==> r.conn.Some? && r.conn.value.effects[0].Wrote?
  {
    var (ctx1, ser) := ProvideSerializer(ctx, request.cls);
    if ser.Failure? then Sent(ctx1, None, Some(ser.error))
    else
      match connect
      case Interrupted(e) => Sent(ctx1, None, Some(ClientFailure(CHANNEL_FAILURE, e)))
      case Refused(e) => Sent(ctx1, None, Some(e))
      case Connected(p, id) =>
        var cont := Continuation(kind, payloadClass, callback);
        match BuildDatumRequest(b, request, ser.value, payloadClass, kind)
        case Failure(e) => Sent(ctx1, Some(Conn(p, id, [Closed], cont)), Some(ClientFailure(SEND_FAILURE, e)))
        case Success(env) => Sent(ctx1, Some(Conn(p, id, [Wrote(Request(env))], cont)), None)
  }

  datatype Event =
    | RequestWritten(outcome: Outcome<Throwable>)  // the envelope write completes
    | MetadataArrived(metadata: Metadata)          // the frame decoder emits a sentinel

  function Notifications(calls: seq<Call>): seq<Effect>
  {
    Submitted(calls, c => Notify(c))
  }

  /** The stages that take a sentinel: the stream-start and the stream-end stage. The
      others (decoders, engines, encoders, the stages the client initializer installs)
      pass it on. */
  predicate TakesMeta(s: Stage)
  {
    s.StreamStartStage? || s.StreamEndStage?
  }

  /** The first stage, from the head, that takes a sentinel. */
  function MetaReceiver(p: seq<Stage>): (r: Option<nat>)
    ensures r.Some? ==> r.value < |p| && TakesMeta(p[r.value]) && forall i :: 0 <= i < r.value ==> !TakesMeta(p[i])
    ensures r.None? ==> forall i :: 0 <= i < |p| ==> !TakesMeta(p[i])
    decreases |p|
  {
    if |p| == 0 then None
    else if TakesMeta(p[0]) then Some(0)
    else
      match MetaReceiver(p[1..])
      case None => None
      case Some(i) => Some(i + 1)
  }

  /** The stages a continuation appends, from the fresh identity `id` on, with the
      payload codec resolved through the shared context: for a download,
      `inboundHandlers` around a new download engine; for an upload, a new payload
      encoder and then a new upload engine. */
  function TypedStages(ctx: Context, k: Continuation, id: nat): (r: (Context, Result<seq<Stage>, Throwable>))
  {
    if k.kind == Download then
      var (ctx1, de) := ProvideDeserializer(ctx, k.payloadClass);
      (ctx1, if de.Failure? then Failure(de.error)
             else Success(InboundHandlers(k.payloadClass, de.value, DownloadEngineStage(k.payloadClass, k.callback, id + 1), id)))
    else
      var (ctx1, ser) := ProvideSerializer(ctx, k.payloadClass);
      (ctx1, if ser.Failure? then Failure(ser.error)
             else Success([PayloadEncoder(MessageEncoder.Encoder(k.payloadClass, ser.value), id),
                           UploadEngineStage(k.callback, id + 1)]))
  }

  /** The continuation `sendRequest` was given, run by the stream-start stage `start`:
      append the typed stages, then remove `start`. A resolution failure leaves the
      stage where it is, and the exception passes the last stage unheard. */
  function StreamStarted(ctx: Context, c: Conn, start: Stage): (r: (Context, Conn))
  {
    var (ctx1, stages) := TypedStages(ctx, c.continuation, c.nextId);
    match stages
    case Failure(e) => (ctx1, c.(effects := c.effects + [Unhandled(e)]))
    case Success(added) =>
      match Remove(c.pipeline + added, start)
      case Failure(e) => (ctx1, c.(effects := c.effects + [Unhandled(e)]))
      case Success(p) => (ctx1, c.(pipeline := p, nextId := c.nextId + 2))
  }

  /** One event. When the envelope write succeeds the listener removes the request
      encoder and appends a new stream-start stage; an exception from that removal is
      logged by Netty and goes no further. When the write fails the user's callback
      hears the cause. A sentinel goes to the first stage that takes one: the
      stream-start stage runs the continuation whichever sentinel it is, and the
      stream-end stage closes the channel. */
  function Handle(ctx: Context, c: Conn, ev: Event): (r: (Context, Conn))
  {
    match ev
    case RequestWritten(Pass) =>
      (ctx,
       match Remove(c.pipeline, RequestEncoder)
       case Failure(e) => c.(effects := c.effects + [ListenerFailed(e)])
       case Success(p) => c.(pipeline := p + [StreamStartStage(c.nextId)], nextId := c.nextId + 1))
    case RequestWritten(Fail(cause)) =>
      (ctx, c.(effects := c.effects + Notifications(Deliver(c.continuation.callback, Signal.Error(cause)))))
    case MetadataArrived(m) =>
      match MetaReceiver(c.pipeline)
      case None => (ctx, c.(effects := c.effects + [Dropped(Meta(m))]))
      case Some(i) =>
        if c.pipeline[i].StreamEndStage? then (ctx, c.(effects := c.effects + [Closed]))
        else StreamStarted(ctx, c, c.pipeline[i])
  }

  // ---------------------------------------------------------------------------
  // Sending

  /** The request serializer is resolved before any channel is opened: when it cannot
      be resolved, the resolution error is thrown as it is, no connection is used
      and the context is unchanged, whatever the bootstrap would have answered. */
  lemma SerializerResolvedFirst(b: Behaviour, ctx: Context, request: Value, payloadClass: JavaClass,
                                kind: RequestType, callback: Callback, connect: Connect)
    requires !CanSerialize(ctx, request.cls)
    ensures Send(b, ctx, request, payloadClass, kind, callback, connect)
         == Sent(ctx, None, Some(SerializationRuntime("Serializer not found for class " + Describe(request.cls))))
  {
    ResolvabilityStable(ctx, request.cls);
  }

  /** Sending touches the context for the request class's serializer only: the
      deserializers, and the serializer of every other class (the payload class
      included), are as they were. */
  lemma SendLeavesPayloadCodecs(b: Behaviour, ctx: Context, request: Value, payloadClass: JavaClass,
                                kind: RequestType, callback: Callback, connect: Connect)
    ensures var r := Send(b, ctx, request, payloadClass, kind, callback, connect);
      && r.ctx == ProvideSerializer(ctx, request.cls).0
      && r.ctx.deserializers == ctx.deserializers
      && (payloadClass != request.cls ==> GetSerializer(r.ctx, payloadClass) == GetSerializer(ctx, payloadClass))
  {
  }

  /** An interruption while waiting for the channel is thrown wrapped, with no
      connection. */
  lemma ConnectInterrupted(b: Behaviour, ctx: Context, request: Value, payloadClass: JavaClass,
                           kind: RequestType, callback: Callback, cause: Throwable)
    requires CanSerialize(ctx, request.cls)
    ensures var r := Send(b, ctx, request, payloadClass, kind, callback, Interrupted(cause));
      r.conn == None && r.thrown == Some(ClientFailure(CHANNEL_FAILURE, cause))
  {
    ResolvabilityStable(ctx, request.cls);
  }

  /** Any other exception from the bootstrap leaves `send` unwrapped, with no
      connection; settings that fail validation throw their `IllegalArgumentException`
      this way, whatever the connection attempt would have answered. */
  lemma ConnectRefused(b: Behaviour, ctx: Context, request: Value, payloadClass: JavaClass,
                       kind: RequestType, callback: Callback, settings: ConnectionSettings.Settings,
                       attempt: Connect)
    requires CanSerialize(ctx, request.cls)
    ensures forall cause :: var r := Send(b, ctx, request, payloadClass, kind, callback, Refused(cause));
      r.conn == None && r.thrown == Some(cause)
    ensures ConnectionSettings.Validate(settings).Fail? ==>
      var r := Send(b, ctx, request, payloadClass, kind, callback, Bootstrap(settings, attempt));
      && r.conn == None
      && r.thrown == Some(IllegalArgument("bandwidthWaitDelay should be less than connection timeout"))
  {
    ResolvabilityStable(ctx, request.cls);
  }

  /** Once connected: when the request serializer fails on the request, the channel is
      closed and the failure is thrown wrapped; otherwise exactly the envelope
      `buildDatumRequest` makes, carrying the requested operation, is written and
      nothing is thrown. */
  lemma SendOutcome(b: Behaviour, ctx: Context, request: Value, payloadClass: JavaClass,
                    kind: RequestType, callback: Callback, p: seq<Stage>, id: nat)
    requires CanSerialize(ctx, request.cls)
    ensures var ser := ProvideSerializer(ctx, request.cls).1.value;
      var env := BuildDatumRequest(b, request, ser, payloadClass, kind);
      var r := Send(b, ctx, request, payloadClass, kind, callback, Connected(p, id));
      && r.conn.Some? && r.conn.value.pipeline == p
      && r.conn.value.continuation == Continuation(kind, payloadClass, callback)
      && (env.Failure? ==> r.conn.value.effects == [Closed] && r.thrown == Some(ClientFailure(SEND_FAILURE, env.error)))
      && (env.Success? ==> r.conn.value.effects == [Wrote(Request(env.value))] && r.thrown == None
                           && env.value.kind == kind)
  {
    ResolvabilityStable(ctx, request.cls);
  }

  // ---------------------------------------------------------------------------
  // The envelope write

  /** A successful write with the request encoder installed once: the encoder is gone,
      every other stage keeps its place, and a new stream-start stage is last. The
      context is unchanged. */
  lemma WriteSucceeded(ctx: Context, c: Conn)
    requires multiset(c.pipeline)[RequestEncoder] == 1
    ensures var (ctx1, after) := Handle(ctx, c, RequestWritten(Pass));
      && ctx1 == ctx
      && after.pipeline == Without(c.pipeline, RequestEncoder) + [StreamStartStage(c.nextId)]
      && after.effects == c.effects
  {
    RemoveUnique(c.pipeline, RequestEncoder);
  }

  /** A failed write reports the cause to the user's callback and adds no stream-start
      stage. */
  lemma WriteFailed(ctx: Context, c: Conn, cause: Throwable)
    ensures var (ctx1, after) := Handle(ctx, c, RequestWritten(Fail(cause)));
      && ctx1 == ctx && after.pipeline == c.pipeline
      && after.effects == c.effects + Notifications(Deliver(c.continuation.callback, Signal.Error(cause)))
  {
  }

  /** Without a request encoder to remove, the listener's exception is logged and lost:
      no stream-start stage is added and the user's callback hears nothing. */
  lemma MissingEncoderStalls(ctx: Context, c: Conn)
    requires RequestEncoder !in c.pipeline
    ensures var (ctx1, after) := Handle(ctx, c, RequestWritten(Pass));
      && ctx1 == ctx && after.pipeline == c.pipeline
      && after.effects == c.effects + [ListenerFailed(NoSuchElement(ClassName(RequestEncoder)))]
  {
  }

  // ---------------------------------------------------------------------------
  // Stream start

  /** The stream-start stage does not look at the code: a start and an end sentinel
      have the same effect whenever some stage takes sentinels. */
  lemma AnySentinelStartsTheStream(ctx: Context, c: Conn)
    requires MetaReceiver(c.pipeline).Some?
    ensures Handle(ctx, c, MetadataArrived(StreamStart)) == Handle(ctx, c, MetadataArrived(StreamEnd))
  {
  }

  /** The context changes only when a sentinel reaches a stream-start stage: the
      envelope write's completion, a sentinel no stage takes and a sentinel the
      stream-end stage takes leave it as it was. */
  lemma CodecsOnlyAtStreamStart(ctx: Context, c: Conn, ev: Event)
    requires ev.MetadataArrived? ==>
      MetaReceiver(c.pipeline).None? || c.pipeline[MetaReceiver(c.pipeline).value].StreamEndStage?
    ensures Handle(ctx, c, ev).0 == ctx
  {
  }

  /** The shape of a connection waiting for stream start: the stages before the
      stream-start stage take no sentinel, and it is the last stage. */
  ghost predicate Waiting(c: Conn, before: seq<Stage>, sid: nat)
  {
    && c.pipeline == before + [StreamStartStage(sid)]
    && (forall i :: 0 <= i < |before| ==> !TakesMeta(before[i]))
  }

  lemma WaitingReceiver(c: Conn, before: seq<Stage>, sid: nat)
    requires Waiting(c, before, sid)
    ensures MetaReceiver(c.pipeline) == Some(|before|)
    ensures c.pipeline[|before|] == StreamStartStage(sid)
  {
    var p := c.pipeline;
    assert TakesMeta(p[|before|]);
    var r := MetaReceiver(p);
  }

  /** Removing the stream-start stage from behind the stages added after it. */
  lemma RemoveStart(before: seq<Stage>, sid: nat, added: seq<Stage>)
    requires forall i :: 0 <= i < |before| ==> !TakesMeta(before[i])
    ensures Remove(before + [StreamStartStage(sid)] + added, StreamStartStage(sid)) == Success(before + added)
  {
    var p := before + [StreamStartStage(sid)] + added;
    var s := StreamStartStage(sid);
    assert p[|before|] == s;
    assert p[..|before|] == before;
    assert p[|before| + 1..] == added;
    RemoveAt(p, s, |before|);
  }

  /** A connection waiting for stream start, whose typed stages resolve: whichever
      sentinel arrives, they are appended, the stream-start stage is gone, and the
      context is the one resolution left. */
  lemma StreamStarts(ctx: Context, c: Conn, before: seq<Stage>, sid: nat, m: Metadata)
    requires Waiting(c, before, sid)
    requires TypedStages(ctx, c.continuation, c.nextId).1.Success?
    ensures var (ctx1, stages) := TypedStages(ctx, c.continuation, c.nextId);
      Handle(ctx, c, MetadataArrived(m)) == (ctx1, c.(pipeline := before + stages.value, nextId := c.nextId + 2))
  {
    WaitingReceiver(c, before, sid);
    RemoveStart(before, sid, TypedStages(ctx, c.continuation, c.nextId).1.value);
  }

  /** A download's typed stages resolve exactly when its payload class can be
      deserialized: `inboundHandlers` around a new download engine bound to the payload
      class and the user's callback, with the deserializer the provider gives. */
  lemma DownloadStages(ctx: Context, k: Continuation, id: nat)
    requires k.kind == Download
    ensures var (ctx1, de) := ProvideDeserializer(ctx, k.payloadClass);
      var (ctx2, stages) := TypedStages(ctx, k, id);
      && ctx2 == ctx1
      && (stages.Success? <==> CanDeserialize(ctx, k.payloadClass))
      && (stages.Success? ==>
            stages.value == InboundHandlers(k.payloadClass, de.value, DownloadEngineStage(k.payloadClass, k.callback, id + 1), id))
  {
    ResolvabilityStable(ctx, k.payloadClass);
  }

  /** An upload's typed stages resolve exactly when its payload class can be
      serialized: a new payload encoder bound to the payload class and the serializer
      the provider gives, then a new upload engine given the user's callback. */
  lemma UploadStages(ctx: Context, k: Continuation, id: nat)
    requires k.kind == Upload
    ensures var (ctx1, ser) := ProvideSerializer(ctx, k.payloadClass);
      var (ctx2, stages) := TypedStages(ctx, k, id);
      && ctx2 == ctx1
      && (stages.Success? <==> CanSerialize(ctx, k.payloadClass))
      && (stages.Success? ==>
            stages.value == [PayloadEncoder(MessageEncoder.Encoder(k.payloadClass, ser.value), id),
                             UploadEngineStage(k.callback, id + 1)])
  {
    ResolvabilityStable(ctx, k.payloadClass);
  }

  /** Stages that take no sentinel in front of a pipeline do not change which stage
      takes one. */
  lemma {:induction false} ReceiverSkips(before: seq<Stage>, tail: seq<Stage>)
    requires forall i :: 0 <= i < |before| ==> !TakesMeta(before[i])
    ensures MetaReceiver(before + tail) == if MetaReceiver(tail).None? then None else Some(|before| + MetaReceiver(tail).value)
    decreases |before|
  {
    if |before| == 0 {
      assert before + tail == tail;
    } else {
      assert (before + tail)[1..] == before[1..] + tail;
      ReceiverSkips(before[1..], tail);
    }
  }

  /** In `inboundHandlers` around an engine, the stream-end stage is the one that
      takes a sentinel. */
  lemma InboundReceiver(payloadClass: JavaClass, deserializer: Deserializer, handler: Stage, id: nat)
    requires !TakesMeta(handler)
    ensures MetaReceiver(InboundHandlers(payloadClass, deserializer, handler, id)) == Some(2)
  {
    var p := InboundHandlers(payloadClass, deserializer, handler, id);
    assert p[1..] == [handler, StreamEndStage];
    assert p[1..][1..] == [StreamEndStage];
    assert MetaReceiver([StreamEndStage]) == Some(0);
    assert MetaReceiver([handler, StreamEndStage]) == Some(1);
  }

  /** The continuation fires at most once: after a download's stream start the next
      sentinel passes the new stages and reaches the stream-end stage, which closes the
      channel; nothing is resolved again. */
  lemma DownloadStartsOnce(ctx: Context, c: Conn, before: seq<Stage>, sid: nat, m1: Metadata, m2: Metadata)
    requires Waiting(c, before, sid) && c.continuation.kind == Download
    requires CanDeserialize(ctx, c.continuation.payloadClass)
    ensures var (ctx1, started) := Handle(ctx, c, MetadataArrived(m1));
      var (ctx2, again) := Handle(ctx1, started, MetadataArrived(m2));
      && StreamStartStage(sid) !in started.pipeline
      && ctx2 == ctx1
      && again.pipeline == started.pipeline
      && again.effects == started.effects + [Closed]
  {
    DownloadStages(ctx, c.continuation, c.nextId);
    StreamStarts(ctx, c, before, sid, m1);
    var k := c.continuation;
    var de := ProvideDeserializer(ctx, k.payloadClass).1.value;
    InboundReceiver(k.payloadClass, de, DownloadEngineStage(k.payloadClass, k.callback, c.nextId + 1), c.nextId);
    ReceiverSkips(before, TypedStages(ctx, k, c.nextId).1.value);
  }

  /** After an upload's stream start no stage takes a sentinel any more: the next one
      is dropped and nothing is resolved again. */
  lemma UploadStartsOnce(ctx: Context, c: Conn, before: seq<Stage>, sid: nat, m1: Metadata, m2: Metadata)
    requires Waiting(c, before, sid) && c.continuation.kind == Upload
    requires CanSerialize(ctx, c.continuation.payloadClass)
    ensures var (ctx1, started) := Handle(ctx, c, MetadataArrived(m1));
      var (ctx2, again) := Handle(ctx1, started, MetadataArrived(m2));
      && StreamStartStage(sid) !in started.pipeline
      && ctx2 == ctx1
      && again.pipeline == started.pipeline
      && again.effects == started.effects + [Dropped(Meta(m2))]
  {
    UploadStages(ctx, c.continuation, c.nextId);
    StreamStarts(ctx, c, before, sid, m1);
    var added := TypedStages(ctx, c.continuation, c.nextId).1.value;
    assert MetaReceiver(added) == None;
    ReceiverSkips(before, added);
  }

  /** A payload codec that cannot be resolved leaves the stream-start stage in place
      and the context as it was; the user's callback hears nothing, and the next
      sentinel tries again. */
  lemma FailedStartStays(ctx: Context, c: Conn, before: seq<Stage>, sid: nat, m: Metadata)
    requires Waiting(c, before, sid)
    requires c.continuation.kind == Download ==> !CanDeserialize(ctx, c.continuation.payloadClass)
    requires c.continuation.kind == Upload ==> !CanSerialize(ctx, c.continuation.payloadClass)
    ensures var (ctx1, after) := Handle(ctx, c, MetadataArrived(m));
      && ctx1 == ctx && after.pipeline == c.pipeline && after.nextId == c.nextId
      && |after.effects| == |c.effects| + 1 && after.effects[|c.effects|].Unhandled?
  {
    WaitingReceiver(c, before, sid);
    ResolvabilityStable(ctx, c.continuation.payloadClass);
  }

  // ---------------------------------------------------------------------------
  // A whole handshake

  /** Dropping a stage keeps a pipeline free of sentinel takers. */
  lemma RemovalKeepsNoTakers(p: seq<Stage>, s: Stage)
    requires multiset(p)[s] == 1
    requires forall i :: 0 <= i < |p| ==> !TakesMeta(p[i])
    ensures var q := Without(p, s); forall i :: 0 <= i < |q| ==> !TakesMeta(q[i])
  {
    RemoveUnique(p, s);
    var j := Find(p, s).value;
    var q := Without(p, s);
    assert q == p[..j] + p[j + 1..];
    forall i | 0 <= i < |q| ensures !TakesMeta(q[i]) {
      if i < j {
        assert q[i] == p[i];
      } else {
        assert q[i] == p[i + 1];
      }
    }
  }

  /** A download connection whose pipeline holds the request encoder once and no stage
      that takes a sentinel: the write's completion and then any sentinel leave the
      stages, less the encoder, followed by `inboundHandlers` around a download engine
      from the next fresh identities on, and the channel did nothing more. */
  lemma DownloadAfterWrite(ctx: Context, c: Conn, m: Metadata)
    requires c.continuation.kind == Download && CanDeserialize(ctx, c.continuation.payloadClass)
    requires multiset(c.pipeline)[RequestEncoder] == 1
    requires forall i :: 0 <= i < |c.pipeline| ==> !TakesMeta(c.pipeline[i])
    ensures var k := c.continuation;
      var (ctx1, written) := Handle(ctx, c, RequestWritten(Pass));
      var (ctx2, started) := Handle(ctx1, written, MetadataArrived(m));
      var de := ProvideDeserializer(ctx, k.payloadClass).1.value;
      && started.pipeline
           == Without(c.pipeline, RequestEncoder)
              + InboundHandlers(k.payloadClass, de, DownloadEngineStage(k.payloadClass, k.callback, c.nextId + 2), c.nextId + 1)
      && started.effects == c.effects
  {
    WriteSucceeded(ctx, c);
    RemovalKeepsNoTakers(c.pipeline, RequestEncoder);
    var before := Without(c.pipeline, RequestEncoder);
    var written := c.(pipeline := before + [StreamStartStage(c.nextId)], nextId := c.nextId + 1);
    assert Handle(ctx, c, RequestWritten(Pass)) == (ctx, written);
    DownloadStages(ctx, written.continuation, written.nextId);
    StreamStarts(ctx, written, before, c.nextId, m);
  }
}
