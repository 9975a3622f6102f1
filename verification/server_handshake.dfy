/** The server's side of a connection (`DatumServerHandler.channelRead0`/
    `exceptionCaught`, `AbstractRequestHandler`, `DownloadRequestHandler`,
    `UploadRequestHandler`): the envelope is routed, its body deserialized, the user
    handler invoked, the envelope stages removed, the stream-start sentinel written, and
    the typed stages appended once that write completes. */
module ServerHandshake {
  import opened Wrappers
  import opened JavaLang
  import opened Codecs
  import opened Envelopes
  import opened Callbacks
  import opened ChannelMetadata
  import opened Messages
  import opened ConnectionSettings
  import opened Routing
  import opened Pipeline
  import MessageEncoder

  /** What a connection does, in order. Notifications submitted to the executor are
      listed when they are submitted. */
  datatype Effect =
    | Closed                             // `context.close()`
    | Wrote(msg: Message)                // `channel.writeAndFlush(msg)`
    | Invoked(handler: nat, request: Value)  // the user handler's `handleRequest(request)`
    | Notify(call: Call)                 // a listener reached by `onComplete`/`onError`

  /** A connection: its pipeline, the next fresh stage identity, what it did, and the
      stages the stream-start write's listener will append. */
  datatype Conn = Conn(pipeline: seq<Stage>, nextId: nat, effects: seq<Effect>, pending: Option<seq<Stage>>)

  /** A new connection after `initChannel`; its fresh stages use `id` to `id + 2`. */
  function Open(settings: Settings, id: nat): (c: Conn)
    ensures c.nextId > id + 2 && c.effects == [] && c.pending == None
  {
    Conn(ServerInitialPipeline(settings, id), id + 3, [], None)
  }

  datatype Event =
    | RequestArrived(env: Envelope, user: Outcome<Throwable>)  // `user`: whether the user handler returns
    | StreamStartWritten(success: bool)                        // the stream-start write completes
    | ExceptionCaught(cause: Throwable)                        // an exception reaches the dispatch stage

  function Notifications(calls: seq<Call>): seq<Effect>
  {
    Submitted(calls, c => Notify(c))
  }

  /** The stages a request handler appends once stream start is written: for a download,
      a new payload encoder and then the upload engine given the handler's callback; for
      an upload, `inboundHandlers` around a new download engine. */
  function TypedStages(rh: RequestHandler, id: nat): seq<Stage>
  {
    match rh
    case DownloadRequestHandler(cls, _, _, ser, cb) =>
      [PayloadEncoder(MessageEncoder.Encoder(cls, ser), id), UploadEngineStage(cb, id + 1)]
    case UploadRequestHandler(cls, _, _, de, cb) =>
      InboundHandlers(cls, de, DownloadEngineStage(cls, cb, id + 1), id)
  }

  /** `AbstractRequestHandler.handleRequest` with `doRequest` and `prepareChannel`: the
      body is deserialized, the user handler called with the request, the request
      decoder and then the dispatch stage removed, and stream start written. The
      outcome is the throwable the `catch` receives, if any; a removal that fails leaves
      what was already removed removed. */
  function HandleRequest(b: Behaviour, c: Conn, rh: RequestHandler, env: Envelope, user: Outcome<Throwable>)
    : (r: (Conn, Outcome<Throwable>))
    ensures r.1.Fail? ==> r.0.pending == c.pending
  {
    match b.deserialize(rh.requestDeserializer, env.parameterBody)
    case Failure(t) => (c, Fail(t))
    case Success(request) =>
      var invoked := c.(effects := c.effects + [Invoked(rh.handler, request)]);
      if user.Fail? then (invoked, Fail(user.error))
      else
        match Remove(c.pipeline, RequestDecoder)
        case Failure(t) => (invoked, Fail(t))
        case Success(p1) =>
          match Remove(p1, ServerDispatch)
          case Failure(t) => (invoked.(pipeline := p1), Fail(t))
          case Success(p2) =>
            (Conn(p2, c.nextId + 2, invoked.effects + [Wrote(Meta(StreamStart))], Some(TypedStages(rh, c.nextId))), Pass)
  }

  /** `handleRequest` completes exactly when the body deserializes, the user handler
      returns and both envelope stages are there to remove; it then has removed both,
      written stream start last and left the typed stages pending. */
  lemma HandleRequestSucceedsIff(b: Behaviour, c: Conn, rh: RequestHandler, env: Envelope, user: Outcome<Throwable>)
    ensures var r := HandleRequest(b, c, rh, env, user);
      r.1.Pass? <==> && b.deserialize(rh.requestDeserializer, env.parameterBody).Success? && user.Pass?
                     && RequestDecoder in c.pipeline && ServerDispatch in c.pipeline
    ensures var r := HandleRequest(b, c, rh, env, user);
      r.1.Pass? ==> && r.0.pending.Some? && |r.0.pipeline| + 2 == |c.pipeline|
                    && |r.0.effects| == |c.effects| + 2 && r.0.effects[|c.effects| + 1] == Wrote(Meta(StreamStart))
  {
    if RequestDecoder in c.pipeline {
      RemoveKeepsOthers(c.pipeline, RequestDecoder, ServerDispatch);
    }
  }

  /** The dispatch stage's `channelRead0` once routing found `rh`: run the request
      handler, report a failure to the handler's callback, then schedule the server
      callback's `onComplete`. */
  function Dispatch(b: Behaviour, h: ServerHandler, c: Conn, rh: RequestHandler, env: Envelope, user: Outcome<Throwable>): Conn
  {
    var r := HandleRequest(b, c, rh, env, user);
    var reported :=
      if r.1.Fail? then Notifications(Deliver(rh.callback, Signal.Error(RequestHandlerFailure(r.1.error))))
      else [];
    r.0.(effects := r.0.effects + reported + Notifications(Deliver(h.callback, Complete)))
  }

  /** One event. An envelope whose key has no handler makes `handleRequest` throw, and
      the dispatch stage's `exceptionCaught` closes the connection and schedules the
      server callback's `onError`. Otherwise a failure inside the request handler goes
      to the handler's callback wrapped in `RequestHandlerException`, and in every case
      the server callback's `onComplete` is scheduled once dispatch returns. The
      stream-start listener appends the typed stages whether or not the write
      succeeded. */
  function Handle(b: Behaviour, h: ServerHandler, render: HandlerKey -> string, c: Conn, ev: Event): Conn
  {
    match ev
    case RequestArrived(env, user) =>
      if ServerDispatch !in c.pipeline then c
      else (
        match Route(h, env, render)
        case Failure(e) =>
          c.(effects := c.effects + [Closed] + Notifications(Deliver(h.callback, Signal.Error(e))))
        case Success(rh) => Dispatch(b, h, c, rh, env, user))
    case StreamStartWritten(_) =>
      if c.pending.Some? then c.(pipeline := c.pipeline + c.pending.value, pending := None) else c
    case ExceptionCaught(cause) =>
      if ServerDispatch in c.pipeline
      then c.(effects := c.effects + [Closed] + Notifications(Deliver(h.callback, Signal.Error(cause))))
      else c
  }

  // ---------------------------------------------------------------------------
  // Properties

  /** An envelope with no registered handler closes the connection and reports the
      routing error to the server callback only; no handler is invoked, nothing is
      written, the pipeline is untouched and `onComplete` is not scheduled. */
  lemma UnknownRequestCloses(b: Behaviour, h: ServerHandler, render: HandlerKey -> string, c: Conn, env: Envelope,
                             user: Outcome<Throwable>)
    requires ServerDispatch in c.pipeline
    requires KeyOf(env) !in h.handlers
    ensures var after := Handle(b, h, render, c, RequestArrived(env, user));
      && after.pipeline == c.pipeline && after.pending == c.pending
      && after.effects == c.effects + [Closed]
         + Notifications(Deliver(h.callback, Signal.Error(IllegalArgument(NoHandlerMessage(render(KeyOf(env)))))))
  {
  }

  /** A request body the handler's deserializer rejects, or a user handler that throws,
      is reported to the handler's callback wrapped in `RequestHandlerException`, and
      then the server callback's `onComplete` is scheduled; the connection is not
      closed, no stream start is written and the pipeline is untouched. */
  lemma HandlerFailureReported(b: Behaviour, h: ServerHandler, render: HandlerKey -> string, c: Conn, env: Envelope,
                               user: Outcome<Throwable>, t: Throwable)
    requires ServerDispatch in c.pipeline
    requires KeyOf(env) in h.handlers
    requires var rh := h.handlers[KeyOf(env)];
      var d := b.deserialize(rh.requestDeserializer, env.parameterBody);
      d == Failure(t) || (d.Success? && user == Fail(t))
    ensures var rh := h.handlers[KeyOf(env)];
      var d := b.deserialize(rh.requestDeserializer, env.parameterBody);
      var after := Handle(b, h, render, c, RequestArrived(env, user));
      && after.pipeline == c.pipeline && after.pending == c.pending
      && after.effects == c.effects + (if d.Failure? then [] else [Invoked(rh.handler, d.value)])
         + Notifications(Deliver(rh.callback, Signal.Error(RequestHandlerFailure(t))))
         + Notifications(Deliver(h.callback, Complete))
  {
  }

  /** A routed request whose body deserializes and whose user handler returns: the
      handler is invoked once with the deserialized request, the request decoder and the
      dispatch stage are gone, the only message written is the stream-start sentinel,
      the typed stages wait for the write to complete, and the server callback's
      `onComplete` is scheduled. */
  lemma DispatchPreparesChannel(b: Behaviour, h: ServerHandler, render: HandlerKey -> string, settings: Settings,
                                id: nat, env: Envelope)
    requires KeyOf(env) in h.handlers
    requires b.deserialize(h.handlers[KeyOf(env)].requestDeserializer, env.parameterBody).Success?
    ensures var rh := h.handlers[KeyOf(env)];
      var request := b.deserialize(rh.requestDeserializer, env.parameterBody).value;
      var after := Handle(b, h, render, Open(settings, id), RequestArrived(env, Pass));
      && after.pipeline == ServerPrepared(settings, id)
      && after.pending == Some(TypedStages(rh, id + 3))
      && after.effects == [Invoked(rh.handler, request), Wrote(Meta(StreamStart))]
                          + Notifications(Deliver(h.callback, Complete))
  {
    var c := Open(settings, id);
    InitialHasDispatch(settings, id);
    PrepareInitialPipeline(settings, id);
    PreparedDispatch(b, h, render, c, env);
  }

  /** A routed request that completes on any connection still holding both envelope
      stages. */
  lemma PreparedDispatch(b: Behaviour, h: ServerHandler, render: HandlerKey -> string, c: Conn, env: Envelope)
    requires ServerDispatch in c.pipeline && KeyOf(env) in h.handlers
    requires b.deserialize(h.handlers[KeyOf(env)].requestDeserializer, env.parameterBody).Success?
    requires Remove(c.pipeline, RequestDecoder).Success?
    requires Remove(Remove(c.pipeline, RequestDecoder).value, ServerDispatch).Success?
    ensures var rh := h.handlers[KeyOf(env)];
      var request := b.deserialize(rh.requestDeserializer, env.parameterBody).value;
      Handle(b, h, render, c, RequestArrived(env, Pass))
        == Conn(Remove(Remove(c.pipeline, RequestDecoder).value, ServerDispatch).value, c.nextId + 2,
                c.effects + [Invoked(rh.handler, request), Wrote(Meta(StreamStart))] + Notifications(Deliver(h.callback, Complete)),
                Some(TypedStages(rh, c.nextId)))
  {
    var rh := h.handlers[KeyOf(env)];
    var p1 := Remove(c.pipeline, RequestDecoder).value;
    HandleRequestPrepares(b, c, rh, env, p1, Remove(p1, ServerDispatch).value);
    RoutedRequest(b, h, render, c, env, Pass);
  }

  /** A routed envelope reaching the dispatch stage: the request handler runs and then
      the server callback's `onComplete` is scheduled. */
  lemma RoutedRequest(b: Behaviour, h: ServerHandler, render: HandlerKey -> string, c: Conn, env: Envelope,
                      user: Outcome<Throwable>)
    requires ServerDispatch in c.pipeline && KeyOf(env) in h.handlers
    ensures Handle(b, h, render, c, RequestArrived(env, user)) == Dispatch(b, h, c, h.handlers[KeyOf(env)], env, user)
  {
  }

  /** `handleRequest` when every step succeeds. */
  lemma HandleRequestPrepares(b: Behaviour, c: Conn, rh: RequestHandler, env: Envelope, p1: seq<Stage>, p2: seq<Stage>)
    requires b.deserialize(rh.requestDeserializer, env.parameterBody).Success?
    requires Remove(c.pipeline, RequestDecoder) == Success(p1)
    requires Remove(p1, ServerDispatch) == Success(p2)
    ensures var request := b.deserialize(rh.requestDeserializer, env.parameterBody).value;
      HandleRequest(b, c, rh, env, Pass)
        == (Conn(p2, c.nextId + 2, c.effects + [Invoked(rh.handler, request), Wrote(Meta(StreamStart))],
                 Some(TypedStages(rh, c.nextId))), Pass)
  {
    var request := b.deserialize(rh.requestDeserializer, env.parameterBody).value;
    assert c.effects + [Invoked(rh.handler, request)] + [Wrote(Meta(StreamStart))]
        == c.effects + [Invoked(rh.handler, request), Wrote(Meta(StreamStart))];
  }

  /** The typed stages are appended by the stream-start listener, and only then,
      whether the write succeeded or failed; a second completion appends nothing. */
  lemma StagesFollowStreamStart(b: Behaviour, h: ServerHandler, render: HandlerKey -> string, c: Conn, ok: bool)
    requires c.pending.Some?
    ensures var after := Handle(b, h, render, c, StreamStartWritten(ok));
      && after.pipeline == c.pipeline + c.pending.value
      && after.effects == c.effects
      && Handle(b, h, render, after, StreamStartWritten(ok)) == after
  {
  }

  /** Once dispatched, the connection takes no second request: the dispatch stage is
      gone, so a later envelope or exception does not reach it. */
  lemma OneRequestPerConnection(b: Behaviour, h: ServerHandler, render: HandlerKey -> string, settings: Settings,
                                id: nat, env: Envelope, later: Event)
    requires KeyOf(env) in h.handlers
    requires b.deserialize(h.handlers[KeyOf(env)].requestDeserializer, env.parameterBody).Success?
    requires later.RequestArrived? || later.ExceptionCaught?
    ensures var after := Handle(b, h, render, Open(settings, id), RequestArrived(env, Pass));
      Handle(b, h, render, after, later) == after
  {
    DispatchPreparesChannel(b, h, render, settings, id, env);
  }

  /** A download dispatched on a new connection ends, once stream start is written,
      with the prepared stages followed by a payload encoder bound to the handler's
      payload class and serializer, and the upload engine given the handler's
      callback. */
  lemma DownloadPipeline(b: Behaviour, h: ServerHandler, render: HandlerKey -> string, settings: Settings,
                         id: nat, env: Envelope, ok: bool)
    requires KeyOf(env) in h.handlers && h.handlers[KeyOf(env)].DownloadRequestHandler?
    requires b.deserialize(h.handlers[KeyOf(env)].requestDeserializer, env.parameterBody).Success?
    ensures var rh := h.handlers[KeyOf(env)];
      var dispatched := Handle(b, h, render, Open(settings, id), RequestArrived(env, Pass));
      Handle(b, h, render, dispatched, StreamStartWritten(ok)).pipeline
        == ServerPrepared(settings, id)
           + [PayloadEncoder(MessageEncoder.Encoder(rh.payloadClass, rh.payloadSerializer), id + 3),
              UploadEngineStage(rh.callback, id + 4)]
  {
    DispatchPreparesChannel(b, h, render, settings, id, env);
  }

  /** An upload dispatched on a new connection ends, once stream start is written,
      with the prepared stages followed by a payload decoder bound to the handler's
      payload class and deserializer, the download engine given the handler's
      callback, and the shared stream-end stage. */
  lemma UploadPipeline(b: Behaviour, h: ServerHandler, render: HandlerKey -> string, settings: Settings,
                       id: nat, env: Envelope, ok: bool)
    requires KeyOf(env) in h.handlers && h.handlers[KeyOf(env)].UploadRequestHandler?
    requires b.deserialize(h.handlers[KeyOf(env)].requestDeserializer, env.parameterBody).Success?
    ensures var rh := h.handlers[KeyOf(env)];
      var dispatched := Handle(b, h, render, Open(settings, id), RequestArrived(env, Pass));
      Handle(b, h, render, dispatched, StreamStartWritten(ok)).pipeline
        == ServerPrepared(settings, id)
           + [PayloadDecoder(rh.payloadClass, rh.payloadDeserializer, id + 3),
              DownloadEngineStage(rh.payloadClass, rh.callback, id + 4), StreamEndStage]
  {
    DispatchPreparesChannel(b, h, render, settings, id, env);
  }

  /** Before dispatch, an exception reaching the dispatch stage closes the connection
      and reports the cause to the server callback. */
  lemma ExceptionBeforeDispatch(b: Behaviour, h: ServerHandler, render: HandlerKey -> string, settings: Settings,
                                id: nat, cause: Throwable)
    ensures Handle(b, h, render, Open(settings, id), ExceptionCaught(cause)).effects
         == [Closed] + Notifications(Deliver(h.callback, Signal.Error(cause)))
  {
    InitialHasDispatch(settings, id);
  }
}
