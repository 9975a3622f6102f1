/** Routing of a request to its handler: the envelope the client builds
    (`DatumClientUtil`), the registrations the server collects and turns into request
    handlers (`DatumServerHandlerBuilder`), and the lookup the server performs on each
    envelope (`DatumServerHandler`). A handler is found by the request class's name,
    the payload class's name and the operation. */
module Routing {
  import opened Wrappers
  import opened JavaLang
  import opened Codecs
  import opened Envelopes
  import opened Callbacks
  import opened SerializationContext
  import opened SerializerProvider

  // ---------------------------------------------------------------------------
  // The client's envelope

  /** `buildDatumRequest`: the operation, the request's runtime class name, exactly
      the bytes the request serializer produced, and the payload class name. A
      serializer failure propagates and no envelope is built. */
  function BuildDatumRequest(b: Behaviour, request: Value, ser: Serializer, payloadClass: JavaClass, kind: RequestType)
    : (r: Result<Envelope, Throwable>)
    ensures r.Success? <==> b.serialize(ser, request).Success?
    ensures r.Failure? ==> r.error == b.serialize(ser, request).error
    ensures r.Success? ==>
      && r.value.kind == kind
      && r.value.parameterType == request.cls.name
      && r.value.parameterBody == b.serialize(ser, request).value
      && r.value.prototypeName == payloadClass.name
  {
    var body :- b.serialize(ser, request);
    Success(Envelope(kind, request.cls.name, body, payloadClass.name))
  }

  // ---------------------------------------------------------------------------
  // Keys

  /** `RequestHandlerKey`, compared by its three fields. */
  datatype HandlerKey = HandlerKey(parameterType: string, prototypeName: string, kind: RequestType)

  /** The key the server builds from an envelope. */
  function KeyOf(env: Envelope): HandlerKey
  {
    HandlerKey(env.parameterType, env.prototypeName, env.kind)
  }

  // ---------------------------------------------------------------------------
  // The builder

  /** A handler added to the builder: its request and payload classes (the type
      arguments of the user handler), the user handler, its callback and its tag. */
  datatype Registration = Registration(
    requestClass: JavaClass,
    payloadClass: JavaClass,
    handler: nat,
    callback: Callback,
    kind: RequestType)

  /** The server callback and the download and upload registrations, each list in
      insertion order. */
  datatype Builder = Builder(callback: Callback, downloads: seq<Registration>, uploads: seq<Registration>)

  function NewBuilder(callback: Callback): Builder
  {
    Builder(callback, [], [])
  }

  /** Every download registration carries the download tag and every upload
      registration the upload tag. */
  ghost predicate Tagged(bl: Builder)
  {
    && (forall i :: 0 <= i < |bl.downloads| ==> bl.downloads[i].kind == Download)
    && (forall i :: 0 <= i < |bl.uploads| ==> bl.uploads[i].kind == Upload)
  }

  /** `addDownloadHandler`: appended to the download list, tagged as a download. */
  function AddDownloadHandler(bl: Builder, requestClass: JavaClass, payloadClass: JavaClass, handler: nat, callback: Callback)
    : (r: Builder)
    ensures r.downloads == bl.downloads + [Registration(requestClass, payloadClass, handler, callback, Download)]
    ensures r.uploads == bl.uploads && r.callback == bl.callback
    ensures Tagged(bl) ==> Tagged(r)
  {
    bl.(downloads := bl.downloads + [Registration(requestClass, payloadClass, handler, callback, Download)])
  }

  /** `addUploadHandler`: appended to the upload list, tagged as an upload. */
  function AddUploadHandler(bl: Builder, requestClass: JavaClass, payloadClass: JavaClass, handler: nat, callback: Callback)
    : (r: Builder)
    ensures r.uploads == bl.uploads + [Registration(requestClass, payloadClass, handler, callback, Upload)]
    ensures r.downloads == bl.downloads && r.callback == bl.callback
    ensures Tagged(bl) ==> Tagged(r)
  {
    bl.(uploads := bl.uploads + [Registration(requestClass, payloadClass, handler, callback, Upload)])
  }

  /** `buildRequestHandlerKey`. */
  function BuilderKey(reg: Registration): HandlerKey
  {
    HandlerKey(reg.requestClass.name, reg.payloadClass.name, reg.kind)
  }

  /** The key a client envelope carries is the key the builder stored for a handler
      of the request's class, the payload class and the same operation. */
  lemma ClientKeyMatchesBuilderKey(b: Behaviour, request: Value, ser: Serializer, reg: Registration)
    requires BuildDatumRequest(b, request, ser, reg.payloadClass, reg.kind).Success?
    requires request.cls == reg.requestClass
    ensures KeyOf(BuildDatumRequest(b, request, ser, reg.payloadClass, reg.kind).value) == BuilderKey(reg)
  {
  }

  /** A download and an upload handler over the same classes never share a key. */
  lemma DirectionsNeverCollide(requestClass: JavaClass, payloadClass: JavaClass, h1: nat, h2: nat, c1: Callback, c2: Callback)
    ensures BuilderKey(Registration(requestClass, payloadClass, h1, c1, Download))
         != BuilderKey(Registration(requestClass, payloadClass, h2, c2, Upload))
  {
  }

  // ---------------------------------------------------------------------------
  // Request handlers

  /** `DownloadRequestHandler` and `UploadRequestHandler` as the builder constructs
      them. */
  datatype RequestHandler =
    | DownloadRequestHandler(payloadClass: JavaClass, handler: nat, requestDeserializer: Deserializer,
                             payloadSerializer: Serializer, callback: Callback)
    | UploadRequestHandler(payloadClass: JavaClass, handler: nat, requestDeserializer: Deserializer,
                           payloadDeserializer: Deserializer, callback: Callback)

  /** What a request handler keeps of its registration, leaving out the codecs. */
  datatype Summary = Summary(side: RequestType, payloadClass: JavaClass, handler: nat, callback: Callback)

  function Summarize(rh: RequestHandler): Summary
  {
    Summary(if rh.DownloadRequestHandler? then Download else Upload, rh.payloadClass, rh.handler, rh.callback)
  }

  function SummaryOf(reg: Registration, side: RequestType): Summary
  {
    Summary(side, reg.payloadClass, reg.handler, reg.callback)
  }

  /** The codecs a registration needs can all be resolved: a payload serializer and a
      request deserializer for a download, a payload deserializer and a request
      deserializer for an upload. */
  predicate Buildable(ctx: Context, reg: Registration, side: RequestType)
  {
    && (if side == Download then CanSerialize(ctx, reg.payloadClass) else CanDeserialize(ctx, reg.payloadClass))
    && CanDeserialize(ctx, reg.requestClass)
  }

  /** The context grows and can resolve the same classes as before. */
  ghost predicate SameReach(after: Context, before: Context)
  {
    && Extends(after, before)
    && (forall c :: CanSerialize(after, c) == CanSerialize(before, c))
    && (forall c :: CanDeserialize(after, c) == CanDeserialize(before, c))
  }

  lemma SameReachTransitive(a: Context, b: Context, c: Context)
    requires SameReach(b, a) && SameReach(c, b)
    ensures SameReach(c, a)
  {
  }

  lemma BuildableStable(after: Context, before: Context, reg: Registration, side: RequestType)
    requires SameReach(after, before)
    ensures Buildable(after, reg, side) == Buildable(before, reg, side)
  {
  }

  /** One iteration of a `forEach` in `build`: the payload codec first, then the
      request deserializer, both from the one provider; the first failure is thrown. */
  function BuildOne(ctx: Context, reg: Registration, side: RequestType): (r: (Context, Result<RequestHandler, Throwable>))
    ensures r.1.Failure? ==> r.1.error.SerializationRuntime?
    ensures r.1.Success? ==> Summarize(r.1.value) == SummaryOf(reg, side)
    ensures r.1.Success? ==> GetDeserializer(r.0, reg.requestClass) == Success(r.1.value.requestDeserializer)
    ensures r.1.Success? && side == Download ==> GetSerializer(r.0, reg.payloadClass) == Success(r.1.value.payloadSerializer)
    ensures r.1.Success? && side == Upload ==> GetDeserializer(r.0, reg.payloadClass) == Success(r.1.value.payloadDeserializer)
  {
    if side == Download then
      var (c1, ps) := ProvideSerializer(ctx, reg.payloadClass);
      if ps.Failure? then (c1, Failure(ps.error))
      else
        var (c2, rd) := ProvideDeserializer(c1, reg.requestClass);
        if rd.Failure? then (c2, Failure(rd.error))
        else (c2, Success(DownloadRequestHandler(reg.payloadClass, reg.handler, rd.value, ps.value, reg.callback)))
    else
      assert side == Upload;
      var (c1, pd) := ProvideDeserializer(ctx, reg.payloadClass);
      if pd.Failure? then (c1, Failure(pd.error))
      else
        var (c2, rd) := ProvideDeserializer(c1, reg.requestClass);
        if rd.Failure? then (c2, Failure(rd.error))
        else (c2, Success(UploadRequestHandler(reg.payloadClass, reg.handler, rd.value, pd.value, reg.callback)))
  }

  /** A registration builds exactly when its codecs can all be resolved. */
  lemma BuildOneSucceedsIff(ctx: Context, reg: Registration, side: RequestType)
    ensures BuildOne(ctx, reg, side).1.Success? <==> Buildable(ctx, reg, side)
  {
    ResolvabilityStable(ctx, reg.payloadClass);
    var c1 := if side == Download then ProvideSerializer(ctx, reg.payloadClass).0
              else ProvideDeserializer(ctx, reg.payloadClass).0;
    ResolvabilityStable(c1, reg.requestClass);
  }

  /** Building a registration only memoises: the context grows and resolves the same
      classes as before. */
  lemma BuildOneReach(ctx: Context, reg: Registration, side: RequestType)
    ensures SameReach(BuildOne(ctx, reg, side).0, ctx)
  {
    ResolvabilityStable(ctx, reg.payloadClass);
    var c1 := if side == Download then ProvideSerializer(ctx, reg.payloadClass).0
              else ProvideDeserializer(ctx, reg.payloadClass).0;
    ResolvabilityStable(c1, reg.requestClass);
    SameReachTransitive(ctx, c1, BuildOne(ctx, reg, side).0);
  }

  // ---------------------------------------------------------------------------
  // The server handler's table

  /** `DatumServerHandler`: the server callback and the handlers by key. */
  datatype ServerHandler = ServerHandler(callback: Callback, handlers: map<HandlerKey, RequestHandler>)

  /** `addRequestHandler`: a plain `put`, so a second handler under a key replaces the
      first without any error. */
  function AddRequestHandler(h: ServerHandler, key: HandlerKey, rh: RequestHandler): (r: ServerHandler)
    ensures key in r.handlers && r.handlers[key] == rh
    ensures r.handlers.Keys == h.handlers.Keys + {key}
    ensures forall k :: k in h.handlers && k != key ==> r.handlers[k] == h.handlers[k]
    ensures r.callback == h.callback
  {
    h.(handlers := h.handlers[key := rh])
  }

  /** The message `checkArgument` builds: the template has no `%s`, so the key's text
      is appended in brackets and the `{}` stays as written. */
  function NoHandlerMessage(keyText: string): string
  {
    "no request handler exists for {} [" + keyText + "]"
  }

  /** The lookup in `handleRequest`: the handler stored under the envelope's key, or
      an `IllegalArgumentException`. `render` stands for the key's `toString`. */
  function Route(h: ServerHandler, env: Envelope, render: HandlerKey -> string): (r: Result<RequestHandler, Throwable>)
    ensures r.Success? <==> KeyOf(env) in h.handlers
    ensures r.Success? ==> r.value == h.handlers[KeyOf(env)]
    ensures r.Failure? ==> r.error == IllegalArgument(NoHandlerMessage(render(KeyOf(env))))
  {
    if KeyOf(env) in h.handlers then Success(h.handlers[KeyOf(env)])
    else Failure(IllegalArgument(NoHandlerMessage(render(KeyOf(env)))))
  }

  /** Registering under a key and then routing an envelope with that key finds the
      handler just registered, whatever was stored under the key before. */
  lemma LastRegistrationWins(h: ServerHandler, env: Envelope, first: RequestHandler, second: RequestHandler, render: HandlerKey -> string)
    ensures Route(AddRequestHandler(AddRequestHandler(h, KeyOf(env), first), KeyOf(env), second), env, render)
         == Success(second)
  {
  }

  // ---------------------------------------------------------------------------
  // build

  function Summaries(t: map<HandlerKey, RequestHandler>): (m: map<HandlerKey, Summary>)
    ensures m.Keys == t.Keys
    ensures forall k :: k in t ==> m[k] == Summarize(t[k])
  {
    map k | k in t :: Summarize(t[k])
  }

  /** The reference for what `build` stores: registrations applied in order, each
      overwriting any earlier entry under its key. */
  function Apply(m: map<HandlerKey, Summary>, regs: seq<Registration>, side: RequestType): map<HandlerKey, Summary>
    decreases |regs|
  {
    if |regs| == 0 then m else Apply(m[BuilderKey(regs[0]) := SummaryOf(regs[0], side)], regs[1..], side)
  }

  lemma SummariesAfterAdd(h: ServerHandler, key: HandlerKey, rh: RequestHandler)
    ensures Summaries(AddRequestHandler(h, key, rh).handlers) == Summaries(h.handlers)[key := Summarize(rh)]
  {
    var l := Summaries(AddRequestHandler(h, key, rh).handlers);
    var r := Summaries(h.handlers)[key := Summarize(rh)];
    assert l.Keys == r.Keys;
    forall k | k in l
      ensures l[k] == r[k]
    {
    }
  }

  /** The `forEach` over one list of registrations: each is built and added in turn;
      the first codec failure aborts the rest. */
  function Install(ctx: Context, h: ServerHandler, regs: seq<Registration>, side: RequestType)
    : (r: (Context, Result<ServerHandler, Throwable>))
    ensures r.1.Failure? ==> r.1.error.SerializationRuntime?
    ensures r.1.Success? ==> r.1.value.callback == h.callback
    ensures r.1.Success? ==> Summaries(r.1.value.handlers) == Apply(Summaries(h.handlers), regs, side)
    decreases |regs|
  {
    if |regs| == 0 then (ctx, Success(h))
    else
      var (c1, built) := BuildOne(ctx, regs[0], side);
      if built.Failure? then (c1, Failure(built.error))
      else
        var next := AddRequestHandler(h, BuilderKey(regs[0]), built.value);
        SummariesAfterAdd(h, BuilderKey(regs[0]), built.value);
        Install(c1, next, regs[1..], side)
  }

  /** `build`: the downloads are installed first, then the uploads, all through one
      provider over the given context; any codec failure aborts the whole build, so
      it happens at startup and never while serving. */
  function Build(bl: Builder, ctx: Context): (r: (Context, Result<ServerHandler, Throwable>))
    ensures r.1.Failure? ==> r.1.error.SerializationRuntime?
    ensures r.1.Success? ==> r.1.value.callback == bl.callback
    ensures r.1.Success? ==>
      Summaries(r.1.value.handlers) == Apply(Apply(map[], bl.downloads, Download), bl.uploads, Upload)
  {
    var empty := ServerHandler(bl.callback, map[]);
    assert Summaries(empty.handlers) == map[];
    var (c1, withDownloads) := Install(ctx, empty, bl.downloads, Download);
    if withDownloads.Failure? then (c1, withDownloads)
    else Install(c1, withDownloads.value, bl.uploads, Upload)
  }

  /** A list of registrations installs exactly when every one of them can be built
      against the context it started from, since memoising never changes which
      classes resolve. */
  lemma {:induction false} InstallReach(ctx: Context, h: ServerHandler, regs: seq<Registration>, side: RequestType)
    ensures SameReach(Install(ctx, h, regs, side).0, ctx)
    decreases |regs|
  {
    if |regs| > 0 {
      BuildOneReach(ctx, regs[0], side);
      var (c1, built) := BuildOne(ctx, regs[0], side);
      if built.Success? {
        var next := AddRequestHandler(h, BuilderKey(regs[0]), built.value);
        InstallReach(c1, next, regs[1..], side);
        SameReachTransitive(ctx, c1, Install(c1, next, regs[1..], side).0);
      }
    }
  }

  lemma {:induction false} InstallSucceedsIff(ctx: Context, h: ServerHandler, regs: seq<Registration>, side: RequestType)
    ensures Install(ctx, h, regs, side).1.Success? <==> forall i :: 0 <= i < |regs| ==> Buildable(ctx, regs[i], side)
    decreases |regs|
  {
    if |regs| > 0 {
      BuildOneSucceedsIff(ctx, regs[0], side);
      BuildOneReach(ctx, regs[0], side);
      var (c1, built) := BuildOne(ctx, regs[0], side);
      if built.Success? {
        var next := AddRequestHandler(h, BuilderKey(regs[0]), built.value);
        var r := Install(c1, next, regs[1..], side);
        assert Install(ctx, h, regs, side) == r;
        InstallSucceedsIff(c1, next, regs[1..], side);
        forall i | 0 <= i < |regs| - 1
          ensures Buildable(c1, regs[1..][i], side) == Buildable(ctx, regs[i + 1], side)
        {
          BuildableStable(c1, ctx, regs[i + 1], side);
        }
        if r.1.Success? {
          forall i | 0 <= i < |regs|
            ensures Buildable(ctx, regs[i], side)
          {
            if i > 0 {
              assert Buildable(c1, regs[1..][i - 1], side);
            }
          }
        } else {
          var i :| 0 <= i < |regs| - 1 && !Buildable(c1, regs[1..][i], side);
          assert !Buildable(ctx, regs[i + 1], side);
        }
      }
    }
  }

  /** `build` succeeds exactly when every registration's codecs can be resolved
      against the starting context; it fails otherwise, before any request is
      served. */
  lemma BuildSucceedsIff(bl: Builder, ctx: Context)
    ensures var r := Build(bl, ctx);
      && (r.1.Success? <==>
          && (forall i :: 0 <= i < |bl.downloads| ==> Buildable(ctx, bl.downloads[i], Download))
          && (forall i :: 0 <= i < |bl.uploads| ==> Buildable(ctx, bl.uploads[i], Upload)))
      && SameReach(r.0, ctx)
  {
    var empty := ServerHandler(bl.callback, map[]);
    InstallSucceedsIff(ctx, empty, bl.downloads, Download);
    InstallReach(ctx, empty, bl.downloads, Download);
    var (c1, withDownloads) := Install(ctx, empty, bl.downloads, Download);
    if withDownloads.Success? {
      InstallSucceedsIff(c1, withDownloads.value, bl.uploads, Upload);
      InstallReach(c1, withDownloads.value, bl.uploads, Upload);
      SameReachTransitive(ctx, c1, Build(bl, ctx).0);
      forall i | 0 <= i < |bl.uploads|
        ensures Buildable(c1, bl.uploads[i], Upload) == Buildable(ctx, bl.uploads[i], Upload)
      {
        BuildableStable(c1, ctx, bl.uploads[i], Upload);
      }
    }
  }

  /** The entry under a registration's key is that registration's, unless a later
      registration has the same key; every registration's key is present. */
  lemma {:induction false} ApplyLastWins(m: map<HandlerKey, Summary>, regs: seq<Registration>, side: RequestType, i: nat)
    requires i < |regs|
    requires forall j :: i < j < |regs| ==> BuilderKey(regs[j]) != BuilderKey(regs[i])
    ensures BuilderKey(regs[i]) in Apply(m, regs, side)
    ensures Apply(m, regs, side)[BuilderKey(regs[i])] == SummaryOf(regs[i], side)
    decreases |regs|
  {
    var m1 := m[BuilderKey(regs[0]) := SummaryOf(regs[0], side)];
    if i == 0 {
      ApplyKeeps(m1, regs[1..], side, BuilderKey(regs[0]));
    } else {
      assert forall j :: i - 1 < j < |regs| - 1 ==> regs[1..][j] == regs[j + 1];
      ApplyLastWins(m1, regs[1..], side, i - 1);
    }
  }

  /** Registrations with other keys leave an entry alone. */
  lemma {:induction false} ApplyKeeps(m: map<HandlerKey, Summary>, regs: seq<Registration>, side: RequestType, key: HandlerKey)
    requires key in m
    requires forall j :: 0 <= j < |regs| ==> BuilderKey(regs[j]) != key
    ensures key in Apply(m, regs, side) && Apply(m, regs, side)[key] == m[key]
    decreases |regs|
  {
    if |regs| > 0 {
      assert forall j :: 0 <= j < |regs| - 1 ==> regs[1..][j] == regs[j + 1];
      ApplyKeeps(m[BuilderKey(regs[0]) := SummaryOf(regs[0], side)], regs[1..], side, key);
    }
  }

  /** The keys present after applying registrations are the keys before plus the
      registrations' keys. */
  lemma {:induction false} ApplyKeys(m: map<HandlerKey, Summary>, regs: seq<Registration>, side: RequestType)
    ensures Apply(m, regs, side).Keys == m.Keys + set j | 0 <= j < |regs| :: BuilderKey(regs[j])
    decreases |regs|
  {
    if |regs| > 0 {
      var m1 := m[BuilderKey(regs[0]) := SummaryOf(regs[0], side)];
      ApplyKeys(m1, regs[1..], side);
      var tail := set j | 0 <= j < |regs| - 1 :: BuilderKey(regs[1..][j]);
      var all := set j | 0 <= j < |regs| :: BuilderKey(regs[j]);
      assert all == {BuilderKey(regs[0])} + tail by {
        forall k | k in all ensures k in {BuilderKey(regs[0])} + tail {
          var j :| 0 <= j < |regs| && k == BuilderKey(regs[j]);
          if j > 0 {
            assert k == BuilderKey(regs[1..][j - 1]);
          }
        }
      }
    }
  }

  /** After a successful build of a tagged builder, the table holds exactly one entry
      per distinct registration key. A download registration is found under its key
      as a download handler built from it unless a later download registration has the
      same key; the same holds for uploads; a download and an upload over the same
      classes both stay reachable. */
  lemma BuildRegistersEveryHandler(bl: Builder, ctx: Context, i: nat, side: RequestType)
    requires Tagged(bl)
    requires Build(bl, ctx).1.Success?
    requires side == Download ==>
      i < |bl.downloads| && forall j :: i < j < |bl.downloads| ==> BuilderKey(bl.downloads[j]) != BuilderKey(bl.downloads[i])
    requires side == Upload ==>
      i < |bl.uploads| && forall j :: i < j < |bl.uploads| ==> BuilderKey(bl.uploads[j]) != BuilderKey(bl.uploads[i])
    ensures var regs := if side == Download then bl.downloads else bl.uploads;
      var t := Build(bl, ctx).1.value.handlers;
      && BuilderKey(regs[i]) in t
      && Summarize(t[BuilderKey(regs[i])]) == SummaryOf(regs[i], side)
  {
    var t := Build(bl, ctx).1.value.handlers;
    var afterDownloads := Apply(map[], bl.downloads, Download);
    if side == Download {
      ApplyLastWins(map[], bl.downloads, Download, i);
      ApplyKeeps(afterDownloads, bl.uploads, Upload, BuilderKey(bl.downloads[i]));
      assert Summaries(t)[BuilderKey(bl.downloads[i])] == SummaryOf(bl.downloads[i], Download);
    } else {
      ApplyLastWins(afterDownloads, bl.uploads, Upload, i);
      assert Summaries(t)[BuilderKey(bl.uploads[i])] == SummaryOf(bl.uploads[i], Upload);
    }
  }

  /** The routing round trip: a client request for a class, a payload class and an
      operation reaches a handler built from a registration with those classes and
      that operation, once the server is built from a tagged builder holding one. */
  lemma ClientReachesRegisteredHandler(b: Behaviour, request: Value, ser: Serializer, bl: Builder, ctx: Context,
                                       i: nat, side: RequestType, render: HandlerKey -> string)
    requires Tagged(bl)
    requires Build(bl, ctx).1.Success?
    requires side == Download ==>
      i < |bl.downloads| && forall j :: i < j < |bl.downloads| ==> BuilderKey(bl.downloads[j]) != BuilderKey(bl.downloads[i])
    requires side == Upload ==>
      i < |bl.uploads| && forall j :: i < j < |bl.uploads| ==> BuilderKey(bl.uploads[j]) != BuilderKey(bl.uploads[i])
    requires var reg := if side == Download then bl.downloads[i] else bl.uploads[i];
      request.cls == reg.requestClass && b.serialize(ser, request).Success?
    ensures var reg := if side == Download then bl.downloads[i] else bl.uploads[i];
      var env := BuildDatumRequest(b, request, ser, reg.payloadClass, side);
      && env.Success?
      && Route(Build(bl, ctx).1.value, env.value, render).Success?
      && Summarize(Route(Build(bl, ctx).1.value, env.value, render).value) == SummaryOf(reg, side)
  {
    var reg := if side == Download then bl.downloads[i] else bl.uploads[i];
    assert reg.kind == side;
    BuildRegistersEveryHandler(bl, ctx, i, side);
    ClientKeyMatchesBuilderKey(b, request, ser, reg);
  }
}
