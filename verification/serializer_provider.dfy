/** `SerializerProvider`: codec resolution over a `SerializationContext`. A class with
    no registered codec is classified (protobuf message first, then
    `java.io.Serializable`) and the codec found is registered, so the next request for
    the same class is answered from the context. */
module SerializerProvider {
  import opened Wrappers
  import opened JavaLang
  import opened Codecs
  import opened SerializationContext

  /** `buildDatumSerializer`. */
  function BuildSerializer(cls: JavaClass): (r: Result<Serializer, Throwable>)
    ensures r.Success? <==> cls.isMessage || cls.isSerializable
    ensures cls.isMessage ==> r == Success(ProtoSerializer)
    ensures !cls.isMessage && cls.isSerializable ==> r == Success(SerializableSerializer)
    ensures r.Failure? ==> r.error == SerializationRuntime("Serializer not found for class " + Describe(cls))
  {
    if cls.isMessage then Success(ProtoSerializer)
    else if cls.isSerializable then Success(SerializableSerializer)
    else Failure(SerializationRuntime("Serializer not found for class " + Describe(cls)))
  }

  /** `buildDatumDeserializer`: a protobuf deserializer is made for the class itself. */
  function BuildDeserializer(cls: JavaClass): (r: Result<Deserializer, Throwable>)
    ensures r.Success? <==> cls.isMessage || cls.isSerializable
    ensures cls.isMessage ==> r == Success(ProtoDeserializer(cls))
    ensures !cls.isMessage && cls.isSerializable ==> r == Success(SerializableDeserializer)
    ensures r.Failure? ==> r.error == SerializationRuntime("Deserializer not found for class " + Describe(cls))
  {
    if cls.isMessage then Success(ProtoDeserializer(cls))
    else if cls.isSerializable then Success(SerializableDeserializer)
    else Failure(SerializationRuntime("Deserializer not found for class " + Describe(cls)))
  }

  /** `getSerializer`: the context afterwards and the serializer, or the exception. */
  function ProvideSerializer(ctx: Context, cls: JavaClass): (r: (Context, Result<Serializer, Throwable>))
    ensures IsRegisteredSerializer(ctx, cls) ==> r == (ctx, GetSerializer(ctx, cls))
    ensures !IsRegisteredSerializer(ctx, cls) ==> r.1 == BuildSerializer(cls)
    ensures r.1.Success? ==> GetSerializer(r.0, cls) == r.1
    ensures r.1.Failure? ==> r.0 == ctx
    ensures Extends(r.0, ctx) && r.0.deserializers == ctx.deserializers
    ensures forall c :: c != cls ==> GetSerializer(r.0, c) == GetSerializer(ctx, c)
  {
    if IsRegisteredSerializer(ctx, cls) then (ctx, GetSerializer(ctx, cls))
    else
      match BuildSerializer(cls)
      case Failure(e) => (ctx, Failure(e))
      case Success(s) => (RegisterSerializer(ctx, cls, s).0, Success(s))
  }

  /** `getDeserializer`, the mirror image in the deserializer table. */
  function ProvideDeserializer(ctx: Context, cls: JavaClass): (r: (Context, Result<Deserializer, Throwable>))
    ensures IsRegisteredDeserializer(ctx, cls) ==> r == (ctx, GetDeserializer(ctx, cls))
    ensures !IsRegisteredDeserializer(ctx, cls) ==> r.1 == BuildDeserializer(cls)
    ensures r.1.Success? ==> GetDeserializer(r.0, cls) == r.1
    ensures r.1.Failure? ==> r.0 == ctx
    ensures Extends(r.0, ctx) && r.0.serializers == ctx.serializers
    ensures forall c :: c != cls ==> GetDeserializer(r.0, c) == GetDeserializer(ctx, c)
  {
    if IsRegisteredDeserializer(ctx, cls) then (ctx, GetDeserializer(ctx, cls))
    else
      match BuildDeserializer(cls)
      case Failure(e) => (ctx, Failure(e))
      case Success(d) => (RegisterDeserializer(ctx, cls, d).0, Success(d))
  }

  /** Resolution is memoised: asking again returns the same serializer, raises no
      duplicate-registration error and leaves the context as the first call did. */
  lemma SerializerMemoised(ctx: Context, cls: JavaClass)
    requires ProvideSerializer(ctx, cls).1.Success?
    ensures var (once, first) := ProvideSerializer(ctx, cls);
      ProvideSerializer(once, cls) == (once, first)
  {
  }

  lemma DeserializerMemoised(ctx: Context, cls: JavaClass)
    requires ProvideDeserializer(ctx, cls).1.Success?
    ensures var (once, first) := ProvideDeserializer(ctx, cls);
      ProvideDeserializer(once, cls) == (once, first)
  {
  }

  /** An explicitly registered codec wins over classification, even for a class that
      classification would resolve differently. */
  lemma RegisteredCodecWins(ctx: Context, cls: JavaClass, s: Serializer)
    requires !IsRegisteredSerializer(ctx, cls)
    ensures ProvideSerializer(RegisterSerializer(ctx, cls, s).0, cls).1 == Success(s)
  {
  }

  /** Resolution succeeds from an empty context exactly for message-like or
      serializable classes, and then the class is registered for that role alone. */
  lemma ResolutionFromEmpty(cls: JavaClass)
    ensures ProvideSerializer(EMPTY, cls).1.Success? <==> cls.isMessage || cls.isSerializable
    ensures ProvideDeserializer(EMPTY, cls).1.Success? <==> cls.isMessage || cls.isSerializable
    ensures ProvideSerializer(EMPTY, cls).1.Success? ==>
      IsRegisteredSerializer(ProvideSerializer(EMPTY, cls).0, cls)
      && !IsRegisteredDeserializer(ProvideSerializer(EMPTY, cls).0, cls)
  {
  }

  /** A class the provider can give a serializer for: one is registered, or the class
      can be classified. */
  predicate CanSerialize(ctx: Context, cls: JavaClass)
  {
    IsRegisteredSerializer(ctx, cls) || cls.isMessage || cls.isSerializable
  }

  predicate CanDeserialize(ctx: Context, cls: JavaClass)
  {
    IsRegisteredDeserializer(ctx, cls) || cls.isMessage || cls.isSerializable
  }

  /** Resolution succeeds exactly for the classes the provider can handle, and
      memoising never changes which classes those are, in either role. */
  lemma ResolvabilityStable(ctx: Context, cls: JavaClass)
    ensures ProvideSerializer(ctx, cls).1.Success? <==> CanSerialize(ctx, cls)
    ensures ProvideDeserializer(ctx, cls).1.Success? <==> CanDeserialize(ctx, cls)
    ensures forall c :: CanSerialize(ProvideSerializer(ctx, cls).0, c) == CanSerialize(ctx, c)
    ensures forall c :: CanDeserialize(ProvideSerializer(ctx, cls).0, c) == CanDeserialize(ctx, c)
    ensures forall c :: CanSerialize(ProvideDeserializer(ctx, cls).0, c) == CanSerialize(ctx, c)
    ensures forall c :: CanDeserialize(ProvideDeserializer(ctx, cls).0, c) == CanDeserialize(ctx, c)
  {
  }
}
