/** `SerializationContext`: two independent class-to-codec tables, one per role, to
    which entries can be added but never replaced. A Java method that mutates the
    context and may throw becomes a function returning the context afterwards and
    the outcome; on a failure the context is returned as it was. */
module SerializationContext {
  import opened Wrappers
  import opened JavaLang
  import opened Codecs

  datatype Context = Context(
    serializers: map<JavaClass, Serializer>,
    deserializers: map<JavaClass, Deserializer>)

  const EMPTY: Context := Context(map[], map[])

  predicate IsRegisteredSerializer(ctx: Context, cls: JavaClass)
  {
    cls in ctx.serializers
  }

  predicate IsRegisteredDeserializer(ctx: Context, cls: JavaClass)
  {
    cls in ctx.deserializers
  }

  /** `getSerializer`: the registered serializer, or a failed argument check. */
  function GetSerializer(ctx: Context, cls: JavaClass): (r: Result<Serializer, Throwable>)
    ensures r.Success? <==> IsRegisteredSerializer(ctx, cls)
    ensures r.Failure? ==> r.error == IllegalArgument("no serializer found for " + Describe(cls))
  {
    if cls in ctx.serializers then Success(ctx.serializers[cls])
    else Failure(IllegalArgument("no serializer found for " + Describe(cls)))
  }

  /** `getDeserializer`: the registered deserializer, or a failed argument check. */
  function GetDeserializer(ctx: Context, cls: JavaClass): (r: Result<Deserializer, Throwable>)
    ensures r.Success? <==> IsRegisteredDeserializer(ctx, cls)
    ensures r.Failure? ==> r.error == IllegalArgument("no deserializer found for " + Describe(cls))
  {
    if cls in ctx.deserializers then Success(ctx.deserializers[cls])
    else Failure(IllegalArgument("no deserializer found for " + Describe(cls)))
  }

  /** `register(clazz, DatumSerializer)`. A second registration for the same class
      fails and changes nothing; a first one adds exactly that entry. */
  function RegisterSerializer(ctx: Context, cls: JavaClass, s: Serializer): (r: (Context, Outcome<Throwable>))
    ensures r.1.Fail? <==> IsRegisteredSerializer(ctx, cls)
    ensures r.1.Fail? ==> r.0 == ctx
    ensures r.1.Fail? ==> r.1.error == IllegalArgument("a serializer already exists for: " + Describe(cls))
    ensures r.1.Pass? ==> GetSerializer(r.0, cls) == Success(s)
    ensures forall c :: c != cls ==> GetSerializer(r.0, c) == GetSerializer(ctx, c)
    ensures r.0.deserializers == ctx.deserializers
  {
    if cls in ctx.serializers then
      (ctx, Fail(IllegalArgument("a serializer already exists for: " + Describe(cls))))
    else
      (ctx.(serializers := ctx.serializers[cls := s]), Pass)
  }

  /** `register(clazz, DatumDeserializer)`. Its duplicate message says "serializer",
      as the source's does. */
  function RegisterDeserializer(ctx: Context, cls: JavaClass, d: Deserializer): (r: (Context, Outcome<Throwable>))
    ensures r.1.Fail? <==> IsRegisteredDeserializer(ctx, cls)
    ensures r.1.Fail? ==> r.0 == ctx
    ensures r.1.Fail? ==> r.1.error == IllegalArgument("a serializer already exists for: " + Describe(cls))
    ensures r.1.Pass? ==> GetDeserializer(r.0, cls) == Success(d)
    ensures forall c :: c != cls ==> GetDeserializer(r.0, c) == GetDeserializer(ctx, c)
    ensures r.0.serializers == ctx.serializers
  {
    if cls in ctx.deserializers then
      (ctx, Fail(IllegalArgument("a serializer already exists for: " + Describe(cls))))
    else
      (ctx.(deserializers := ctx.deserializers[cls := d]), Pass)
  }

  /** The context only grows: whether a registration succeeds or fails, every entry
      present before it is still present with the same codec, in both roles. */
  ghost predicate Extends(after: Context, before: Context)
  {
    (forall c :: c in before.serializers ==> c in after.serializers && after.serializers[c] == before.serializers[c])
    && (forall c :: c in before.deserializers ==> c in after.deserializers && after.deserializers[c] == before.deserializers[c])
  }

  lemma RegistrationOnlyAdds(ctx: Context, cls: JavaClass, s: Serializer, d: Deserializer)
    ensures Extends(RegisterSerializer(ctx, cls, s).0, ctx)
    ensures Extends(RegisterDeserializer(ctx, cls, d).0, ctx)
  {
  }

  /** Registering the same class twice in one role: the first succeeds, the second
      fails and the first codec stays. */
  lemma SecondRegistrationRejected(ctx: Context, cls: JavaClass, s1: Serializer, s2: Serializer)
    requires !IsRegisteredSerializer(ctx, cls)
    ensures var (once, first) := RegisterSerializer(ctx, cls, s1);
      var (twice, second) := RegisterSerializer(once, cls, s2);
      first == Pass && second.Fail? && twice == once && GetSerializer(twice, cls) == Success(s1)
  {
  }

  /** A class can have a serializer and a deserializer at once: registering one role
      never makes the other's registration fail. */
  lemma RolesIndependent(ctx: Context, cls: JavaClass, s: Serializer, d: Deserializer)
    requires !IsRegisteredDeserializer(ctx, cls)
    ensures RegisterDeserializer(RegisterSerializer(ctx, cls, s).0, cls, d).1 == Pass
  {
  }
}
