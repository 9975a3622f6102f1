/** Serializer and deserializer identities. The library codecs (protobuf, Java
    serialization) and user codecs are not part of this model: what they do with bytes
    is a parameter, `Behaviour`. */
module Codecs {
  import opened Wrappers
  import opened JavaTypes
  import opened JavaLang
  import opened Envelopes

  /** `ProtoSerializer` and `SerializableSerializer` are singletons; any other
      serializer is a user codec known by an identity. */
  datatype Serializer = ProtoSerializer | SerializableSerializer | CustomSerializer(id: nat)

  /** A `ProtoDeserializer` is built per target class; `SerializableDeserializer` is a
      singleton. */
  datatype Deserializer =
    | ProtoDeserializer(target: JavaClass)
    | SerializableDeserializer
    | CustomDeserializer(id: nat)

  /** `DatumSerializer.serialize` and `DatumDeserializer.deserialize`, either of which
      may throw, and the protobuf encoding of the envelope, which the request encoder
      and the request decoder apply. */
  datatype Behaviour = Behaviour(
    serialize: (Serializer, Value) -> Result<seq<byte>, Throwable>,
    deserialize: (Deserializer, seq<byte>) -> Result<Value, Throwable>,
    serializeRequest: Envelope -> seq<byte>,
    deserializeRequest: seq<byte> -> Result<Envelope, Throwable>)

  /** The deserializer reads back what the serializer wrote for `v`. */
  ghost predicate ReadsBack(b: Behaviour, ser: Serializer, de: Deserializer, v: Value)
  {
    b.serialize(ser, v).Success? ==> b.deserialize(de, b.serialize(ser, v).value) == Success(v)
  }

  /** Protobuf reads back every envelope it wrote. */
  ghost predicate EnvelopesReadBack(b: Behaviour)
  {
    forall env :: b.deserializeRequest(b.serializeRequest(env)) == Success(env)
  }
}
