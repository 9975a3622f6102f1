/** The objects that travel along a connection's pipeline. */
module Messages {
  import opened JavaTypes
  import opened JavaLang
  import opened ChannelMetadata
  import opened Envelopes

  /** A typed payload, a sentinel (`DatumMetadataMessage`), a byte buffer, or the
      envelope. */
  datatype Message =
    | Payload(value: Value)
    | Meta(metadata: Metadata)
    | Bytes(content: seq<byte>)
    | Request(envelope: Envelope)

  /** The type check a typed handler applies before it takes a message: a payload of
      exactly the bound class. */
  predicate IsInstance(cls: JavaClass, msg: Message)
  {
    msg.Payload? && msg.value.cls == cls
  }
}
