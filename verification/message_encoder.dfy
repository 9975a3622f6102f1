/** `DatumMessageEncoder`: the outbound stage that turns each payload of its class into
    exactly the bytes its serializer produces. It holds nothing but its class and its
    serializer. */
module MessageEncoder {
  import opened Wrappers
  import opened JavaTypes
  import opened JavaLang
  import opened Codecs
  import opened ChannelMetadata
  import opened Messages
  import Framing
  import Cumulation

  datatype Encoder = Encoder(payloadClass: JavaClass, serializer: Serializer)

  /** One outbound message through the encoder: a message of another type goes on as
      it is; a payload of the bound class is replaced by one buffer holding the
      serializer's bytes, with no header; a serializer failure is rethrown inside an
      `EncoderException` and nothing goes on. */
  function Encode(b: Behaviour, enc: Encoder, msg: Message): (r: Result<Message, Throwable>)
    ensures !IsInstance(enc.payloadClass, msg) ==> r == Success(msg)
    ensures IsInstance(enc.payloadClass, msg) ==>
      (r.Success? <==> b.serialize(enc.serializer, msg.value).Success?)
    ensures IsInstance(enc.payloadClass, msg) && r.Success? ==>
      r.value == Bytes(b.serialize(enc.serializer, msg.value).value)
    ensures IsInstance(enc.payloadClass, msg) && r.Failure? ==>
      r.error == EncoderFailure(b.serialize(enc.serializer, msg.value).error)
  {
    if !IsInstance(enc.payloadClass, msg) then Success(msg)
    else
      match b.serialize(enc.serializer, msg.value)
      case Success(bytes) => Success(Bytes(bytes))
      case Failure(e) => Failure(EncoderFailure(e))
  }

  /** A payload crosses the wire: the encoder's bytes, once framed by the length
      prepender, are read back by the peer's frame decoder as one frame holding
      exactly those bytes, and a deserializer that reads back what the serializer
      wrote restores the payload. */
  lemma PayloadCrossesWire(b: Behaviour, enc: Encoder, de: Deserializer, v: Value, rest: seq<byte>)
    requires v.cls == enc.payloadClass
    requires b.serialize(enc.serializer, v).Success?
    requires ReadsBack(b, enc.serializer, de, v)
    requires |b.serialize(enc.serializer, v).value| < STREAM_END_CODE
    ensures var out := Encode(b, enc, Payload(v));
      && out.Success? && out.value.Bytes?
      && var body := out.value.content;
         Framing.DecodeOne(Framing.EncodeFrame(body) + rest)
           == Cumulation.Emit(Framing.Frame(body), |Framing.EncodeFrame(body)|)
         && b.deserialize(de, body) == Success(v)
  {
    var body := b.serialize(enc.serializer, v).value;
    Framing.FrameDecodes(body, rest);
  }

  /** The encoder leaves sentinels, buffers and envelopes alone, so a sentinel written
      after it reaches the sentinel encoder unchanged. */
  lemma OtherMessagesPass(b: Behaviour, enc: Encoder, msg: Message)
    requires !msg.Payload?
    ensures Encode(b, enc, msg) == Success(msg)
  {
  }
}
