/** `DatumRequestProto`: the envelope that opens every connection. It names the
    operation, the request's class, the request's serialized form and the payload
    class. */
module Envelopes {
  import opened JavaTypes

  /** `DatumRequestProto.RequestType`. */
  datatype RequestType = Download | Upload

  datatype Envelope = Envelope(
    kind: RequestType,
    parameterType: string,
    parameterBody: seq<byte>,
    prototypeName: string)
}
