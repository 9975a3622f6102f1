# Datum in Dafny

A model of the core of Datum, a one-request-per-connection streaming RPC library on top of Netty. A client opens a connection and writes one envelope naming a request. The server routes the envelope to a registered handler and answers with a stream-start sentinel. The two sides then stream typed payloads until one of them sends the stream-end sentinel or the channel goes away.

The model covers these parts:

- **The wire.**
  - Base 128 varints, as in the "Base 128 Varints" section of the Protocol Buffers encoding guide.
  - The two reserved sentinel codes.
  - The frame decoder, with partial-input tolerance and corruption errors.
  - Netty's cumulating decode loop.
  - The payload encoder.
- **The field codec.** `SerializationUtil` and `Nullables`.
- **Connection settings.** The settings record and its validation.
- **The codec registry.** `SerializationContext` and `SerializerProvider`.
- **Routing.**
  - The client's envelope.
  - The server's handler table and how it is built.
  - The lookup on each request.
- **The streaming engines.** Upload and download.
- **The combinators.** Suppliers, consumers and callbacks.
- **The handshake on both sides.** A connection's pipeline is a sequence of stages, with Netty's add-last, remove, inbound and outbound traversal.

External behaviour becomes a parameter:

- **Codecs.** Serializers and deserializers are identities. What they do is a `Behaviour` record of functions.
- **The charset.** A `Charset` record.
- **Supplier and consumer results.** Sequences of outcomes.
- **The channel's answers.** Writability, write completion and the bootstrap's result are events or inputs.
- **Callbacks.** Callback invocations are recorded as effects, in the order the channel's executor would run them.

Modules:

- `Wrappers`: `Option`, `Result`, `Outcome`.
- `JavaTypes`: bytes, `int` and `long`, big-endian.
- `JavaLang`: classes, values and throwables.
- `Varint`, `ChannelMetadata`, `Framing`, `Cumulation`.
- `Codecs`, `SerializationUtil`, `Nullables`, `ConnectionSettings`, `SerializationContext`, `SerializerProvider`.
- `Envelopes`, `Messages`, `MessageEncoder`, `Routing`.
- `Callbacks`, `Suppliers`, `Consumers`, `UploadEngine`, `DownloadEngine`.
- `Pipeline`, `ServerHandshake`, `ClientHandshake`.

The model follows the code as written, including these behaviours a reader may not expect:

- A handler registered twice under the same key replaces the earlier one.
- The client's stream-start stage fires on either sentinel.
- The download engine reports completion even after an error.
- The upload engine reports an error again after it has completed.
- A failed envelope write reaches the user's callback but does not close the channel.
- A request the server cannot deserialize is reported to the handler's callback. The server still signals completion, and the connection stays open.
- A corrupt length prefix is not fatal to the frame decoder. The decoder throws with the five prefix bytes consumed, and it decodes the bytes after them on the next read. Closing the connection is up to the stage that catches the exception.
- Three read failures surface as exceptions other than `RuntimeSerializationException`:
  - an empty byte array read as a `BigInteger`;
  - a negative list size;
  - a map that carries the same key twice with different values, which `Collectors.toMap` rejects with an `IllegalStateException`.
- An upload engine whose first run, from `handlerAdded`, throws is removed from the pipeline by Netty, which fires the exception from the pipeline's head. The engine's own `exceptionCaught` never runs: the supplier and the callback are not told, and the channel stays open.
- A `null` element of an iterator supplier makes that `get()` throw a `NullPointerException` from `Optional.of`. The iterator has already moved on, so the next call sees the next element.

## Model

| member | source | states |
|---|---|---|
| Varint.Encode | common/src/main/java/com/adobe/datum/common/channel/metadata/ChannelMetadata.java:61-67 | The raw varint32 is at least one byte. Every byte but the last has its high bit set, and the last has it clear. |
| Varint.ReadEncodedVarint | common/src/main/java/com/adobe/datum/common/handler/DatumFrameDecoder.java:50-52 | Reading back the varint of any non-negative `int` gives the value. |
| Varint.EncodeAtMostFive | common/src/main/java/com/adobe/datum/common/handler/DatumFrameDecoder.java:43-44 | The varint of any non-negative `int` fits in the five bytes the frame decoder scans. |
| Varint.NegativeNeedsFiveBytes | common/src/main/java/com/adobe/datum/common/handler/DatumFrameDecoder.java:52-53 | A varint of at most five bytes that reads as a negative `int` is exactly five bytes long. |
| JavaTypes.Int32RoundTrip | common/src/main/java/com/adobe/datum/common/io/SerializationUtil.java:59-61 | Reading back four bytes written by `writeInt` gives the `int`. |
| JavaTypes.Int64RoundTrip | common/src/main/java/com/adobe/datum/common/io/SerializationUtil.java:55-57 | Reading back eight bytes written by `writeLong` gives the `long`. |
| ChannelMetadata.FindByCode | common/src/main/java/com/adobe/datum/common/channel/metadata/ChannelMetadata.java:56-58 | The lookup finds a sentinel carrying the code if one exists, and otherwise none. |
| ChannelMetadata.FromMessageCode | common/src/main/java/com/adobe/datum/common/channel/metadata/ChannelMetadata.java:52-59 | A sentinel is found for exactly the two reserved codes, and it carries the code asked for. Every code below the stream-end code is rejected. |
| ChannelMetadata.CodeVarintIsFiveBytes | common/src/main/java/com/adobe/datum/common/channel/metadata/ChannelMetadata.java:36-37 | The varint of either sentinel code is five bytes. |
| ChannelMetadata.WriteMetadataMessage | common/src/main/java/com/adobe/datum/common/channel/metadata/ChannelMetadata.java:61-67 | Exactly five bytes are appended and the buffer before them is unchanged. They read back as the code, and they form one terminated varint. |
| ChannelMetadata.SentinelCodesDistinct | common/src/main/java/com/adobe/datum/common/channel/metadata/ChannelMetadata.java:36-37 | The start code is 2^31-1 and the end code is 2^31-2, so the two differ. |
| ChannelMetadata.FromMessageCodeOfCode | common/src/main/java/com/adobe/datum/common/channel/metadata/ChannelMetadata.java:52-59 | Looking up a sentinel's code gives that sentinel back. |
| Framing.ScanPrefix | common/src/main/java/com/adobe/datum/common/handler/DatumFrameDecoder.java:44-51 | The prefix scan stops at the first byte with the high bit clear. It runs out of input only before five bytes, and it reports a wide prefix only after five continuation bytes. |
| Framing.DecodeOne | common/src/main/java/com/adobe/datum/common/handler/DatumFrameDecoder.java:41-75 | One decode call that emits consumes between one byte and all of them. A frame's body is the last bytes consumed, and a sentinel consumes at most five. A call that throws has consumed the five prefix bytes it read, because neither throw resets the reader index. |
| Framing.AfterPrefix | common/src/main/java/com/adobe/datum/common/handler/DatumFrameDecoder.java:52-69 | After the prefix, a frame consumes the prefix plus exactly its body, which is the next bytes of input. A sentinel consumes the prefix alone. A negative length is thrown with the whole five-byte prefix consumed. |
| Framing.DecodeAfterPrefix | common/src/main/java/com/adobe/datum/common/handler/DatumFrameDecoder.java:50-52 | Once a prefix is complete, the bytes after it matter only as a frame body. |
| Framing.ShortPrefixNeedsMore | common/src/main/java/com/adobe/datum/common/handler/DatumFrameDecoder.java:44-48 | Input that ends before a terminating byte, within the first five, emits nothing. |
| Framing.FiveContinuationBytesCorrupt | common/src/main/java/com/adobe/datum/common/handler/DatumFrameDecoder.java:44-74 | Five continuation bytes raise the corrupted-frame error for a length wider than 32 bits. |
| Framing.NegativeLengthCorrupt | common/src/main/java/com/adobe/datum/common/handler/DatumFrameDecoder.java:52-55 | A prefix that is negative as an `int` raises the negative-length error, whatever follows it. |
| Framing.NegativeLengthExample | common/src/main/java/com/adobe/datum/common/handler/DatumFrameDecoder.java:52-55 | The five-byte varint of 2^31 reads as `INT_MIN` and is rejected as a negative length. |
| Framing.SentinelDecodes | common/src/main/java/com/adobe/datum/common/handler/DatumFrameDecoder.java:57-61 | A sentinel's varint emits that sentinel and consumes only its five bytes. No body is read. |
| Framing.WrittenSentinelDecodes | common/src/main/java/com/adobe/datum/common/channel/metadata/ChannelMetadata.java:61-67 | The bytes `writeMetadataMessage` appends decode to the same sentinel. |
| Framing.PartialFrameNeedsMore | common/src/main/java/com/adobe/datum/common/handler/DatumFrameDecoder.java:63-65 | An ordinary length with too few body bytes emits nothing and consumes nothing. |
| Framing.FrameDecodes | common/src/main/java/com/adobe/datum/common/handler/DatumFrameDecoder.java:66-68 | With the body complete, exactly that body is emitted as one frame, and prefix plus body are consumed. |
| Framing.SentinelLengthFrameMisread | common/src/main/java/com/adobe/datum/common/handler/DatumFrameDecoder.java:57-61 | A frame whose body length equals the stream-end code is read back as the stream-end sentinel. |
| Framing.DecodeOneStable | common/src/main/java/com/adobe/datum/common/handler/DatumFrameDecoder.java:41-75 | Whatever a decode call decided, it decides again once more bytes arrive, unless it was waiting for them. |
| Framing.DecodeOneWellBehaved | common/src/main/java/com/adobe/datum/common/handler/DatumFrameDecoder.java:41-75 | The decode step always consumes what it emits, and it never waits for bytes it does not need. |
| Framing.FramesIndependentOfChunking | common/src/main/java/com/adobe/datum/common/handler/DatumFrameDecoder.java:41-75 | However the bytes are split into reads, the decoder agrees with one read of all of them. Without corruption, no read throws, and the reads emit the same units and keep the same cumulation. With corruption, the first read that throws throws the same exception. The reads up to it emit the same units, and what it keeps followed by the later chunks is what the one read keeps. |
| Framing.FrameCorruptionResumes | common/src/main/java/com/adobe/datum/common/handler/DatumFrameDecoder.java:44-74 | A read that throws has consumed the five-byte prefix it rejected and keeps exactly the bytes after it. The next read decodes those bytes followed by its own chunk, so decoding resumes just past the rejected prefix. |
| Framing.CorruptionThenEmptyFrame | common/src/main/java/com/adobe/datum/common/handler/DatumFrameDecoder.java:44-74 | Five continuation bytes and `0x00` in one read, then `0x05` in the next: the first read throws the wider-than-32-bit error and keeps `0x00`. The second read emits the empty frame that `0x00` announces and keeps `0x05`. |
| Framing.UnitDecodes | common/src/main/java/com/adobe/datum/common/handler/DatumFrameDecoder.java:57-68 | Every encodable unit, sentinel or frame, decodes to itself, whatever follows it. |
| Framing.DecodeEncodedUnits | common/src/main/java/com/adobe/datum/common/handler/DatumFrameDecoder.java:41-75 | Decoding the encoding of a stream of units gives the units back and leaves nothing behind. |
| Framing.FrameWholeOrByteByByte | common/src/main/java/com/adobe/datum/common/handler/DatumFrameDecoder.java:41-75 | A body `b` of length `n` behind the varint of `n` is emitted exactly once, as `b`, and nothing is left behind. This holds in one read, and with one byte per read, where no read throws. |
| Framing.StreamByteByByte | common/src/main/java/com/adobe/datum/common/handler/DatumFrameDecoder.java:41-75 | A whole stream of units fed one byte per read decodes to those units, in order. No read throws and nothing is left in the cumulation. |
| Cumulation.Cumulate | common/src/main/java/com/adobe/datum/common/handler/DatumFrameDecoder.java:41-75 | What the decode loop leaves behind is a suffix of its input. The loop stops at the first step that throws, and the units emitted before it stay emitted. |
| Cumulation.CumulateEmit | common/src/main/java/com/adobe/datum/common/handler/DatumFrameDecoder.java:59-68 | A step that emits contributes its unit ahead of what the rest of the input yields. |
| Cumulation.CumulateSplit | common/src/main/java/com/adobe/datum/common/handler/DatumFrameDecoder.java:41-75 | When the loop on `a` ends without an exception, decoding `a ++ b` is decoding `a`, then decoding what `a` left behind followed by `b`. When it ends on an exception, decoding `a ++ b` throws the same exception after the same units and keeps what `a` kept followed by `b`. |
| Cumulation.CumulateRestSettled | common/src/main/java/com/adobe/datum/common/handler/DatumFrameDecoder.java:41-75 | What a loop that ended without an exception leaves behind decodes to nothing more on its own. |
| Cumulation.CorruptionLocated | common/src/main/java/com/adobe/datum/common/handler/DatumFrameDecoder.java:53-74 | A loop that throws stopped at one step: it started at some offset, read some bytes and threw the read's exception, and the cumulation keeps exactly the bytes after it. |
| Cumulation.Feed | common/src/main/java/com/adobe/datum/common/handler/DatumFrameDecoder.java:41-75 | A read keeps a suffix of the cumulation followed by the chunk. A read that throws nothing, starting from a cumulation that decodes to nothing more, leaves one that decodes to nothing more. |
| Cumulation.FeedAllFromSettled | common/src/main/java/com/adobe/datum/common/handler/DatumFrameDecoder.java:41-75 | From a cumulation that decodes to nothing more, a run of reads agrees with one read of the cumulation followed by all the chunks. Without an exception, no read throws, and the reads emit the same units and end with the same cumulation. With one, the first read that throws throws the same exception after the same units, and what it keeps followed by the later chunks is what the one read keeps. |
| Cumulation.CumulatePieces | common/src/main/java/com/adobe/datum/common/handler/DatumFrameDecoder.java:59-68 | Input made of pieces, each of which the step emits as one unit, decodes to exactly those units and leaves nothing behind. |
| Cumulation.ChunkingIrrelevant | common/src/main/java/com/adobe/datum/common/handler/DatumFrameDecoder.java:41-75 | For any step that consumes and is prefix-stable, a fresh decoder agrees with one read in that sense, however the input is split into reads and whether or not it throws. |
| Cumulation.ReadAfterCorruption | common/src/main/java/com/adobe/datum/common/handler/DatumFrameDecoder.java:53-74 | After a read that throws, the next read decodes the bytes after the failing step followed by its own chunk. Nothing of the failure carries over. |
| MessageEncoder.Encode | common/src/main/java/com/adobe/datum/common/handler/DatumMessageEncoder.java:35-48 | Other types pass untouched. A payload of the bound class becomes one buffer holding exactly the serializer's bytes. A serializer failure is rethrown wrapped, and nothing goes on. |
| MessageEncoder.PayloadCrossesWire | common/src/main/java/com/adobe/datum/common/handler/DatumMessageEncoder.java:44-48 | The encoder's bytes, once length-prefixed, are read back by the peer's frame decoder as one frame. A matching deserializer then restores the payload. |
| MessageEncoder.OtherMessagesPass | common/src/main/java/com/adobe/datum/common/handler/DatumMessageEncoder.java:35-41 | Sentinels, buffers and envelopes pass through the encoder unchanged. |
| SerializationUtil.WriteBoolean | common/src/main/java/com/adobe/datum/common/io/SerializationUtil.java:51-53 | A boolean is one byte, and null is written as false. |
| SerializationUtil.ReadBoolean | common/src/main/java/com/adobe/datum/common/io/SerializationUtil.java:129-131 | Reading fails exactly on empty input, and it consumes one byte. |
| SerializationUtil.WriteInteger | common/src/main/java/com/adobe/datum/common/io/SerializationUtil.java:59-61 | An `Integer` is four bytes, and null is written as 0. |
| SerializationUtil.ReadInteger | common/src/main/java/com/adobe/datum/common/io/SerializationUtil.java:137-139 | Reading fails exactly on fewer than four bytes, and it consumes four. |
| SerializationUtil.WriteLong | common/src/main/java/com/adobe/datum/common/io/SerializationUtil.java:55-57 | A `Long` is eight bytes, and null is written as 0. |
| SerializationUtil.ReadLong | common/src/main/java/com/adobe/datum/common/io/SerializationUtil.java:133-135 | Reading fails exactly on fewer than eight bytes, and it consumes eight. |
| SerializationUtil.BooleanRoundTrip | common/src/main/java/com/adobe/datum/common/io/SerializationUtil.java:121-131 | A written `Boolean` reads back as itself, or as false for null, and the rest of the input is untouched. |
| SerializationUtil.IntegerRoundTrip | common/src/main/java/com/adobe/datum/common/io/SerializationUtil.java:121-139 | A written `Integer` reads back as itself, or as 0 for null. |
| SerializationUtil.LongRoundTrip | common/src/main/java/com/adobe/datum/common/io/SerializationUtil.java:121-135 | A written `Long` reads back as itself, or as 0 for null. |
| SerializationUtil.WriteBytes | common/src/main/java/com/adobe/datum/common/io/SerializationUtil.java:81-86 | A byte array is its length as four bytes, then its bytes. Null is written as the empty array. |
| SerializationUtil.ReadBytes | common/src/main/java/com/adobe/datum/common/io/SerializationUtil.java:154-160 | A successful read consumes a four-byte length and then that many bytes. Every failure is wrapped. |
| SerializationUtil.BytesRoundTrip | common/src/main/java/com/adobe/datum/common/io/SerializationUtil.java:81-160 | A written array reads back as the same array, consuming exactly four bytes plus its length. A null array comes back empty. |
| SerializationUtil.TruncatedBytesFail | common/src/main/java/com/adobe/datum/common/io/SerializationUtil.java:154-160 | Any proper prefix of a written array fails to read with a wrapped end-of-input. |
| SerializationUtil.WriteString | common/src/main/java/com/adobe/datum/common/io/SerializationUtil.java:77-79 | A string is the length of its encoding as four bytes, then the encoded bytes. Null is written as "". |
| SerializationUtil.ReadString | common/src/main/java/com/adobe/datum/common/io/SerializationUtil.java:145-152 | Reading a string fails exactly when reading the byte array fails, and it consumes the same bytes. |
| SerializationUtil.StringRoundTrip | common/src/main/java/com/adobe/datum/common/io/SerializationUtil.java:77-152 | With a charset that decodes what it encodes, a written string whose encoding fits an array reads back as itself, or as "" for null. |
| SerializationUtil.Utf32IsFaithful | common/src/main/java/com/adobe/datum/common/io/SerializationUtil.java:77-79 | One charset, UTF-32BE, decodes every string it encodes, so the charset assumption of the string round trip can be met. |
| SerializationUtil.ToByteArray | common/src/main/java/com/adobe/datum/common/io/SerializationUtil.java:73-75 | `toByteArray` gives at least one byte, and its leading bit is the sign. |
| SerializationUtil.ByteArrayRoundTrip | common/src/main/java/com/adobe/datum/common/io/SerializationUtil.java:166-168 | The `BigInteger` built from `toByteArray` is the same number. |
| SerializationUtil.WriteBigInteger | common/src/main/java/com/adobe/datum/common/io/SerializationUtil.java:73-75 | A `BigInteger` is the length of its two's-complement bytes as four bytes, then those bytes. Null is written as 0. |
| SerializationUtil.ReadBigInteger | common/src/main/java/com/adobe/datum/common/io/SerializationUtil.java:166-168 | Reading fails exactly when the array read fails or is empty. An empty array raises the constructor's exception unwrapped. |
| SerializationUtil.BigIntegerRoundTrip | common/src/main/java/com/adobe/datum/common/io/SerializationUtil.java:73-168 | A written `BigInteger` reads back as itself, or as 0 for null. |
| SerializationUtil.EmptyBigIntegerUnwrapped | common/src/main/java/com/adobe/datum/common/io/SerializationUtil.java:166-168 | An empty array read as a `BigInteger` is not reported as a `RuntimeSerializationException`. |
| SerializationUtil.WriteBigDecimal | common/src/main/java/com/adobe/datum/common/io/SerializationUtil.java:67-71 | A `BigDecimal` is the length of the unscaled value's two's-complement bytes, those bytes, then the scale as an `int`. Null is zero. |
| SerializationUtil.BigDecimalRoundTrip | common/src/main/java/com/adobe/datum/common/io/SerializationUtil.java:162-164 | A written `BigDecimal` reads back as itself, unscaled value first and then scale, or as zero for null. |
| SerializationUtil.WriteOptional | common/src/main/java/com/adobe/datum/common/io/SerializationUtil.java:92-96 | An `Optional` is the presence flag, then the value only if present. A null `Optional` is written as empty. |
| SerializationUtil.OptionalRoundTrip | common/src/main/java/com/adobe/datum/common/io/SerializationUtil.java:170-176 | With an element reader that inverts the writer, a written `Optional` reads back as itself, or as empty for null. |
| SerializationUtil.WriteCollection | common/src/main/java/com/adobe/datum/common/io/SerializationUtil.java:102-106 | A collection is its size as an `int`, then every element in order. Null is written as empty. |
| SerializationUtil.ReadElements | common/src/main/java/com/adobe/datum/common/io/SerializationUtil.java:195-197 | A successful read yields exactly the requested number of elements. |
| SerializationUtil.ReadList | common/src/main/java/com/adobe/datum/common/io/SerializationUtil.java:192-199 | A list read fails with end-of-input when the size cannot be read. A negative size fails with the capacity exception. |
| SerializationUtil.ListRoundTrip | common/src/main/java/com/adobe/datum/common/io/SerializationUtil.java:192-199 | A written collection reads back as a list of the same elements in the same order. A null collection comes back empty. |
| SerializationUtil.NegativeListSizeUnwrapped | common/src/main/java/com/adobe/datum/common/io/SerializationUtil.java:193-194 | A size of -1 is not reported as a `RuntimeSerializationException`. |
| SerializationUtil.ReadSet | common/src/main/java/com/adobe/datum/common/io/SerializationUtil.java:184-186 | A set read holds exactly the elements of the list read. |
| SerializationUtil.SetRoundTrip | common/src/main/java/com/adobe/datum/common/io/SerializationUtil.java:184-186 | Every element of a written collection, and nothing else, is in the set read back. |
| SerializationUtil.ToMap | common/src/main/java/com/adobe/datum/common/io/SerializationUtil.java:178-182 | Collecting entries fails exactly when one key has two different values. Otherwise every key maps to its value and there are no other keys. |
| SerializationUtil.WriteMap | common/src/main/java/com/adobe/datum/common/io/SerializationUtil.java:112-119 | A map is its number of entries as four bytes, then each entry's key followed by its value, entry by entry. Null is written as empty. |
| SerializationUtil.EntriesAreKeysAndValues | common/src/main/java/com/adobe/datum/common/io/SerializationUtil.java:112-119 | Writing the entries as a collection of pairs is writing each key and then its value, in entry order. |
| SerializationUtil.MapRoundTrip | common/src/main/java/com/adobe/datum/common/io/SerializationUtil.java:178-182 | A written map with distinct keys is rebuilt with the same keys, each mapped to its value. A null map comes back empty. |
| Nullables.GetOrDefaultFrom | common/src/main/java/com/adobe/datum/common/util/Nullables.java:35-37 | A non-null item is returned without running the supplier. For null, the supplier runs once and its value is returned. |
| Nullables.GetOrDefaultIsGetOr | common/src/main/java/com/adobe/datum/common/util/Nullables.java:39-42 | Null gives the default, and anything else is returned unchanged. |
| Nullables.GetOrEmpty | common/src/main/java/com/adobe/datum/common/util/Nullables.java:44-47 | A null string becomes "", and any other string is returned unchanged. |
| Nullables.IfNonNull | common/src/main/java/com/adobe/datum/common/util/Nullables.java:49-55 | A null item gives false and calls nothing. A non-null item goes to the consumer exactly once. The result is true exactly when the consumer returns, and the consumer's exception propagates otherwise. |
| Nullables.IfNonNullThen | common/src/main/java/com/adobe/datum/common/util/Nullables.java:57-59 | For null, neither function is called and the result is false. A transformer exception propagates and the consumer is not called. When the transformer gives null, the result is false and the consumer is not called. The result is true exactly when both steps see non-null values and the consumer returns. |
| Nullables.IfNonNullThenConsumesOnce | common/src/main/java/com/adobe/datum/common/util/Nullables.java:57-59 | The consumer runs at most once, exactly when the transformer returned a non-null value, and with that value. The result is then true exactly when the consumer returns. |
| ConnectionSettings.Default | common/src/main/java/com/adobe/datum/common/channel/ConnectionSettings.java:42-72 | The host comes from `datum.host`, falling back to `127.0.0.1`. The port is `datum.port`, or `"8643"` when unset, parsed as an `int`; when it does not parse, construction fails with the `NumberFormatException` for that string. Otherwise the other fields are the defaults: connect timeout 10000, watermarks 16384 and 65536, both bandwidths 1048576, check interval 5000, wait delay 5000. |
| ConnectionSettings.ParseInt | common/src/main/java/com/adobe/datum/common/channel/ConnectionSettings.java:43 | `Integer.parseInt` fails with "For input string" and the string whenever a character after the first is not a digit, or the first is neither a digit nor a sign. It succeeds only on strings ending in a digit. |
| ConnectionSettings.ParsePrinted | common/src/main/java/com/adobe/datum/common/channel/ConnectionSettings.java:43 | Every `int`, written in decimal with a minus sign when negative, parses back to itself. |
| ConnectionSettings.DefaultPortParses | common/src/main/java/com/adobe/datum/common/channel/ConnectionSettings.java:43 | The fallback port string `"8643"` parses to 8643. |
| ConnectionSettings.TrailingSpacePortFails | common/src/main/java/com/adobe/datum/common/channel/ConnectionSettings.java:43 | A port property of `"8643 "` does not parse. |
| ConnectionSettings.DefaultWithoutPortProperty | common/src/main/java/com/adobe/datum/common/channel/ConnectionSettings.java:42-72 | Without a `datum.port` property the default settings are built, with port 8643. |
| ConnectionSettings.Validate | common/src/main/java/com/adobe/datum/common/channel/ChannelUtil.java:63-66 | Validation passes exactly when the connect timeout strictly exceeds the bandwidth wait delay. |
| ConnectionSettings.DefaultsAreValid | common/src/main/java/com/adobe/datum/common/channel/ConnectionSettings.java:44-50 | Whenever the defaults are built, the low watermark is below the high one, and they pass validation. |
| ConnectionSettings.EqualTimeoutRejected | common/src/main/java/com/adobe/datum/common/channel/ChannelUtil.java:64 | An equal timeout and delay are rejected. |
| ConnectionSettings.ValidateIgnoresOtherFields | common/src/main/java/com/adobe/datum/common/channel/ChannelUtil.java:63-66 | Two settings that agree on the timeout and the delay validate alike. |
| ConnectionSettings.Serialize | common/src/main/java/com/adobe/datum/common/channel/ConnectionSettings.java:79-90 | The host is written as a string, followed by eight ints. |
| ConnectionSettings.SettingsRoundTrip | common/src/main/java/com/adobe/datum/common/channel/ConnectionSettings.java:92-104 | With a charset that decodes what it encodes, reading back what `serialize` wrote restores every field, in the same order, when the host's encoding fits an array. A null host comes back as "". |
| SerializationContext.GetSerializer | common/src/main/java/com/adobe/datum/common/serialize/SerializationContext.java:52-56 | The lookup succeeds exactly for a registered class. Otherwise it fails with "no serializer found for" and the class. |
| SerializationContext.GetDeserializer | common/src/main/java/com/adobe/datum/common/serialize/SerializationContext.java:58-62 | The same lookup in the deserializer table, with its own message. |
| SerializationContext.RegisterSerializer | common/src/main/java/com/adobe/datum/common/serialize/SerializationContext.java:38-43 | A second registration fails with "a serializer already exists for" and changes nothing. A first one makes the lookup return the codec and leaves every other class and the deserializer table alone. |
| SerializationContext.RegisterDeserializer | common/src/main/java/com/adobe/datum/common/serialize/SerializationContext.java:45-50 | The mirror image in the deserializer table. Its duplicate message also says "serializer". |
| SerializationContext.RegistrationOnlyAdds | common/src/main/java/com/adobe/datum/common/serialize/SerializationContext.java:38-50 | A registration never removes or changes an existing entry. |
| SerializationContext.SecondRegistrationRejected | common/src/main/java/com/adobe/datum/common/serialize/SerializationContext.java:38-43 | Registering a class twice: the first succeeds, the second fails, and the first codec stays. |
| SerializationContext.RolesIndependent | common/src/main/java/com/adobe/datum/common/serialize/SerializationContext.java:35-50 | Registering a serializer never makes the same class's deserializer registration fail. |
| SerializerProvider.BuildSerializer | common/src/main/java/com/adobe/datum/common/serialize/SerializerProvider.java:58-67 | A protobuf message class gets the protobuf serializer, and this takes precedence. Otherwise a serializable class gets the Java serializer. Any other class fails with an error naming it. |
| SerializerProvider.BuildDeserializer | common/src/main/java/com/adobe/datum/common/serialize/SerializerProvider.java:69-78 | The same classification, with a protobuf deserializer made for the class itself. |
| SerializerProvider.ProvideSerializer | common/src/main/java/com/adobe/datum/common/serialize/SerializerProvider.java:40-47 | A registered serializer is returned and the context is unchanged. Otherwise the classified one is registered and returned. A failure leaves the context unchanged, and nothing but this class's serializer entry changes. |
| SerializerProvider.ProvideDeserializer | common/src/main/java/com/adobe/datum/common/serialize/SerializerProvider.java:49-56 | The mirror image in the deserializer table. |
| SerializerProvider.SerializerMemoised | common/src/main/java/com/adobe/datum/common/serialize/SerializerProvider.java:40-47 | Asking again returns the same serializer, raises no duplicate error and leaves the context unchanged. |
| SerializerProvider.DeserializerMemoised | common/src/main/java/com/adobe/datum/common/serialize/SerializerProvider.java:49-56 | Asking again returns the same deserializer and leaves the context unchanged. |
| SerializerProvider.RegisteredCodecWins | common/src/main/java/com/adobe/datum/common/serialize/SerializerProvider.java:41-43 | An explicitly registered serializer is returned, without classification. |
| SerializerProvider.ResolutionFromEmpty | common/src/main/java/com/adobe/datum/common/serialize/SerializerProvider.java:40-78 | From an empty context, resolution succeeds exactly for message-like or serializable classes. It then registers the class for that role alone. |
| SerializerProvider.ResolvabilityStable | common/src/main/java/com/adobe/datum/common/serialize/SerializerProvider.java:40-56 | Resolution succeeds exactly for the classes the provider can handle. Memoising never changes which classes those are, in either role. |
| Callbacks.Deliver | common/src/main/java/com/adobe/datum/common/function/DatumCallbackUtil.java:42-52 | One `onComplete` or `onError(cause)` reaches every listener of the callback once, in order, with the same signal. |
| Callbacks.DeliverOrThrow | common/src/main/java/com/adobe/datum/common/function/DatumCallbackUtil.java:42-52 | The calls made are a prefix of the full delivery. When a listener throws, it made the last call and its exception propagates, and every earlier listener returned. Without a throw every listener is called. |
| Callbacks.DeliverOrThrowStopsAtFirst | common/src/main/java/com/adobe/datum/common/function/DatumCallbackUtil.java:42-52 | Delivery throws nothing exactly when no listener throws. Otherwise the calls stop at the first listener that throws, and that listener's exception propagates. |
| Callbacks.MergeCallsFirstThenSecond | common/src/main/java/com/adobe/datum/common/function/DatumCallbackUtil.java:42-52 | The merged callback calls the first callback and then the second, with the same cause for both. If the first throws, the second is not called and the exception propagates. Otherwise the second's calls follow, and its exception, if any, propagates. |
| Callbacks.DeliverOrThrowIsStopAtFirst | common/src/main/java/com/adobe/datum/common/function/DatumCallbackUtil.java:42-52 | What a callback whose listeners may throw does is its plain delivery, stopped at the first listener that throws. It depends only on the calls, in order. |
| Callbacks.SameListenersSameCalls | common/src/main/java/com/adobe/datum/common/function/DatumCallbackUtil.java:33-41 | The merged callback keeps no state. Two callbacks that reach the same listeners in the same order make the same calls, and throw the same exception. |
| Callbacks.MergeAssociative | common/src/main/java/com/adobe/datum/common/function/DatumCallbackUtil.java:29-52 | Nested merges make the same calls, and throw the same exception, whatever their grouping. |
| Callbacks.MergeNoOp | common/src/main/java/com/adobe/datum/common/function/DatumCallbackUtil.java:29-52 | Merging with a do-nothing callback, on either side, changes no call and no exception. |
| Suppliers.From | common/src/main/java/com/adobe/datum/common/function/DatumSupplierUtil.java:159-171 | An iterator supplier gives the elements in order as present values, then empty forever. A `null` element makes its call throw a message-less `NullPointerException`, and the following call sees the following element. It keeps the do-nothing callback. |
| Suppliers.OfFactories | common/src/main/java/com/adobe/datum/common/function/DatumSupplier.java:50-64 | `of(Optional.empty())` is empty on every call. `of(item)` gives the item once and then empty forever. `of(null)` throws `NullPointerException` on the first call and is empty afterwards. `of(Optional.of(x))` behaves as `of(x)`. |
| Suppliers.Transform | common/src/main/java/com/adobe/datum/common/function/DatumSupplierUtil.java:41-44 | A null transformer is rejected with "transformer cannot be null". Otherwise the callback is forwarded to the delegate. |
| Suppliers.TransformPointwise | common/src/main/java/com/adobe/datum/common/function/DatumSupplierUtil.java:107-110 | Each transformed call makes exactly one delegate call. A delegate value goes to the function, and the function's result or exception is the call's. A delegate exception passes through without calling the function. |
| Suppliers.TransformComposes | common/src/main/java/com/adobe/datum/common/function/DatumSupplier.java:42-44 | Transforming twice is transforming once by the composition. An exception from either function propagates. |
| Suppliers.Limit | common/src/main/java/com/adobe/datum/common/function/DatumSupplierUtil.java:149-156 | The first `n` calls go to the delegate. Every later call returns empty without calling it. The callback is forwarded. |
| Suppliers.LimitOfFrom | common/src/main/java/com/adobe/datum/common/function/DatumSupplierUtil.java:51-53 | Limiting an iterator supplier truncates it to `n` elements. A limit at least as long as the iterator changes nothing. |
| Suppliers.Filter | common/src/main/java/com/adobe/datum/common/function/DatumSupplierUtil.java:46-49 | A null predicate is rejected with "predicate cannot be null". Otherwise the filtered supplier wraps exactly the given delegate. |
| Suppliers.Examine | common/src/main/java/com/adobe/datum/common/function/DatumSupplierUtil.java:126-129 | One delegate result under the predicate: a delegate exception or a predicate exception ends the call with that exception, an accepted value is returned, and a rejected value asks the delegate again. |
| Suppliers.FilteredCallback | common/src/main/java/com/adobe/datum/common/function/DatumSupplierUtil.java:85-93 | A filtered supplier forwards `onComplete` and `onError` to its delegate unchanged. |
| Suppliers.FilteredGet | common/src/main/java/com/adobe/datum/common/function/DatumSupplierUtil.java:124-131 | A filtered call returns the first delegate value the predicate accepts, or the first exception from the delegate or the predicate. Every rejected value before it is consumed, in order. |
| Suppliers.JavaGet | common/src/main/java/com/adobe/datum/common/function/DatumSupplierUtil.java:67-74 | The Java supplier returns the delegate's value. It wraps an `Exception` as "unable to retrieve item" and lets an `Error` through. |
| Consumers.Transform | common/src/main/java/com/adobe/datum/common/function/DatumConsumer.java:44-47 | A null transformer is rejected with "transformer cannot be null". The transformed consumer defines only `accept`, so its callback does nothing. |
| Consumers.TransformedConsumer | common/src/main/java/com/adobe/datum/common/function/DatumConsumer.java:44-47 | The transformed consumer accepts `x` exactly as the original accepts `f(x)`. When `f` throws, the original is not called and the exception propagates. Completion and errors never reach the original. |
| Consumers.JavaAccept | common/src/main/java/com/adobe/datum/common/function/DatumConsumer.java:34-42 | The Java consumer returns when `accept` returns. It wraps an `Exception` as "unable to accept item" followed by the item, and lets an `Error` through. |
| UploadEngine.GetItem | common/src/main/java/com/adobe/datum/common/handler/DatumChannelUploadHandler.java:110-120 | One pull makes between one and `skipCount + 1` supplier calls, all but the last of which threw. It returns the last call's item, or an `IllegalStateException` caused by the last failure once the skips are used up. |
| UploadEngine.SkipBudget | common/src/main/java/com/adobe/datum/common/handler/DatumChannelUploadHandler.java:45-120 | A pull fails exactly when six consecutive supplier calls throw. |
| UploadEngine.Pump | common/src/main/java/com/adobe/datum/common/handler/DatumChannelUploadHandler.java:76-90 | Every run of the writing loop makes at least one supplier call. |
| UploadEngine.PumpUnfold | common/src/main/java/com/adobe/datum/common/handler/DatumChannelUploadHandler.java:76-90 | A proof helper that restates one step of `Pump`, case by case: a failed pull raises its exception, an empty pull sends the stream-end sentinel, an item pulled while the channel is not writable is written and flushed and the loop pauses, and an item pulled while it is writable is written and the loop goes on. The properties are in `PumpStreamEnds`, `PumpWriteCount`, `PumpWritesPulledItems` and `EngineInvariant`. |
| UploadEngine.PumpStreamEnds | common/src/main/java/com/adobe/datum/common/handler/DatumChannelUploadHandler.java:82-89 | A run sends the stream-end sentinel exactly when it ends because the supplier is exhausted. |
| UploadEngine.PumpWriteCount | common/src/main/java/com/adobe/datum/common/handler/DatumChannelUploadHandler.java:78-85 | `writeCount` grows by exactly the number of items a run writes. |
| UploadEngine.PumpWritesPulledItems | common/src/main/java/com/adobe/datum/common/handler/DatumChannelUploadHandler.java:78-85 | Every present item pulled during a run is written exactly once, in supplier order. This includes the item pulled when the channel turned non-writable. |
| UploadEngine.StartWriting | common/src/main/java/com/adobe/datum/common/handler/DatumChannelUploadHandler.java:76-90 | The imperative loop computes exactly what the recursive definition of a run does. |
| UploadEngine.EngineInvariant | common/src/main/java/com/adobe/datum/common/handler/DatumChannelUploadHandler.java:64-108 | Over any events after the handler is added, at most one stream-end sentinel is sent, and exactly one once the stream is complete. `writeCount` is the number of items written, and every present item supplied is written exactly once, in order. |
| UploadEngine.CompleteIgnoresWritability | common/src/main/java/com/adobe/datum/common/handler/DatumChannelUploadHandler.java:69-74 | Restates the `writeComplete` guard of the writability step: once the stream is complete, writability events do nothing. `EngineInvariant` carries the consequence that no second sentinel is ever sent. |
| UploadEngine.FailedAddDetaches | common/src/main/java/com/adobe/datum/common/handler/DatumChannelUploadHandler.java:64-67 | The engine stays in the pipeline exactly when the first run, from `handlerAdded`, does not throw. A detached engine ignores every later event, so no close and no report ever follows the failure. |
| UploadEngine.FailingSupplierDetaches | common/src/main/java/com/adobe/datum/common/handler/DatumChannelUploadHandler.java:64-127 | Six failing supplier calls at the start detach the engine, and its only effect is the skip-budget `IllegalStateException`. |
| UploadEngine.ReportOrder | common/src/main/java/com/adobe/datum/common/handler/DatumChannelUploadHandler.java:97-137 | Restates the reporting steps of `Handle` for an engine still in the pipeline: a successful sentinel write reports completion to the supplier and then the callback, a failed one reports its cause in the same order, and an exception closes first and is still reported after completion. |
| DownloadEngine.HandleViews | common/src/main/java/com/adobe/datum/common/handler/DatumChannelDownloadHandler.java:56-85 | One event adds to the accepted items and the forwarded messages exactly what the reference definitions say. The read count grows by the number of items accepted. |
| DownloadEngine.DownloadInvariant | common/src/main/java/com/adobe/datum/common/handler/DatumChannelDownloadHandler.java:44-60 | Over any run of events, the consumer accepts exactly the payloads of the bound class whose `accept` returns, in arrival order. `readCount` is their number, and every other message is passed on in order. |
| DownloadEngine.TerminalReports | common/src/main/java/com/adobe/datum/common/handler/DatumChannelDownloadHandler.java:62-85 | Restates the two terminal steps of `Handle`: unregistration closes and reports completion to the consumer, then the callback, and an exception closes and reports its cause in the same order. Neither changes the read count. `DownloadInvariant` carries the accepted items across them. |
| DownloadEngine.ErrorThenCompletion | common/src/main/java/com/adobe/datum/common/handler/DatumChannelDownloadHandler.java:62-75 | With no terminal flag, an exception followed by unregistration reports both `onError` and `onComplete`. |
| Routing.BuildDatumRequest | client/src/main/java/com/adobe/datum/client/DatumClientUtil.java:35-53 | The envelope carries the requested operation, the request's runtime class name, exactly the serializer's bytes, and the payload class name. It is built exactly when the serializer succeeds, and a serializer error propagates. |
| Routing.AddDownloadHandler | server/src/main/java/com/adobe/datum/server/handler/DatumServerHandlerBuilder.java:46-54 | A download handler is appended to the download list, tagged as a download. The upload list is unchanged. |
| Routing.AddUploadHandler | server/src/main/java/com/adobe/datum/server/handler/DatumServerHandlerBuilder.java:56-64 | An upload handler is appended to the upload list, tagged as an upload. The download list is unchanged. |
| Routing.ClientKeyMatchesBuilderKey | client/src/main/java/com/adobe/datum/client/DatumClientUtil.java:47-51 | The key read from a client's envelope equals the key the builder stores for a handler of the same request class, payload class and operation. |
| Routing.DirectionsNeverCollide | server/src/main/java/com/adobe/datum/server/handler/DatumServerHandlerBuilder.java:120-122 | A download and an upload handler over the same classes never share a key. |
| Routing.BuildOne | server/src/main/java/com/adobe/datum/server/handler/DatumServerHandlerBuilder.java:70-79 | Building one registration resolves its payload codec and its request deserializer from the one provider, and records them in the handler. Its only failures are resolution failures. |
| Routing.BuildOneSucceedsIff | server/src/main/java/com/adobe/datum/server/handler/DatumServerHandlerBuilder.java:70-79 | A registration builds exactly when its codecs can all be resolved. A download needs a payload serializer and an upload a payload deserializer, and both need a request deserializer. |
| Routing.BuildOneReach | server/src/main/java/com/adobe/datum/server/handler/DatumServerHandlerBuilder.java:71-77 | Building a registration only memoises. The context grows and resolves the same classes as before. |
| Routing.AddRequestHandler | server/src/main/java/com/adobe/datum/server/handler/DatumServerHandler.java:67-69 | Adding stores the handler under the key, replacing any earlier one without error. Every other entry and the server callback are unchanged. |
| Routing.Route | server/src/main/java/com/adobe/datum/server/handler/DatumServerHandler.java:71-76 | The lookup succeeds exactly for a key in the table, and it returns the handler stored there. Otherwise it raises an `IllegalArgumentException`. The key comes from the envelope's `parameterType`, `prototypeName` and type. |
| Routing.LastRegistrationWins | server/src/main/java/com/adobe/datum/server/handler/DatumServerHandler.java:67-69 | After two registrations under one key, routing finds the second. |
| Routing.Install | server/src/main/java/com/adobe/datum/server/handler/DatumServerHandlerBuilder.java:70-79 | Installing a list builds and adds each registration in turn. The first codec failure aborts the rest. |
| Routing.Build | server/src/main/java/com/adobe/datum/server/handler/DatumServerHandlerBuilder.java:66-81 | `build` installs the downloads first, then the uploads, each in insertion order. Any codec failure aborts the whole build. |
| Routing.InstallSucceedsIff | server/src/main/java/com/adobe/datum/server/handler/DatumServerHandlerBuilder.java:70-79 | A list installs exactly when every registration in it can be built against the starting context. |
| Routing.BuildSucceedsIff | server/src/main/java/com/adobe/datum/server/handler/DatumServerHandlerBuilder.java:66-81 | `build` succeeds exactly when every registration's codecs resolve against the starting context. Otherwise it fails at startup, before serving. |
| Routing.ApplyLastWins | server/src/main/java/com/adobe/datum/server/handler/DatumServerHandler.java:67-69 | A registration's key is present, and it holds that registration's handler unless a later one has the same key. |
| Routing.ApplyKeeps | server/src/main/java/com/adobe/datum/server/handler/DatumServerHandler.java:67-69 | Registrations under other keys leave an entry alone. |
| Routing.ApplyKeys | server/src/main/java/com/adobe/datum/server/handler/DatumServerHandlerBuilder.java:70-79 | The keys after `build` are the keys before plus one per registration. |
| Routing.BuildRegistersEveryHandler | server/src/main/java/com/adobe/datum/server/handler/DatumServerHandlerBuilder.java:66-81 | After a successful build, each registration is found under its key as a handler built from it, unless a later registration of the same operation has that key. |
| Routing.ClientReachesRegisteredHandler | server/src/main/java/com/adobe/datum/server/handler/DatumServerHandler.java:71-76 | A client request for a registered request class, payload class and operation is routed to the handler built from that registration. |
| Pipeline.Remove | server/src/main/java/com/adobe/datum/server/handler/AbstractRequestHandler.java:68-70 | `remove` succeeds exactly when the stage is in the pipeline, leaves one stage fewer, and otherwise fails with `NoSuchElementException` naming the stage's class. |
| Pipeline.RemoveKeepsOthers | server/src/main/java/com/adobe/datum/server/handler/AbstractRequestHandler.java:68-70 | Removing one stage keeps every other stage present, so the dispatch stage survives removal of the request decoder. |
| Pipeline.RemoveUnique | client/src/main/java/com/adobe/datum/client/DatumClient.java:155 | Removing a stage that occurs once leaves exactly the other stages in their original order, and the stage is gone. |
| Pipeline.InboundHandlersShareStreamEnd | common/src/main/java/com/adobe/datum/common/handler/ChannelHandlers.java:79-87 | `inboundHandlers` yields a decoder bound to the given class and deserializer, then the given handler, then the shared stream-end stage; two calls get distinct decoders and the same stream-end stage. |
| Pipeline.ServerInitialPipeline | server/src/main/java/com/adobe/datum/server/DatumServerInitializer.java:43-50 | A new server connection starts with eight stages. |
| Pipeline.InitialHasDispatch | server/src/main/java/com/adobe/datum/server/DatumServerInitializer.java:50 | The dispatch stage is part of every new server connection. |
| Pipeline.ServerInitialOrder | server/src/main/java/com/adobe/datum/server/DatumServerInitializer.java:43-50 | The stages come in the order `initChannel` adds them, the shaping stage carries the settings' four values in constructor order, and the request decoder and dispatch stage occur once each. |
| Pipeline.ConnectionsShareSingletons | common/src/main/java/com/adobe/datum/common/handler/ChannelHandlers.java:36-39 | Two connections share the statically held stages and the dispatch stage but get distinct shaping stages, traffic loggers and frame decoders. |
| Pipeline.ServerPrepared | server/src/main/java/com/adobe/datum/server/handler/AbstractRequestHandler.java:66-70 | The prepared server pipeline holds neither the request decoder nor the dispatch stage. |
| Pipeline.PrepareInitialPipeline | server/src/main/java/com/adobe/datum/server/handler/AbstractRequestHandler.java:66-70 | On a new connection both removals of `prepareChannel` succeed, in its order, and leave the prepared pipeline. |
| Pipeline.PreparedCarriesSentinel | server/src/main/java/com/adobe/datum/server/DatumServerInitializer.java:46-48 | On the prepared pipeline a written sentinel reaches the socket as the metadata encoder's bytes. |
| Pipeline.PreparedCarriesBytes | server/src/main/java/com/adobe/datum/server/DatumServerInitializer.java:44-45 | Logging and traffic shaping hand buffers to the socket untouched. |
| Pipeline.SentinelLeavesBare | server/src/main/java/com/adobe/datum/server/handler/AbstractRequestHandler.java:77-80 | The stream-start sentinel written on the prepared pipeline, from behind any stages that leave sentinels alone, leaves as its bare varint, which the peer's frame decoder reads back as that sentinel. |
| Pipeline.PayloadLeavesFramed | common/src/main/java/com/adobe/datum/common/handler/DatumMessageEncoder.java:44-48 | On the server's download pipeline a payload leaves as one length-prefixed frame holding exactly the serializer's bytes, and a serializer failure fails the write with the encoder's exception. |
| Pipeline.SwappedEncodersFrameTheSentinel | server/src/main/java/com/adobe/datum/server/DatumServerInitializer.java:46-48 | Were the length prepender nearer the head than the metadata encoder, a sentinel would leave as a six-byte frame and be read as an ordinary frame. |
| ServerHandshake.Open | server/src/main/java/com/adobe/datum/server/DatumServerInitializer.java:42-50 | A new connection has done nothing, has nothing pending, and its next fresh identity lies beyond those of its initial stages. |
| ServerHandshake.HandleRequestSucceedsIff | server/src/main/java/com/adobe/datum/server/handler/AbstractRequestHandler.java:52-74 | `handleRequest` completes exactly when the body deserializes, the user handler returns and both envelope stages are present; it then removes both, writes stream start last and leaves the typed stages pending. |
| ServerHandshake.HandleRequestPrepares | server/src/main/java/com/adobe/datum/server/handler/AbstractRequestHandler.java:52-80 | When every step succeeds, the user handler is invoked with the request, both removals apply, and stream start is written with the typed stages waiting on it. |
| ServerHandshake.RoutedRequest | server/src/main/java/com/adobe/datum/server/handler/DatumServerHandler.java:62-65 | A routed envelope runs its request handler and then schedules the server callback's `onComplete`. |
| ServerHandshake.UnknownRequestCloses | server/src/main/java/com/adobe/datum/server/handler/DatumServerHandler.java:54-76 | An envelope with no registered handler closes the connection and reports the routing error to the server callback only; nothing is invoked or written and `onComplete` is not scheduled. |
| ServerHandshake.HandlerFailureReported | server/src/main/java/com/adobe/datum/server/handler/AbstractRequestHandler.java:52-63 | A body the deserializer rejects, or a user handler that throws, is reported wrapped to the handler's callback, then `onComplete` is scheduled; the connection stays open and untouched. |
| ServerHandshake.PreparedDispatch | server/src/main/java/com/adobe/datum/server/handler/DatumServerHandler.java:62-65 | On any connection holding both envelope stages, a routed request that completes leaves the pipeline without them, writes stream start and schedules `onComplete`. |
| ServerHandshake.DispatchPreparesChannel | server/src/main/java/com/adobe/datum/server/handler/AbstractRequestHandler.java:66-80 | On a new connection a routed request invokes its handler once, leaves the prepared pipeline, writes only the stream-start sentinel and schedules `onComplete`, with the typed stages waiting for the write. |
| ServerHandshake.StagesFollowStreamStart | server/src/main/java/com/adobe/datum/server/handler/DownloadRequestHandler.java:55-59 | The typed stages are appended by the write's listener whether the write succeeded or failed, and a second completion appends nothing. |
| ServerHandshake.OneRequestPerConnection | server/src/main/java/com/adobe/datum/server/handler/AbstractRequestHandler.java:68-70 | Once dispatched, a later envelope or exception no longer reaches the dispatch stage and changes nothing. |
| ServerHandshake.DownloadPipeline | server/src/main/java/com/adobe/datum/server/handler/DownloadRequestHandler.java:52-60 | A download ends with the prepared stages, a payload encoder for the handler's class and serializer, and an upload engine given the handler's callback. |
| ServerHandshake.UploadPipeline | server/src/main/java/com/adobe/datum/server/handler/UploadRequestHandler.java:50-57 | An upload ends with the prepared stages, a payload decoder for the handler's class and deserializer, a download engine given the handler's callback, and the shared stream-end stage. |
| ServerHandshake.ExceptionBeforeDispatch | server/src/main/java/com/adobe/datum/server/handler/DatumServerHandler.java:54-59 | Before dispatch an exception closes the connection and reports the cause to the server callback. |
| ClientHandshake.Send | client/src/main/java/com/adobe/datum/client/DatumClient.java:142-178 | Sending either connects or throws. A connection has done exactly one thing, a write or a close. Nothing is thrown exactly when the envelope was written. |
| ClientHandshake.SerializerResolvedFirst | client/src/main/java/com/adobe/datum/client/DatumClient.java:94-95 | An unresolvable request serializer is thrown as it is before any channel is opened, and the context is unchanged. |
| ClientHandshake.SendLeavesPayloadCodecs | client/src/main/java/com/adobe/datum/client/DatumClient.java:94-96 | Sending changes the context only for the request class's serializer; deserializers and other serializers, the payload class's included, are as they were. |
| ClientHandshake.ConnectInterrupted | client/src/main/java/com/adobe/datum/client/DatumClient.java:172-178 | An interruption while opening the channel is thrown wrapped as "unable to get communication channel", with no connection. |
| ClientHandshake.Bootstrap | client/src/main/java/com/adobe/datum/client/DatumClientBootstrap.java:42-53 | Settings that fail validation are refused with validation's `IllegalArgumentException`, before any connection is attempted. Valid settings give the connection attempt's own result. |
| ClientHandshake.ConnectRefused | client/src/main/java/com/adobe/datum/client/DatumClient.java:172-178 | A refused connection, whether from validation or from `connect().sync()`, is thrown to the caller unwrapped, with no connection, because only an interruption is wrapped. Invalid settings throw "bandwidthWaitDelay should be less than connection timeout". |
| ClientHandshake.SendOutcome | client/src/main/java/com/adobe/datum/client/DatumClient.java:149-165 | Once connected, a failure to build the envelope closes the channel and is thrown wrapped as "unable to send datum request"; otherwise exactly the built envelope is written and nothing is thrown. |
| ClientHandshake.WriteSucceeded | client/src/main/java/com/adobe/datum/client/DatumClient.java:153-156 | A successful write removes the request encoder, keeps every other stage in place and appends a new stream-start stage; the context is unchanged. |
| ClientHandshake.WriteFailed | client/src/main/java/com/adobe/datum/client/DatumClient.java:157-160 | A failed write reports the cause to the user's callback and adds no stream-start stage. |
| ClientHandshake.MissingEncoderStalls | client/src/main/java/com/adobe/datum/client/DatumClient.java:152-156 | Without a request encoder the listener's exception is logged and lost; no stream-start stage is added and the user's callback hears nothing. |
| ClientHandshake.MetaReceiver | client/src/main/java/com/adobe/datum/client/handler/StreamStartHandler.java:32 | A sentinel goes to the first stage from the head that takes sentinels, and to none when no stage does. |
| ClientHandshake.InboundReceiver | common/src/main/java/com/adobe/datum/common/handler/ChannelHandlers.java:82-86 | In `inboundHandlers` around an engine, the stream-end stage is the one that takes a sentinel. |
| ClientHandshake.RemoveStart | client/src/main/java/com/adobe/datum/client/handler/StreamStartHandler.java:56 | The stream-start stage removes itself from behind the stages its continuation added. |
| ClientHandshake.AnySentinelStartsTheStream | client/src/main/java/com/adobe/datum/client/handler/StreamStartHandler.java:50-57 | The stream-start stage ignores the code: a start and an end sentinel have the same effect. |
| ClientHandshake.CodecsOnlyAtStreamStart | client/src/main/java/com/adobe/datum/client/DatumClient.java:98-103 | The context changes only when a sentinel reaches a stream-start stage. |
| ClientHandshake.StreamStarts | client/src/main/java/com/adobe/datum/client/handler/StreamStartHandler.java:55-56 | When the typed stages resolve, any sentinel appends them and then removes the stream-start stage, keeping the context the resolution left. |
| ClientHandshake.DownloadStages | client/src/main/java/com/adobe/datum/client/DatumClient.java:98-103 | A download's stages resolve exactly when its payload class can be deserialized, and are `inboundHandlers` around a new download engine bound to the payload class and the user's callback. |
| ClientHandshake.UploadStages | client/src/main/java/com/adobe/datum/client/DatumClient.java:127-133 | An upload's stages resolve exactly when its payload class can be serialized, and are a payload encoder with that serializer followed by an upload engine given the user's callback. |
| ClientHandshake.DownloadStartsOnce | common/src/main/java/com/adobe/datum/common/handler/StreamEndHandler.java:37-45 | After a download's stream start the next sentinel reaches the stream-end stage, which closes the channel; nothing is resolved again. |
| ClientHandshake.UploadStartsOnce | client/src/main/java/com/adobe/datum/client/handler/StreamStartHandler.java:56 | After an upload's stream start no stage takes a sentinel, so the next one is dropped and nothing is resolved again. |
| ClientHandshake.FailedStartStays | client/src/main/java/com/adobe/datum/client/handler/StreamStartHandler.java:55-56 | An unresolvable payload codec throws out of `onComplete` before the removal: the stream-start stage stays, the context is unchanged and the user's callback hears nothing. |
| ClientHandshake.RemovalKeepsNoTakers | client/src/main/java/com/adobe/datum/client/DatumClient.java:155 | Removing the request encoder keeps a pipeline free of sentinel takers. |
| ClientHandshake.DownloadAfterWrite | client/src/main/java/com/adobe/datum/client/DatumClient.java:96-103 | A download's write completion and then any sentinel leave the stages less the encoder followed by `inboundHandlers` around a download engine, and the channel does nothing more. |

## Left out

- Netty plumbing is outside the model: event loops, bootstraps, socket options, bind and connect, `DatumServerBootstrap` and `DatumServer.start`. Of `DatumClientBootstrap` only the settings validation is modelled. The channel's answers are inputs instead: writability, write completion and the result of the connection attempt. Work the executor runs later is recorded as effects in submission order.
- `BlockingDatumClient` is left out. Its purpose is blocking a thread on latches with timeouts, which is concurrency.
- `DatumClientInitializer` is not part of this model. The client's initial pipeline is a parameter, `Connected(pipeline, id)`.
- `DatumMessageDecoder`, `DatumStreamMetadataEncoder`, `RequestHandlerKey`, `DatumCallback` and `DatumLoggingHandler` are not part of this model. The decoder is a stage that takes payloads of one class. The metadata encoder writes the code's raw varint, as `ChannelMetadata.writeMetadataMessage` does. The key is a triple. The callback is a pair of listeners.
- Netty's `ProtobufVarint32LengthFieldPrepender` is not part of this model. Its output is specified as the body length's varint followed by the body.
- The concrete codecs are left out: protobuf, `Serializable`, Kryo and JSON serializers and deserializers, and `ProtoUtil`. A codec is an identity, and what it does is the `Behaviour` record of functions.
- `ReflectionUtil` is left out. Registrations name their request and payload classes explicitly.
- `readDouble` and `writeDouble` are left out, because they are floating point.
- The UTF-16 details of strings are left out, including the byte order mark. String encoding is an abstract `Charset` with a round-trip property.
- Class membership is exact. `isInstance` on a payload matches only the class itself, not subclasses.
- Logging is left out: the logging stage, `TrafficLoggingHandler`, `UncaughtErrorReporterCallback`'s logging, the no-op `AutoShutdownHandler`, and the engines' timestamps and elapsed times. These only observe.
- Traffic shaping only carries its four settings. Bandwidth limiting is timing.
- `DataWriter`, `DataReader` and the `add*` methods of `DatumServer` are modelled through `SerializationUtil`, `SerializationContext` and the builder they forward to.
- Exception messages are kept only where a contract names them. The other message simplified is `RequestHandlerException`'s text, which embeds the body and the deserializer's `toString`.
- Routing.Route: the key's `toString` is a parameter `render`, because Java's record formatting is not modelled.
- The name-uniqueness check of Netty's `addLast` is left out. Every stage added here is unnamed.
- The `@Sharable` marker of the encoders and of the stream-end stage is left out. Sharing shows instead as stage identity: the statically held stages carry no identity, and fresh stages carry a distinct `id`.
- The client's inbound traversal of payloads is left out. Only sentinels are routed through the client pipeline in `ClientHandshake`; payload delivery is `DownloadEngine`'s.
- Exceptions reaching the server after dispatch are left to the engines' own `exceptionCaught` in `UploadEngine` and `DownloadEngine`, except for a failed first upload run, which detaches the engine (`UploadEngine.FailedAddDetaches`). The server handshake does not route them, and the `ChannelPipelineException` Netty fires from the pipeline's head in that case is not followed further.
- The engines and the handshakes record listener calls as if every user listener returns. `Callbacks.DeliverOrThrow` models a listener that throws, and the engines do not use it.
- ConnectionSettings.Default: when `datum.port` does not parse, the JVM raises the `NumberFormatException` inside an `ExceptionInInitializerError` on the first use of the class, and a `NoClassDefFoundError` on later uses. The model reports the `NumberFormatException` itself, on every construction, because class initialisation is not modelled.
- ConnectionSettings.ParseInt: only ASCII digits are accepted. Java's `Character.digit` also accepts the decimal digits of other scripts, and those are not modelled.
- Suppliers.FilteredGet: the source calls the delegate until a result passes. The method takes a `bound` on delegate calls and answers `None` when it reaches it, because an unbounded search has no termination measure.
- UploadEngine.Pump: the supplier's answers are a finite sequence, and a pull beyond its end reads as an empty result, that is, the end of the stream. A supplier that never ends is outside the model.
