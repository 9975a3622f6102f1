/** `ConnectionSettings` and `ChannelUtil.validateSettings`: the settings record, its
    defaults, its wire form and its one invariant. */
module ConnectionSettings {
  import opened Wrappers
  import opened JavaTypes
  import opened SerializationUtil
  import opened JavaLang

  datatype Settings = Settings(
    host: Option<string>,
    port: int32,
    connectTimeoutMillis: int32,
    writeBufferLowWaterMark: int32,
    writeBufferHighWaterMark: int32,
    writeBandwidth: int32,
    readBandwidth: int32,
    bandwidthCheckInterval: int32,
    bandwidthWaitDelay: int32)

  const DEFAULT_CONNECT_TIMEOUT_MILLIS: int32 := 10_000
  const DEFAULT_WRITE_BUFFER_LOW_WATER_MARK: int32 := 16 * 1024
  const DEFAULT_WRITE_BUFFER_HIGH_WATER_MARK: int32 := 64 * 1024
  const DEFAULT_WRITE_BANDWIDTH: int32 := 1024 * 1024
  const DEFAULT_READ_BANDWIDTH: int32 := 1024 * 1024
  const DEFAULT_BANDWIDTH_CHECK_INTERVAL: int32 := 5_000
  const DEFAULT_BANDWIDTH_WAIT_DELAY: int32 := 5_000

  /** The `datum.host` and `datum.port` system properties, when set, as the strings
      `System.getProperty` returns. */
  datatype Properties = Properties(host: Option<string>, port: Option<string>)

  predicate IsDigit(c: char)
  {
    '0' <= c <= '9'
  }

  predicate IsSign(c: char)
  {
    c == '-' || c == '+'
  }

  /** A non-empty run of decimal digits. */
  predicate IsDigits(ds: string)
  {
    |ds| >= 1 && forall k :: 0 <= k < |ds| ==> IsDigit(ds[k])
  }

  /** The number a run of digits spells, most significant digit first. */
  function DigitsValue(ds: string): nat
    requires forall k :: 0 <= k < |ds| ==> IsDigit(ds[k])
  {
    if |ds| == 0 then 0
    else
      assert IsDigit(ds[|ds| - 1]);
      DigitsValue(ds[..|ds| - 1]) * 10 + (ds[|ds| - 1] as int - '0' as int)
  }

  /** `NumberFormatException.forInputString`'s message. */
  function ForInputString(s: string): string
  {
    "For input string: \"" + s + "\""
  }

  /** `Integer.parseInt(s)`: an optional leading sign, then at least one decimal digit,
      spelling a value within `int`; anything else is a `NumberFormatException`. */
  function ParseInt(s: string): (r: Result<int32, Throwable>)
    ensures r.Failure? ==> r.error == NumberFormat(ForInputString(s))
    ensures r.Success? ==> |s| >= 1 && IsDigit(s[|s| - 1])
    ensures (exists k :: 0 < k < |s| && !IsDigit(s[k])) ==> r.Failure?
    ensures |s| >= 1 && !IsDigit(s[0]) && !IsSign(s[0]) ==> r.Failure?
  {
    var signed := |s| > 0 && IsSign(s[0]);
    var ds := if signed then s[1..] else s;
    if !IsDigits(ds) then Failure(NumberFormat(ForInputString(s)))
    else
      var v: int := if signed && s[0] == '-' then -(DigitsValue(ds) as int) else DigitsValue(ds) as int;
      if INT_MIN <= v <= INT_MAX then Success(v as int32)
      else Failure(NumberFormat(ForInputString(s)))
  }

  /** `Integer.toString(n)` for a non-negative `n`: its decimal digits, without leading
      zeros. */
  function DecimalString(n: nat): (ds: string)
    ensures IsDigits(ds)
  {
    if n < 10 then [('0' as int + n) as char]
    else DecimalString(n / 10) + [('0' as int + n % 10) as char]
  }

  lemma {:induction false} DecimalStringValue(n: nat)
    ensures DigitsValue(DecimalString(n)) == n
  {
    var ds := DecimalString(n);
    if n >= 10 {
      assert ds[..|ds| - 1] == DecimalString(n / 10);
      DecimalStringValue(n / 10);
    } else {
      assert ds[..0] == [];
    }
  }

  /** Parsing the decimal form of an `int`, with a minus sign when negative, gives the
      `int` back. */
  lemma ParsePrinted(n: int32)
    ensures n >= 0 ==> ParseInt(DecimalString(n)) == Success(n)
    ensures n < 0 ==> ParseInt("-" + DecimalString(-(n as int))) == Success(n)
  {
    if n >= 0 {
      DecimalStringValue(n);
      assert !IsSign(DecimalString(n)[0]);
    } else {
      var ds := DecimalString(-(n as int));
      DecimalStringValue(-(n as int));
      assert ("-" + ds)[1..] == ds;
    }
  }

  /** The port fallback `"8643"` parses to 8643. */
  lemma DefaultPortParses()
    ensures ParseInt("8643") == Success(8643)
  {
    assert DecimalString(8643) == "8643" by {
      assert DecimalString(86) == "86";
      assert DecimalString(864) == "864";
    }
    ParsePrinted(8643);
  }

  /** The port property `"8643 "`, with a trailing space, does not parse. */
  lemma TrailingSpacePortFails()
    ensures ParseInt("8643 ").Failure?
  {
    assert !IsDigit("8643 "[4]);
  }

  /** The no-argument constructor: host and port from the system properties, with
      fallbacks `127.0.0.1` and `"8643"`; every other field its constant default. The
      port is parsed once, when the class is initialised, and a value that is not a
      decimal `int` makes every construction fail; the failure carries the parse
      exception. */
  function Default(props: Properties): (r: Result<Settings, Throwable>)
    ensures r.Failure? <==> ParseInt(props.port.GetOr("8643")).Failure?
    ensures r.Failure? ==> r.error == NumberFormat(ForInputString(props.port.GetOr("8643")))
    ensures r.Success? ==>
      var s := r.value;
      && s.host == Some(props.host.GetOr("127.0.0.1"))
      && s.port == ParseInt(props.port.GetOr("8643")).value
      && s.connectTimeoutMillis == 10_000
      && s.writeBufferLowWaterMark == 16_384 && s.writeBufferHighWaterMark == 65_536
      && s.writeBandwidth == 1_048_576 && s.readBandwidth == 1_048_576
      && s.bandwidthCheckInterval == 5_000 && s.bandwidthWaitDelay == 5_000
  {
    var port :- ParseInt(props.port.GetOr("8643"));
    Success(Settings(
      Some(props.host.GetOr("127.0.0.1")),
      port,
      DEFAULT_CONNECT_TIMEOUT_MILLIS,
      DEFAULT_WRITE_BUFFER_LOW_WATER_MARK,
      DEFAULT_WRITE_BUFFER_HIGH_WATER_MARK,
      DEFAULT_WRITE_BANDWIDTH,
      DEFAULT_READ_BANDWIDTH,
      DEFAULT_BANDWIDTH_CHECK_INTERVAL,
      DEFAULT_BANDWIDTH_WAIT_DELAY))
  }

  /** Without a `datum.port` property the defaults are built, with port 8643. */
  lemma DefaultWithoutPortProperty(host: Option<string>)
    ensures Default(Properties(host, None)).Success?
    ensures Default(Properties(host, None)).value.port == 8643
  {
    DefaultPortParses();
  }

  /** `ChannelUtil.validateSettings`: the connect timeout must strictly exceed the
      bandwidth wait delay; nothing else is checked. */
  function Validate(s: Settings): (r: Outcome<string>)
    ensures r.Pass? <==> s.connectTimeoutMillis > s.bandwidthWaitDelay
  {
    if s.connectTimeoutMillis > s.bandwidthWaitDelay then Pass
    else Fail("bandwidthWaitDelay should be less than connection timeout")
  }

  /** The defaults order the watermarks and pass validation, whatever the system
      properties say. */
  lemma DefaultsAreValid(props: Properties)
    ensures Default(props).Success? ==>
      && Default(props).value.writeBufferLowWaterMark < Default(props).value.writeBufferHighWaterMark
      && Validate(Default(props).value) == Pass
  {
  }

  /** Equal timeout and delay are rejected, since the comparison is strict. */
  lemma EqualTimeoutRejected(s: Settings)
    requires s.connectTimeoutMillis == s.bandwidthWaitDelay
    ensures Validate(s).Fail?
  {
  }

  /** Validation looks at no field other than the two it compares. */
  lemma ValidateIgnoresOtherFields(s: Settings, t: Settings)
    requires s.connectTimeoutMillis == t.connectTimeoutMillis
    requires s.bandwidthWaitDelay == t.bandwidthWaitDelay
    ensures Validate(s) == Validate(t)
  {
  }

  /** The eight ints, in the order `serialize` writes them. */
  function Ints(s: Settings): seq<int32>
  {
    [s.port, s.connectTimeoutMillis, s.writeBufferLowWaterMark, s.writeBufferHighWaterMark,
     s.writeBandwidth, s.readBandwidth, s.bandwidthCheckInterval, s.bandwidthWaitDelay]
  }

  function WriteInts(xs: seq<int32>): (bs: seq<byte>)
    ensures |bs| == 4 * |xs|
  {
    if |xs| == 0 then [] else WriteInteger(Some(xs[0])) + WriteInts(xs[1..])
  }

  /** `serialize`: the host as a string, then the eight ints. */
  function Serialize(cs: Charset, s: Settings): (bs: seq<byte>)
    requires IsArray(cs.encode(s.host.GetOr("")))
    ensures |bs| == 4 + |cs.encode(s.host.GetOr(""))| + 32
  {
    WriteString(cs, s.host) + WriteInts(Ints(s))
  }

  function ReadInts(input: seq<byte>, n: nat): (r: Result<Read<seq<int32>>, ReadError>)
    ensures r.Success? ==> |r.value.value| == n
    decreases n
  {
    if n == 0 then Success(Read([], input))
    else
      var x :- ReadInteger(input);
      var xs :- ReadInts(x.rest, n - 1);
      Success(Read([x.value] + xs.value, xs.rest))
  }

  /** `deserialize`: every field is overwritten, read in the order `serialize` wrote
      them; the result depends on the input alone. */
  function Deserialize(cs: Charset, input: seq<byte>): (r: Result<Read<Settings>, ReadError>)
  {
    var host :- ReadString(cs, input);
    var ints :- ReadInts(host.rest, 8);
    var v := ints.value;
    Success(Read(Settings(Some(host.value), v[0], v[1], v[2], v[3], v[4], v[5], v[6], v[7]), ints.rest))
  }

  lemma {:induction false} ReadWrittenInts(xs: seq<int32>, rest: seq<byte>)
    ensures ReadInts(WriteInts(xs) + rest, |xs|) == Success(Read(xs, rest))
    decreases |xs|
  {
    if |xs| == 0 {
      assert WriteInts(xs) + rest == rest;
    } else {
      var tail := WriteInts(xs[1..]) + rest;
      assert WriteInts(xs) + rest == WriteInteger(Some(xs[0])) + tail;
      IntegerRoundTrip(Some(xs[0]), tail);
      ReadWrittenInts(xs[1..], rest);
      assert [xs[0]] + xs[1..] == xs;
    }
  }

  /** Writing then reading restores every field; a null host comes back as "". */
  lemma SettingsRoundTrip(cs: Charset, s: Settings, rest: seq<byte>)
    requires Faithful(cs)
    requires IsArray(cs.encode(s.host.GetOr("")))
    ensures Deserialize(cs, Serialize(cs, s) + rest)
         == Success(Read(s.(host := Some(s.host.GetOr(""))), rest))
  {
    var ints := WriteInts(Ints(s)) + rest;
    assert Serialize(cs, s) + rest == WriteString(cs, s.host) + ints;
    StringRoundTrip(cs, s.host, ints);
    ReadWrittenInts(Ints(s), rest);
  }
}
