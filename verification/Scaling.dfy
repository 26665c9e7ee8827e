/** Scaling between user values and the raw integers on the bus (include/can/Channel.h, SetVariable of
    src/can/Channel.cpp). Slopes are not zero. */
module Scaling {
  import opened Common
  import opened SensorCodec

  const INT32_MIN := -0x8000_0000
  const INT32_MAX := 0x7FFF_FFFF

  function ScaleToRaw(value: real, a: real, b: real): real
    requires a != 0.0
  {
    if a != 1.0 || b != 0.0 then (value - b) / a else value
  }

  function ScaleToDouble(value: real, a: real, b: real): real {
    if a != 1.0 || b != 0.0 then value * a + b else value
  }

  /** The raw integer for a value, rejected when it does not fit 32 bits. */
  function ScaleAndConvertInt32(value: real, a: real, b: real): Result<int>
    requires a != 0.0
  {
    var result := ScaleToRaw(value, a, b);
    if result < INT32_MIN as real || result > INT32_MAX as real then Throws else Ok(Truncate(result))
  }

  /** What the board echoes back for a raw integer. */
  function Echo(raw: int, a: real, b: real): real {
    ScaleToDouble(raw as real, a, b)
  }

  /** The division and multiplication of the two scalings undo each other. */
  lemma RawOfEcho(raw: int, a: real, b: real)
    requires a != 0.0
    ensures ScaleToRaw(Echo(raw, a, b), a, b) == raw as real
  {
    var p := raw as real * a;
    assert p / a == raw as real;
  }

  lemma ValueOfRaw(value: real, a: real, b: real)
    requires a != 0.0
    ensures value == ScaleToRaw(value, a, b) * a + b
  {
  }

  lemma ProductBound(d: real, a: real)
    requires -1.0 < d < 1.0 && a != 0.0
    ensures if a > 0.0 then -a < d * a < a else a < d * a < -a
  {
    if a > 0.0 {
      assert (1.0 - d) * a > 0.0 && (1.0 + d) * a > 0.0;
    } else {
      assert (1.0 - d) * -a > 0.0 && (1.0 + d) * -a > 0.0;
    }
  }

  lemma Gap(value: real, back: real, x: real, y: real, a: real, b: real)
    requires value == x * a + b && back == y * a + b
    ensures value - back == (x - y) * a
  {
  }

  /** On a line of slope a, points closer than one step have values closer than |a|. */
  lemma WithinOneStep(value: real, back: real, x: real, y: real, a: real, b: real)
    requires a != 0.0 && -1.0 < x - y < 1.0
    requires value == x * a + b && back == y * a + b
    ensures if a > 0.0 then -a < value - back < a else a < value - back < -a
  {
    var gap, d := value - back, x - y;
    assert gap == d * a by {
      Gap(value, back, x, y, a, b);
    }
    ProductBound(d, a);
  }

  /** A value is accepted exactly when its raw value lies within the bounds of a signed 32-bit integer. */
  lemma FitsIff(value: real, a: real, b: real)
    requires a != 0.0
    ensures ScaleAndConvertInt32(value, a, b).Ok? <==> -2147483648.0 <= ScaleToRaw(value, a, b) <= 2147483647.0
  {
  }

  lemma RawIsInRange(value: real, a: real, b: real)
    requires a != 0.0 && ScaleAndConvertInt32(value, a, b).Ok?
    ensures INT32_MIN <= ScaleAndConvertInt32(value, a, b).value <= INT32_MAX
  {
    TruncateBounds(ScaleToRaw(value, a, b));
  }

  /** Converting an integer gives that integer. */
  lemma WholeNumbersConvert(value: real, raw: int, a: real, b: real)
    requires a != 0.0 && INT32_MIN <= raw <= INT32_MAX && ScaleToRaw(value, a, b) == raw as real
    ensures ScaleAndConvertInt32(value, a, b) == Ok(raw)
  {
  }

  lemma EchoIsClose(value: real, a: real, b: real)
    requires a != 0.0 && ScaleAndConvertInt32(value, a, b).Ok?
    ensures var gap := value - Echo(ScaleAndConvertInt32(value, a, b).value, a, b);
            if a > 0.0 then -a < gap < a else a < gap < -a
  {
    var x := ScaleToRaw(value, a, b);
    var raw := Truncate(x);
    TruncateBounds(x);
    ValueOfRaw(value, a, b);
    WithinOneStep(value, Echo(raw, a, b), x, raw as real, a, b);
  }

  /** Every accepted value fits 32 bits as a raw integer, comes back within less than one step |a|, and sending
      what came back gives the same raw integer. */
  lemma SetThenEcho(value: real, a: real, b: real)
    requires a != 0.0 && ScaleAndConvertInt32(value, a, b).Ok?
    ensures var raw := ScaleAndConvertInt32(value, a, b).value;
            var back := Echo(raw, a, b);
            && INT32_MIN <= raw <= INT32_MAX
            && (if a > 0.0 then -a < value - back < a else a < value - back < -a)
            && ScaleAndConvertInt32(back, a, b) == Ok(raw)
  {
    var raw := ScaleAndConvertInt32(value, a, b).value;
    RawIsInRange(value, a, b);
    EchoIsClose(value, a, b);
    RawOfEcho(raw, a, b);
    WholeNumbersConvert(Echo(raw, a, b), raw, a, b);
  }

  /** The value comes back unchanged exactly when it lies on the grid of the raw integers. */
  lemma EchoIsExactIff(value: real, a: real, b: real)
    requires a != 0.0 && ScaleAndConvertInt32(value, a, b).Ok?
    ensures Echo(ScaleAndConvertInt32(value, a, b).value, a, b) == value <==> IsWhole(ScaleToRaw(value, a, b))
  {
    RawOfEcho(ScaleAndConvertInt32(value, a, b).value, a, b);
    ValueOfRaw(value, a, b);
  }

  predicate IsWhole(x: real) {
    x.Floor as real == x
  }

  /** A sensor value is scaled like a state value, so converting it back gives the raw value ... */
  lemma RawOfSensor(x: real, a: real, b: real)
    requires a != 0.0
    ensures ScaleToRaw(ScaleSensor(x, a, b), a, b) == x
  {
    var p := x * a;
    assert p / a == x;
  }

  /** ... and the value read for a channel of a packed message converts back to the integer that was packed, if that
      fits 32 bits. */
  lemma PackedConvertsBack(channels: map<nat, ChannelState>, mask: bv32, raws: nat -> int, padding: seq<Byte>, c: nat)
    requires Packable(channels, mask, raws) && c < CHANNELS && Bit(mask, c) && channels[c].slope != 0.0
    requires INT32_MIN <= raws(c) <= INT32_MAX
    ensures var data := Pack(channels, mask, raws, CHANNELS) + padding;
            && Offset(channels, mask, c) + Width(channels, c) <= |data|
            && ScaleAndConvertInt32(Decoded(channels, mask, data, c), channels[c].slope, channels[c].offset)
                 == Ok(raws(c))
  {
    var a, b := channels[c].slope, channels[c].offset;
    PackedAtOffset(channels, mask, raws, CHANNELS, c, padding);
    RawOfSensor(raws(c) as real, a, b);
    WholeNumbersConvert(ScaleSensor(raws(c) as real, a, b), raws(c), a, b);
  }

  // ----------------------------------------------------------------------------- messages

  /** The payload of a set message: the variable and the raw integer, least significant byte first. */
  function SetPayload(variable: Byte, value: real, a: real, b: real): Result<seq<Byte>>
    requires a != 0.0
  {
    var raw := ScaleAndConvertInt32(value, a, b);
    if raw.Throws? then Throws
    else
      RawIsInRange(value, a, b);
      Powers();
      Ok([variable] + Encode(4, raw.value))
  }

  /** The value a payload that came back stands for. */
  function EchoedValue(payload: seq<Byte>, a: real, b: real): real
    requires |payload| == 5
  {
    Echo(RawAt(payload, 1, 4), a, b)
  }

  lemma PayloadHoldsRaw(variable: Byte, value: real, a: real, b: real)
    requires a != 0.0 && SetPayload(variable, value, a, b).Ok?
    ensures var payload := SetPayload(variable, value, a, b).value;
            |payload| == 5 && payload[0] == variable
            && RawAt(payload, 1, 4) == ScaleAndConvertInt32(value, a, b).value
  {
    var raw := ScaleAndConvertInt32(value, a, b).value;
    RawIsInRange(value, a, b);
    Powers();
    DecodeOfEncode(4, raw, [variable], []);
    assert [variable] + Encode(4, raw) + [] == [variable] + Encode(4, raw);
  }

  /** Every message that comes back, sent as the value it stands for, goes out as the same five bytes ... */
  lemma EchoThenSet(payload: seq<Byte>, a: real, b: real)
    requires a != 0.0 && |payload| == 5
    ensures SetPayload(payload[0], EchoedValue(payload, a, b), a, b) == Ok(payload)
  {
    var raw := RawAt(payload, 1, 4);
    Powers();
    EncodeOfDecode(payload, 1, 4);
    RawOfEcho(raw, a, b);
    WholeNumbersConvert(Echo(raw, a, b), raw, a, b);
    assert payload == [payload[0]] + payload[1..5];
  }

  /** ... and every accepted value comes back, byte by byte, within less than one step. */
  lemma SetThenEchoedValue(variable: Byte, value: real, a: real, b: real)
    requires a != 0.0 && SetPayload(variable, value, a, b).Ok?
    ensures var payload := SetPayload(variable, value, a, b).value;
            && |payload| == 5
            && var gap := value - EchoedValue(payload, a, b);
               (if a > 0.0 then -a < gap < a else a < gap < -a)
               && (gap == 0.0 <==> IsWhole(ScaleToRaw(value, a, b)))
  {
    PayloadHoldsRaw(variable, value, a, b);
    EchoIsClose(value, a, b);
    EchoIsExactIff(value, a, b);
  }

  method SetVariable(variable: Byte, scaling: seq<real>, params: seq<real>) returns (payload: Result<seq<Byte>>)
    requires |scaling| == 2 ==> scaling[0] != 0.0
    ensures payload.Ok? <==>
              && |scaling| == 2 && |params| == 1
              && ScaleAndConvertInt32(params[0], scaling[0], scaling[1]).Ok?
    ensures payload == if |scaling| == 2 && |params| == 1
                       then SetPayload(variable, params[0], scaling[0], scaling[1]) else Throws
    ensures payload.Ok? ==>
              && |payload.value| == 5 && payload.value[0] == variable
              && RawAt(payload.value, 1, 4) == ScaleAndConvertInt32(params[0], scaling[0], scaling[1]).value
  {
    if |scaling| != 2 || |params| != 1 {
      return Throws;
    }
    var scaled := ScaleAndConvertInt32(params[0], scaling[0], scaling[1]);
    if scaled.Throws? {
      return Throws;
    }
    PayloadHoldsRaw(variable, params[0], scaling[0], scaling[1]);
    return Ok([variable] + Encode(4, scaled.value));
  }

  /** The state value for a set message that came back: set again, it is sent as the message it came from. */
  method GetSetVariableResponse(payload: seq<Byte>, scaling: (real, real)) returns (value: real)
    requires |payload| == 5
    ensures value == EchoedValue(payload, scaling.0, scaling.1)
    ensures scaling.0 != 0.0 ==> SetPayload(payload[0], value, scaling.0, scaling.1) == Ok(payload)
  {
    value := ScaleToDouble(RawAt(payload, 1, 4) as real, scaling.0, scaling.1);
    if scaling.0 != 0.0 {
      EchoThenSet(payload, scaling.0, scaling.1);
    }
  }
}
