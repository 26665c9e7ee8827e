/** The packed sensor message: little-endian values of one to four bytes for the channels of a mask, in the order of
    their ids (GetSensorValue of src/can/Channel.cpp and the decoding loop of src/can/Node.cpp). */
module SensorCodec {
  import opened Common

  type Byte = x: int | 0 <= x < 256

  const CHANNELS := 32

  /** Bit c of a channel mask. */
  predicate Bit(mask: bv32, c: nat)
    requires c < CHANNELS
  {
    (mask >> c) & 1 == 1
  }

  /** Bits are numbered from the least significant one: the mask with the one bit at place c selects channel c ... */
  lemma BitsAreNumbered(c: nat, d: nat)
    requires c < 32 && d < 32
    ensures Bit(1 << c, d) <==> c == d
  {
  }

  /** ... masks joined select what either selects, and the empty mask selects nothing. */
  lemma BitsAreJoined(m: bv32, n: bv32, c: nat)
    requires c < 32
    ensures Bit(m | n, c) <==> Bit(m, c) || Bit(n, c)
    ensures !Bit(0, c)
  {
    assert (m | n) >> c == (m >> c) | (n >> c);
    LastBits(m >> c, n >> c);
    NoBits(c);
  }

  lemma LastBits(x: bv32, y: bv32)
    ensures (x | y) & 1 == 1 <==> x & 1 == 1 || y & 1 == 1
  {
  }

  lemma NoBits(c: nat)
    requires c < 32
    ensures (0 as bv32) >> c == 0
  {
  }

  /** The number of set bits below c. */
  function Rank(mask: bv32, c: nat): (r: nat)
    requires c <= CHANNELS
    ensures r <= c
  {
    if c == 0 then 0 else Rank(mask, c - 1) + if Bit(mask, c - 1) then 1 else 0
  }

  // --------------------------------------------------------------------- single values

  /** The unsigned integer of up to four bytes, least significant first. */
  function Unsigned(data: seq<Byte>, p: nat, width: nat): nat
    requires p + width <= |data|
    decreases width
  {
    if width == 0 then 0 else Join(data[p], Unsigned(data, p + 1, width - 1))
  }

  function Join(low: Byte, rest: nat): nat {
    var b: int := low;
    b + 0x100 * rest
  }

  function UnsignedBytes(u: nat, width: nat): (bytes: seq<Byte>)
    ensures |bytes| == width
  {
    if width == 0 then [] else [u % 0x100] + UnsignedBytes(u / 0x100, width - 1)
  }

  /** 256 to the power of a width. */
  function Power(width: nat): nat {
    if width == 0 then 1 else 0x100 * Power(width - 1)
  }

  lemma {:induction false} UnsignedOfBytes(u: nat, width: nat, before: seq<Byte>, after: seq<Byte>)
    requires u < Power(width)
    ensures Unsigned(before + UnsignedBytes(u, width) + after, |before|, width) == u
  {
    if width > 0 {
      var all := before + UnsignedBytes(u, width) + after;
      assert all == (before + [u % 0x100]) + UnsignedBytes(u / 0x100, width - 1) + after;
      assert all[|before|] == u % 0x100;
      UnsignedOfBytes(u / 0x100, width - 1, before + [u % 0x100], after);
    }
  }

  lemma {:induction false} BytesOfUnsigned(data: seq<Byte>, p: nat, width: nat)
    requires p + width <= |data|
    ensures Unsigned(data, p, width) < Power(width)
    ensures UnsignedBytes(Unsigned(data, p, width), width) == data[p..p + width]
    decreases width
  {
    if width > 0 {
      BytesOfUnsigned(data, p + 1, width - 1);
      JoinSplits(data[p], Unsigned(data, p + 1, width - 1));
      assert data[p..p + width] == [data[p]] + data[p + 1..p + 1 + (width - 1)];
    }
  }

  lemma JoinSplits(low: Byte, rest: nat)
    ensures Join(low, rest) % 0x100 == low && Join(low, rest) / 0x100 == rest
  {
  }

  /** One- and two-byte values are unsigned; three-byte values carry the sign of a 24-bit converter, four-byte values
      are 32-bit integers. */
  predicate Representable(width: nat, raw: int) {
    if width <= 2 then 0 <= raw < Power(width) else -(Power(width) / 2) <= raw < Power(width) / 2
  }

  /** The integer at a position, as the shifts and the sign extension of the code assemble it. */
  function RawAt(data: seq<Byte>, p: nat, width: nat): int
    requires 1 <= width <= 4 && p + width <= |data|
  {
    var u := Unsigned(data, p, width);
    if width >= 3 && data[p + width - 1] >= 0x80 then u - Power(width) else u
  }

  /** The bytes a board sends for a raw value. */
  function Encode(width: nat, raw: int): (bytes: seq<Byte>)
    requires Representable(width, raw)
    ensures |bytes| == width
  {
    UnsignedBytes(if raw < 0 then raw + Power(width) else raw, width)
  }

  function Digit(data: seq<Byte>, p: nat): int
    requires p < |data|
  {
    data[p]
  }

  /** Bytes count 1, 256, 65536 and 16777216 in turn, from the first; three- and four-byte values with the top bit of
      the last byte set are lower by one turn. */
  lemma BytesCount(data: seq<Byte>, p: nat, width: nat)
    requires 1 <= width <= 4 && p + width <= |data|
    ensures RawAt(data, p, width) ==
            Digit(data, p) + (if width >= 2 then 256 * Digit(data, p + 1) else 0)
            + (if width >= 3 then 65536 * Digit(data, p + 2) else 0)
            + (if width >= 4 then 16777216 * Digit(data, p + 3) else 0)
            - (if width == 3 && Digit(data, p + 2) >= 128 then 16777216 else 0)
            - (if width == 4 && Digit(data, p + 3) >= 128 then 4294967296 else 0)
  {
    Powers();
    assert Unsigned(data, p, width) == Join(data[p], Unsigned(data, p + 1, width - 1));
    if width >= 2 {
      assert Unsigned(data, p + 1, width - 1) == Join(data[p + 1], Unsigned(data, p + 2, width - 2));
    }
    if width >= 3 {
      assert Unsigned(data, p + 2, width - 2) == Join(data[p + 2], Unsigned(data, p + 3, width - 3));
    }
    if width >= 4 {
      assert Unsigned(data, p + 3, width - 3) == Join(data[p + 3], Unsigned(data, p + 4, width - 4));
    }
  }

  lemma Powers()
    ensures Power(0) == 1 && Power(1) == 0x100 && Power(2) == 0x1_0000 && Power(3) == 0x100_0000
        && Power(4) == 0x1_0000_0000
  {
    assert Power(2) == 0x100 * Power(1);
    assert Power(3) == 0x100 * Power(2);
  }

  /** The sign bit of the last byte tells the upper half of the range. */
  lemma {:induction false} SignBit(data: seq<Byte>, p: nat, width: nat)
    requires 1 <= width <= 4 && p + width <= |data|
    ensures data[p + width - 1] >= 0x80 <==> 2 * Unsigned(data, p, width) >= Power(width)
    decreases width
  {
    Powers();
    if width == 1 {
      assert Unsigned(data, p, 1) == Join(data[p], Unsigned(data, p + 1, 0));
    } else {
      SignBit(data, p + 1, width - 1);
    }
  }

  /** Decoding gives back every representable value, wherever it stands in the message ... */
  lemma DecodeOfEncode(width: nat, raw: int, before: seq<Byte>, after: seq<Byte>)
    requires 1 <= width <= 4 && Representable(width, raw)
    ensures RawAt(before + Encode(width, raw) + after, |before|, width) == raw
  {
    Powers();
    UnsignedOfBytes(if raw < 0 then raw + Power(width) else raw, width, before, after);
    SignBit(before + Encode(width, raw) + after, |before|, width);
  }

  /** ... and every sequence of bytes is the encoding of the value decoded from it. */
  lemma EncodeOfDecode(data: seq<Byte>, p: nat, width: nat)
    requires 1 <= width <= 4 && p + width <= |data|
    ensures Representable(width, RawAt(data, p, width))
    ensures Encode(width, RawAt(data, p, width)) == data[p..p + width]
  {
    Powers();
    BytesOfUnsigned(data, p, width);
    SignBit(data, p, width);
  }

  // -------------------------------------------------------------------- whole messages

  /** What decoding needs to know of a channel. */
  datatype ChannelState = ChannelState(width: nat, slope: real, offset: real)

  predicate Decodable(channels: map<nat, ChannelState>, c: nat) {
    c in channels && 1 <= channels[c].width <= 4
  }

  function Width(channels: map<nat, ChannelState>, c: nat): nat {
    if Decodable(channels, c) then channels[c].width else 0
  }

  /** Where the value of channel c starts: after the widths of the set channels below. */
  function Offset(channels: map<nat, ChannelState>, mask: bv32, c: nat): nat
    requires c <= CHANNELS
  {
    if c == 0 then 0 else Offset(channels, mask, c - 1) + if Bit(mask, c - 1) then Width(channels, c - 1) else 0
  }

  lemma {:induction false} OffsetMonotone(channels: map<nat, ChannelState>, mask: bv32, c: nat, d: nat)
    requires c <= d <= CHANNELS
    ensures Offset(channels, mask, c) <= Offset(channels, mask, d)
    ensures c < d && Bit(mask, c) ==> Offset(channels, mask, c) + Width(channels, c) <= Offset(channels, mask, d)
  {
    if c < d {
      OffsetMonotone(channels, mask, c, d - 1);
    }
  }

  /** The channels from c on: the first set one that cannot be decoded, or 32. */
  function FirstBad(channels: map<nat, ChannelState>, mask: bv32, c: nat): (bad: nat)
    requires c <= CHANNELS
    ensures c <= bad <= CHANNELS
    ensures forall d | c <= d < bad :: Bit(mask, d) ==> Decodable(channels, d)
    ensures bad < CHANNELS ==> Bit(mask, bad) && !Decodable(channels, bad)
    decreases CHANNELS - c
  {
    if c == CHANNELS || (Bit(mask, c) && !Decodable(channels, c)) then c else FirstBad(channels, mask, c + 1)
  }

  function ScaleSensor(value: real, a: real, b: real): real {
    if a != 1.0 || b != 0.0 then value * a + b else value
  }

  /** Scaling is a straight line: the offset at zero, and steps of the slope. */
  lemma ScalingIsLine(x: real, y: real, a: real, b: real)
    ensures ScaleSensor(0.0, a, b) == b
    ensures ScaleSensor(x, a, b) - ScaleSensor(y, a, b) == a * (x - y)
  {
  }

  function Scaled(state: ChannelState, raw: int): real {
    ScaleSensor(raw as real, state.slope, state.offset)
  }

  lemma ScaledIsLine(state: ChannelState, raw: int)
    ensures Scaled(state, raw) == state.slope * raw as real + state.offset
  {
    ScalingIsLine(raw as real, 0.0, state.slope, state.offset);
  }

  /** The value a message carries for a channel. */
  function Decoded(channels: map<nat, ChannelState>, mask: bv32, data: seq<Byte>, c: nat): real
    requires c < CHANNELS && Decodable(channels, c)
    requires Offset(channels, mask, c) + Width(channels, c) <= |data|
  {
    Scaled(channels[c], RawAt(data, Offset(channels, mask, c), channels[c].width))
  }

  /** The data a board packs for the channels of a mask below n. */
  ghost function Pack(channels: map<nat, ChannelState>, mask: bv32, raws: nat -> int, n: nat): (data: seq<Byte>)
    requires n <= CHANNELS && Packable(channels, mask, raws)
    ensures |data| == Offset(channels, mask, n)
  {
    if n == 0 then []
    else Pack(channels, mask, raws, n - 1) + if Bit(mask, n - 1) then Encode(channels[n - 1].width, raws(n - 1)) else []
  }

  ghost predicate Packable(channels: map<nat, ChannelState>, mask: bv32, raws: nat -> int) {
    forall c | 0 <= c < CHANNELS && Bit(mask, c) :: Decodable(channels, c) && Representable(channels[c].width, raws(c))
  }

  /** The packed bytes of a set channel stand at its offset. */
  lemma {:induction false} PackedAtOffset(channels: map<nat, ChannelState>, mask: bv32, raws: nat -> int, n: nat,
        c: nat, after: seq<Byte>)
    requires n <= CHANNELS && Packable(channels, mask, raws) && c < n && Bit(mask, c)
    ensures Offset(channels, mask, c) + Width(channels, c) <= Offset(channels, mask, n)
    ensures var data := Pack(channels, mask, raws, n) + after;
            RawAt(data, Offset(channels, mask, c), channels[c].width) == raws(c)
  {
    OffsetMonotone(channels, mask, c, n);
    if c == n - 1 {
      DecodeOfEncode(channels[c].width, raws(c), Pack(channels, mask, raws, c), after);
    } else {
      var last := if Bit(mask, n - 1) then Encode(channels[n - 1].width, raws(n - 1)) else [];
      PackedAtOffset(channels, mask, raws, n - 1, c, last + after);
      Associative(Pack(channels, mask, raws, n - 1), last, after);
    }
  }

  lemma PackedChannel(channels: map<nat, ChannelState>, mask: bv32, raws: nat -> int, padding: seq<Byte>, c: nat)
    requires Packable(channels, mask, raws) && c < CHANNELS && Bit(mask, c)
    ensures var data := Pack(channels, mask, raws, CHANNELS) + padding;
            && Decodable(channels, c) && Offset(channels, mask, c) + Width(channels, c) <= |data|
            && Decoded(channels, mask, data, c) == Scaled(channels[c], raws(c))
  {
    PackedAtOffset(channels, mask, raws, CHANNELS, c, padding);
  }

  lemma PackedMessageScales(channels: map<nat, ChannelState>, mask: bv32, raws: nat -> int, padding: seq<Byte>)
    requires Packable(channels, mask, raws)
    ensures FirstBad(channels, mask, 0) == CHANNELS
    ensures var data := Pack(channels, mask, raws, CHANNELS) + padding;
            forall c | 0 <= c < CHANNELS && Bit(mask, c) ::
              && Decodable(channels, c) && Offset(channels, mask, c) + Width(channels, c) <= |data|
              && Decoded(channels, mask, data, c) == Scaled(channels[c], raws(c))
  {
    var data := Pack(channels, mask, raws, CHANNELS) + padding;
    forall c | 0 <= c < CHANNELS && Bit(mask, c)
      ensures Decodable(channels, c) && Offset(channels, mask, c) + Width(channels, c) <= |data|
      ensures Decoded(channels, mask, data, c) == Scaled(channels[c], raws(c))
    {
      PackedChannel(channels, mask, raws, padding, c);
    }
  }

  /** A message packed from any set of known channels decodes, for every one of them, to slope times the value that was
      packed plus offset; nothing in it is undecodable. */
  lemma PackedMessageDecodes(channels: map<nat, ChannelState>, mask: bv32, raws: nat -> int, padding: seq<Byte>, c: nat)
    requires Packable(channels, mask, raws) && c < CHANNELS && Bit(mask, c)
    ensures FirstBad(channels, mask, 0) == CHANNELS
    ensures var data := Pack(channels, mask, raws, CHANNELS) + padding;
            && Offset(channels, mask, c) + Width(channels, c) <= |data|
            && Decoded(channels, mask, data, c) == channels[c].slope * raws(c) as real + channels[c].offset
  {
    PackedMessageScales(channels, mask, raws, padding);
    ScaledIsLine(channels[c], raws(c));
  }
}
