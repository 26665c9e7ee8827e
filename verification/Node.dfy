/** The channels of a board and the decoding of its sensor messages (src/can/Node.cpp, src/can/Channel.cpp). */
module Nodes {
  import opened Common
  import opened SensorCodec

  /** A byte moved to its place in an integer. */
  function Shifted(b: Byte, place: nat): int {
    var i: int := b;
    i * place
  }

  class Channel {
    /** The bytes a value of this channel takes in a sensor message. */
    const typeSize: nat
    var slope: real
    var offset: real

    constructor (typeSize: nat, slope: real, offset: real)
      ensures State() == ChannelState(typeSize, slope, offset)
    {
      this.typeSize, this.slope, this.offset := typeSize, slope, offset;
    }

    function State(): ChannelState
      reads this
    {
      ChannelState(typeSize, slope, offset)
    }

    /** The integer found at position p, assembled byte by byte, least significant first. */
    method AssembleValue(data: seq<Byte>, p: nat) returns (intValue: int)
      requires 1 <= typeSize <= 4 && p + typeSize <= |data|
      ensures intValue == RawAt(data, p, typeSize)
    {
      intValue := data[p];
      if typeSize >= 2 {
        intValue := intValue + Shifted(data[p + 1], 0x100);
      }
      if typeSize >= 3 {
        intValue := intValue + Shifted(data[p + 2], 0x1_0000);
      }
      if typeSize == 3 && data[p + 2] >= 0x80 {
        intValue := intValue - 0x100_0000;
      }
      if typeSize == 4 {
        intValue := intValue + Shifted(data[p + 3], 0x100_0000);
        if intValue >= 0x8000_0000 {
          intValue := intValue - 0x1_0000_0000;
        }
      }
      RawIsShifted(data, p, typeSize);
      SignBit(data, p, typeSize);
    }

    /** The width and the scaled value found at position p of the message data. */
    method GetSensorValue(data: seq<Byte>, p: nat) returns (result: Result<(nat, real)>)
      requires 1 <= typeSize <= 4 ==> p + typeSize <= |data|
      ensures result ==
        if 1 <= typeSize <= 4 then Ok((typeSize, Scaled(State(), RawAt(data, p, typeSize)))) else Throws
    {
      if !(1 <= typeSize <= 4) {
        return Throws;
      }
      var intValue := AssembleValue(data, p);
      return Ok((typeSize, ScaleSensor(intValue as real, slope, offset)));
    }

    /** Moves the zero of the sensor to the value given; answers the new scaling. */
    method ResetSensorOffset(params: seq<real>) returns (scaling: Result<(real, real)>)
      modifies this`offset
      ensures scaling == if |params| == 1 then Ok((slope, offset)) else Throws
      ensures offset == if |params| == 1 then old(offset) - params[0] else old(offset)
    {
      if |params| != 1 {
        return Throws;
      }
      offset := offset - params[0];
      return Ok((slope, offset));
    }
  }

  lemma RawIsShifted(data: seq<Byte>, p: nat, width: nat)
    requires 1 <= width <= 4 && p + width <= |data|
    ensures Unsigned(data, p, width) ==
            Shifted(data[p], 1) + (if width >= 2 then Shifted(data[p + 1], 0x100) else 0)
            + (if width >= 3 then Shifted(data[p + 2], 0x1_0000) else 0)
            + if width >= 4 then Shifted(data[p + 3], 0x100_0000) else 0
    ensures Power(3) == 0x100_0000 && Power(4) == 0x1_0000_0000
  {
    Powers();
    assert Unsigned(data, p, width) == Join(data[p], Unsigned(data, p + 1, width - 1));
    if width >= 2 {
      assert Unsigned(data, p + 1, width - 1) == Join(data[p + 1], Unsigned(data, p + 2, width - 2));
    }
    if width >= 3 {
      assert Unsigned(data, p + 2, width - 2) == Join(data[p + 2], Unsigned(data, p + 3, width - 3));
    }
    if width >= 4 {
      assert Unsigned(data, p + 3, width - 3) == Join(data[p + 3], Unsigned(data, p + 4, width - 4));
    }
  }

  // ------------------------------------------------------------------ the node itself

  /** What a board says about itself: a mask of channels and, for each set bit in turn, a channel type. */
  datatype NodeInfo = NodeInfo(mask: bv32, types: seq<Byte>)

  /** A message as received. Whether it is addressed to the generic channel and whether its command is a data response
      are the two comparisons the node makes on its header. */
  datatype CanMessage = CanMessage(length: nat, generic: bool, dataResponse: bool, mask: bv32, data: seq<Byte>)

  datatype SensorData = SensorData(value: real, timestamp: nat)

  /** The width of channel c: that of the type listed at the rank of its bit, if it is a recognised type. */
  function TypeOf(info: NodeInfo, widths: Byte -> Option<nat>, c: nat): Option<nat>
    requires c < CHANNELS
  {
    if Rank(info.mask, c) < |info.types| then widths(info.types[Rank(info.mask, c)]) else None
  }

  /** The types named for the set bits below n are recognised. */
  predicate Recognised(info: NodeInfo, widths: Byte -> Option<nat>, n: nat)
    requires n <= CHANNELS
  {
    forall c | 0 <= c < n && Bit(info.mask, c) :: TypeOf(info, widths, c).Some?
  }

  lemma {:induction false} RankBelow(mask: bv32, c: nat, d: nat)
    requires c <= d <= CHANNELS
    ensures Rank(mask, c) <= Rank(mask, d)
    ensures c < d && Bit(mask, c) ==> Rank(mask, c) < Rank(mask, d)
  {
    if c < d {
      RankBelow(mask, c, d - 1);
    }
  }

  predicate IsSensorData(msg: CanMessage) {
    msg.length >= 2 && msg.generic && msg.dataResponse
  }

  type Scalings = map<nat, (real, real)>

  /** Every set channel has a type entry and a stored scaling. */
  ghost predicate Described(info: NodeInfo, scalings: Scalings) {
    && Rank(info.mask, CHANNELS) <= |info.types|
    && forall c | 0 <= c < CHANNELS && Bit(info.mask, c) :: c in scalings
  }

  /** The channels a board describes: one for each set bit. */
  ghost function Built(info: NodeInfo, scalings: Scalings, widths: Byte -> Option<nat>): map<nat, ChannelState>
    requires Described(info, scalings) && Recognised(info, widths, CHANNELS)
  {
    map c: nat | c < CHANNELS && Bit(info.mask, c) ::
      ChannelState(TypeOf(info, widths, c).value, scalings[c].0, scalings[c].1)
  }

  class Node {
    var channels: map<nat, Channel>
    var latestSensorBuffer: array<SensorData>
    var count: nat

    ghost predicate Valid()
      reads this
    {
      && (forall c | c in channels :: c < latestSensorBuffer.Length <= CHANNELS)
      && Distinct(channels)
    }

    /** The calibration the node decodes with. */
    function States(): map<nat, ChannelState>
      reads this`channels, channels.Values
    {
      map c | c in channels :: channels[c].State()
    }

    ghost predicate Calibrated(states: map<nat, ChannelState>)
      reads this`channels, channels.Values
    {
      channels.Keys == states.Keys && forall c | c in channels :: channels[c].State() == states[c]
    }

    constructor (channels: map<nat, Channel>, top: nat)
      requires Distinct(channels) && top < CHANNELS && forall c | c in channels :: c <= top
      ensures Valid() && this.channels == channels && fresh(latestSensorBuffer) && count == 0
      ensures latestSensorBuffer.Length == top + 1
      ensures forall i | 0 <= i <= top :: latestSensorBuffer[i] == SensorData(0.0, 0)
    {
      this.channels, count := channels, 0;
      latestSensorBuffer := new SensorData[top + 1](i => SensorData(0.0, 0));
    }

    /** Moves the zero of one channel; answers its new scaling. */
    method ResetSensorOffset(params: seq<real>, ghost states: map<nat, ChannelState>) returns (scaling: Result<(real,
          real)>)
      requires Valid() && Calibrated(states)
      requires |params| == 2 ==> 0.0 <= params[0] < 256.0
      modifies channels.Values
      ensures Valid()
      ensures scaling.Ok? <==> |params| == 2 && params[0].Floor in channels
      ensures scaling.Throws? ==> Calibrated(states)
      ensures scaling.Ok? ==>
                var after := Shift(states, params[0].Floor, params[1]);
                Calibrated(after) && scaling.value == (after[params[0].Floor].slope, after[params[0].Floor].offset)
      ensures forall c | c in channels && (scaling.Throws? || c != params[0].Floor) :: unchanged(channels[c])
    {
      if |params| != 2 {
        return Throws;
      }
      var channelID := params[0].Floor;
      if channelID !in channels {
        return Throws;
      }
      assert channels[channelID].State() == states[channelID];
      scaling := channels[channelID].ResetSensorOffset(params[1..]);
    }

    /** Adopts the value of one channel; answers its width. */
    method AdoptValue(channelID: nat, data: seq<Byte>, valuePtr: nat, timestamp: nat, ghost states: map<nat,
          ChannelState>)
      returns (width: Result<nat>)
      requires Valid() && Calibrated(states)
      requires Decodable(states, channelID) ==> valuePtr + states[channelID].width <= |data|
      modifies latestSensorBuffer
      ensures width == if Decodable(states, channelID) then Ok(states[channelID].width) else Throws
      ensures width.Throws? ==> latestSensorBuffer[..] == old(latestSensorBuffer[..])
      ensures width.Ok? ==>
                var raw := RawAt(data, valuePtr, width.value);
                latestSensorBuffer[..] ==
                  old(latestSensorBuffer[..])[channelID := SensorData(Scaled(states[channelID], raw), timestamp)]
    {
      if channelID !in channels {
        return Throws;
      }
      assert channels[channelID].State() == states[channelID];
      var reading := channels[channelID].GetSensorValue(data, valuePtr);
      if reading.Throws? {
        return Throws;
      }
      latestSensorBuffer[channelID] := SensorData(reading.value.1, timestamp);
      return Ok(reading.value.0);
    }

    /** The decoding loop: adopts every value of a message up to the first channel that is not known. */
    method DecodeValues(msg: CanMessage, timestamp: nat, ghost states: map<nat, ChannelState>) returns (known: bool)
      requires Valid() && Calibrated(states) && Readable(states, msg)
      modifies latestSensorBuffer
      ensures var bad := FirstBad(states, msg.mask, 0);
              && known == (bad == CHANNELS)
              && latestSensorBuffer[..] == Written(states, msg, timestamp, bad, old(latestSensorBuffer[..]))
    {
      ghost var before := latestSensorBuffer[..];
      var valuePtr := 0;
      for channelID := 0 to CHANNELS
        invariant Valid() && Calibrated(states)
        invariant channelID <= FirstBad(states, msg.mask, 0) == FirstBad(states, msg.mask, channelID)
        invariant valuePtr == Offset(states, msg.mask, channelID)
        invariant latestSensorBuffer[..] == Written(states, msg, timestamp, channelID, before)
      {
        Advance(states, msg, channelID);
        if Bit(msg.mask, channelID) {
          var width := AdoptValue(channelID, msg.data, valuePtr, timestamp, states);
          if width.Throws? {
            return false;
          }
          valuePtr := valuePtr + width.value;
        }
      }
      return true;
    }

    /** A sensor message is counted and decoded; what is not a sensor message is refused. */
    method ProcessSensorDataAndWriteToRingBuffer(msg: CanMessage, timestamp: nat, ghost states: map<nat, ChannelState>)
      returns (result: Result<()>)
      requires Valid() && Calibrated(states)
      requires IsSensorData(msg) ==> Readable(states, msg)
      modifies latestSensorBuffer, this`count
      ensures Valid() && Calibrated(states)
      ensures msg.length < 2 || !msg.generic || !msg.dataResponse ==>
                result.Throws? && latestSensorBuffer[..] == old(latestSensorBuffer[..]) && count == old(count)
      ensures msg.length >= 2 && msg.generic && msg.dataResponse ==>
                var bad := FirstBad(states, msg.mask, 0);
                && count == old(count) + 1
                && result.Ok? == (bad == CHANNELS)
                && Adopted(states, msg, timestamp, bad, old(latestSensorBuffer[..]), latestSensorBuffer[..])
    {
      if msg.length < 2 || !msg.generic || !msg.dataResponse {
        return Throws;
      }
      count := count + 1;
      WrittenIsAdopted(states, msg, timestamp, FirstBad(states, msg.mask, 0), latestSensorBuffer[..]);
      var known := DecodeValues(msg, timestamp, states);
      return if known then Ok(()) else Throws;
    }
  }

  /** The calibration after the zero of channel c has been moved by a value. */
  function Shift(states: map<nat, ChannelState>, c: nat, value: real): map<nat, ChannelState>
    requires c in states
  {
    states[c := states[c].(offset := states[c].offset - value)]
  }

  ghost predicate Distinct(channels: map<nat, Channel>) {
    forall c, d | c in channels && d in channels && c != d :: channels[c] != channels[d]
  }

  /** The message holds the values of all channels the node reads before it gives up. */
  ghost predicate Readable(states: map<nat, ChannelState>, msg: CanMessage) {
    Offset(states, msg.mask, FirstBad(states, msg.mask, 0)) <= |msg.data|
  }

  lemma ReadInside(states: map<nat, ChannelState>, msg: CanMessage, c: nat)
    requires Readable(states, msg) && c < FirstBad(states, msg.mask, 0)
    ensures Offset(states, msg.mask, c) <= |msg.data|
    ensures Bit(msg.mask, c) ==>
              Decodable(states, c) && Offset(states, msg.mask, c) + states[c].width <= |msg.data|
  {
    OffsetMonotone(states, msg.mask, c, FirstBad(states, msg.mask, 0));
  }

  /** The entry of channel c after a message was read up to channel n. */
  ghost function Entry(states: map<nat, ChannelState>, msg: CanMessage, timestamp: nat, n: nat, c: nat,
                       before: SensorData): SensorData
    requires Readable(states, msg) && n <= FirstBad(states, msg.mask, 0)
  {
    if c < n && Bit(msg.mask, c)
    then (ReadInside(states, msg, c); SensorData(Decoded(states, msg.mask, msg.data, c), timestamp))
    else before
  }

  /** Each set channel below n has its own value and the time of the message, all others are as before. */
  ghost predicate Adopted(states: map<nat, ChannelState>, msg: CanMessage, timestamp: nat, n: nat,
                          before: seq<SensorData>, after: seq<SensorData>)
    requires Readable(states, msg) && n <= FirstBad(states, msg.mask, 0)
  {
    && |after| == |before|
    && forall c | 0 <= c < |after| :: after[c] == Entry(states, msg, timestamp, n, c, before[c])
  }

  /** The buffer after the writes for the channels below n, one after the other. */
  ghost function Written(states: map<nat, ChannelState>, msg: CanMessage, timestamp: nat, n: nat,
                         before: seq<SensorData>): (after: seq<SensorData>)
    requires Readable(states, msg) && n <= FirstBad(states, msg.mask, 0)
    ensures |after| == |before|
  {
    if n == 0 then before
    else
      var previous := Written(states, msg, timestamp, n - 1, before);
      if Bit(msg.mask, n - 1) && n - 1 < |before| then
        previous[n - 1 := Entry(states, msg, timestamp, n, n - 1, before[n - 1])]
      else previous
  }

  /** No write touches the entry of another channel. */
  lemma {:induction false} WrittenIsAdopted(states: map<nat, ChannelState>, msg: CanMessage, timestamp: nat, n: nat,
                                            before: seq<SensorData>)
    requires Readable(states, msg) && n <= FirstBad(states, msg.mask, 0)
    ensures Adopted(states, msg, timestamp, n, before, Written(states, msg, timestamp, n, before))
  {
    if n > 0 {
      WrittenIsAdopted(states, msg, timestamp, n - 1, before);
      forall c | 0 <= c < |before| && c != n - 1
        ensures Entry(states, msg, timestamp, n, c, before[c]) == Entry(states, msg, timestamp, n - 1, c, before[c])
      {
      }
    }
  }

  /** At channel c the node stops when the channel is set and unknown, and otherwise goes on, reading inside the
      message. */
  lemma Advance(states: map<nat, ChannelState>, msg: CanMessage, c: nat)
    requires Readable(states, msg) && c < CHANNELS
    requires c <= FirstBad(states, msg.mask, 0) == FirstBad(states, msg.mask, c)
    ensures Bit(msg.mask, c) && !Decodable(states, c) ==> FirstBad(states, msg.mask, 0) == c
    ensures Bit(msg.mask, c) && Decodable(states, c) ==> Offset(states, msg.mask, c) + states[c].width <= |msg.data|
    ensures !Bit(msg.mask, c) || Decodable(states, c) ==>
              c < FirstBad(states, msg.mask, 0) == FirstBad(states, msg.mask, c + 1)
    ensures Offset(states, msg.mask, c + 1) ==
            Offset(states, msg.mask, c) + if Bit(msg.mask, c) then Width(states, c) else 0
  {
    if !Bit(msg.mask, c) || Decodable(states, c) {
      ReadInside(states, msg, c);
    }
  }

  // --------------------------------------------------------------------- construction

  /** The channels below n have been built as described, each an object of its own. */
  ghost predicate BuiltBelow(info: NodeInfo, scalings: Scalings, widths: Byte -> Option<nat>, n: nat,
                             channels: map<nat, Channel>)
    reads channels.Values
    requires n <= CHANNELS && Described(info, scalings) && Recognised(info, widths, n)
  {
    && (forall c | c in channels :: c < n && Bit(info.mask, c)
          && channels[c].State() == ChannelState(TypeOf(info, widths, c).value, scalings[c].0, scalings[c].1))
    && (forall c | 0 <= c < n && Bit(info.mask, c) :: c in channels)
    && Distinct(channels)
  }

  /** Creates the channels a board describes, unless it names a type that is not recognised. */
  method InitChannels(info: NodeInfo, scalings: Scalings, widths: Byte -> Option<nat>)
    returns (channelMap: Result<map<nat, Channel>>)
    requires Described(info, scalings)
    ensures channelMap.Ok? <==> Recognised(info, widths, CHANNELS)
    ensures channelMap.Ok? ==> BuiltBelow(info, scalings, widths, CHANNELS, channelMap.value)
    ensures channelMap.Ok? ==> forall c | c in channelMap.value :: fresh(channelMap.value[c])
  {
    var channels: map<nat, Channel> := map[];
    var indexCounter := 0;
    for channelID := 0 to CHANNELS
      invariant indexCounter == Rank(info.mask, channelID)
      invariant Recognised(info, widths, channelID)
      invariant BuiltBelow(info, scalings, widths, channelID, channels)
      invariant forall c | c in channels :: fresh(channels[c])
    {
      RankBelow(info.mask, channelID, CHANNELS);
      if Bit(info.mask, channelID) {
        var width := widths(info.types[indexCounter]);
        if width.None? {
          return Throws;
        }
        var channel := new Channel(width.value, scalings[channelID].0, scalings[channelID].1);
        OneMoreBuilt(info, scalings, widths, channelID, channels, channel);
        channels := channels[channelID := channel];
        indexCounter := indexCounter + 1;
      }
    }
    return Ok(channels);
  }

  lemma OneMoreBuilt(info: NodeInfo, scalings: Scalings, widths: Byte -> Option<nat>, n: nat,
                     channels: map<nat, Channel>, channel: Channel)
    requires n < CHANNELS && Described(info, scalings) && Recognised(info, widths, n + 1) && Bit(info.mask, n)
    requires BuiltBelow(info, scalings, widths, n, channels) && channel !in channels.Values
    requires channel.State() == ChannelState(TypeOf(info, widths, n).value, scalings[n].0, scalings[n].1)
    ensures BuiltBelow(info, scalings, widths, n + 1, channels[n := channel])
  {
  }

  /** The highest channel id. */
  method LastKey(channels: map<nat, Channel>) returns (top: nat)
    requires channels != map[] && forall c | c in channels :: c < CHANNELS
    ensures top in channels && forall c | c in channels :: c <= top
  {
    top := CHANNELS - 1;
    while top !in channels
      invariant forall c | c in channels :: c <= top
      decreases top
    {
      assert exists c :: c in channels;
      top := top - 1;
    }
  }

  lemma BuiltChannels(info: NodeInfo, scalings: Scalings, widths: Byte -> Option<nat>, channels: map<nat, Channel>)
    requires Described(info, scalings) && Recognised(info, widths, CHANNELS)
    requires BuiltBelow(info, scalings, widths, CHANNELS, channels)
    ensures channels.Keys == Built(info, scalings, widths).Keys
    ensures forall c | c in channels :: channels[c].State() == Built(info, scalings, widths)[c]
  {
  }

  /** A node for a board that describes at least one channel. The buffer reaches up to the highest channel. */
  method NewNode(info: NodeInfo, scalings: Scalings, widths: Byte -> Option<nat>) returns (result: Result<Node>)
    requires Described(info, scalings) && Rank(info.mask, CHANNELS) > 0
    ensures result.Ok? <==> Recognised(info, widths, CHANNELS)
    ensures result.Ok? ==>
              var node := result.value;
              && fresh(node) && fresh(node.latestSensorBuffer)
                  && (forall c | c in node.channels :: fresh(node.channels[c]))
              && node.Valid() && node.Calibrated(Built(info, scalings, widths))
              && node.latestSensorBuffer.Length - 1 in node.channels
              && forall i | 0 <= i < node.latestSensorBuffer.Length :: node.latestSensorBuffer[i] == SensorData(0.0, 0)
  {
    var channelMap := InitChannels(info, scalings, widths);
    if channelMap.Throws? {
      return Throws;
    }
    SomeBit(info.mask, CHANNELS);
    var top := LastKey(channelMap.value);
    BuiltChannels(info, scalings, widths, channelMap.value);
    var node := new Node(channelMap.value, top);
    return Ok(node);
  }

  lemma {:induction false} SomeBit(mask: bv32, n: nat)
    requires n <= CHANNELS && Rank(mask, n) > 0
    ensures exists c | 0 <= c < n :: Bit(mask, c)
  {
    if !Bit(mask, n - 1) {
      SomeBit(mask, n - 1);
    }
  }

  // ----------------------------------------------------------- description and messages

  /** The widths of the first n type entries of a board added up. */
  function TypeWidths(info: NodeInfo, widths: Byte -> Option<nat>, n: nat): nat
    requires n <= |info.types|
  {
    if n == 0 then 0
    else TypeWidths(info, widths, n - 1) + widths(info.types[n - 1]).GetOr(0)
  }

  /** Channel c, if the board has it, has one to four bytes. */
  predicate Sized(info: NodeInfo, widths: Byte -> Option<nat>, c: nat)
    requires c < CHANNELS
  {
    Bit(info.mask, c) ==> TypeOf(info, widths, c).Some? && 1 <= TypeOf(info, widths, c).value <= 4
  }

  /** In a message with all channels the values follow one another as the board lists their types: channel c starts
      after the widths of the type entries before its own. */
  lemma {:induction false} OffsetFollowsTypes(info: NodeInfo, scalings: Scalings, widths: Byte -> Option<nat>, c: nat)
    requires c <= CHANNELS && Described(info, scalings) && Recognised(info, widths, CHANNELS)
    requires forall d | 0 <= d < c :: Sized(info, widths, d)
    ensures Rank(info.mask, c) <= |info.types|
    ensures Offset(Built(info, scalings, widths), info.mask, c) == TypeWidths(info, widths, Rank(info.mask, c))
  {
    RankBelow(info.mask, c, CHANNELS);
    if c > 0 {
      OffsetFollowsTypes(info, scalings, widths, c - 1);
      assert Sized(info, widths, c - 1);
    }
  }

  /** The board has the channels it packs, and their values fit the types it described. */
  ghost predicate Sendable(info: NodeInfo, widths: Byte -> Option<nat>, mask: bv32, raws: nat -> int) {
    forall c | 0 <= c < CHANNELS && Bit(mask, c) ::
      Bit(info.mask, c) && Sized(info, widths, c) && Representable(TypeOf(info, widths, c).value, raws(c))
  }

  lemma DescribedBoardPacks(info: NodeInfo, scalings: Scalings, widths: Byte -> Option<nat>, mask: bv32,
                            raws: nat -> int)
    requires Described(info, scalings) && Recognised(info, widths, CHANNELS) && Sendable(info, widths, mask, raws)
    ensures Packable(Built(info, scalings, widths), mask, raws)
  {
  }

  /** A board whose description was accepted can send any part of its channels: with the values packed in the order of
      the ids the node reads every one of them, at its sign-correct scaled value, and none fails. */
  lemma DescribedBoardIsUnderstood(info: NodeInfo, scalings: Scalings, widths: Byte -> Option<nat>, mask: bv32,
                                   raws: nat -> int, padding: seq<Byte>, length: nat, c: nat, timestamp: nat,
                                   before: SensorData)
    requires Described(info, scalings) && Recognised(info, widths, CHANNELS) && Sendable(info, widths, mask, raws)
    requires c < 32
    ensures var states := Built(info, scalings, widths);
            Packable(states, mask, raws) &&
            var msg := CanMessage(length, true, true, mask, Pack(states, mask, raws, CHANNELS) + padding);
            && FirstBad(states, mask, 0) == CHANNELS && Readable(states, msg)
            && Entry(states, msg, timestamp, CHANNELS, c, before) ==
                 if Bit(mask, c)
                 then SensorData(scalings[c].0 * raws(c) as real + scalings[c].1, timestamp)
                 else before
  {
    var states := Built(info, scalings, widths);
    DescribedBoardPacks(info, scalings, widths, mask, raws);
    PackedMessageScales(states, mask, raws, padding);
    if Bit(mask, c) {
      ScaledIsLine(states[c], raws(c));
      assert states[c].slope == scalings[c].0 && states[c].offset == scalings[c].1;
    }
  }
}
