/** Taring: the calibration a node decodes with and the one stored in the mapping file (ResetOffset and InitializeNode
    of src/can/CANManager.cpp, src/can/CANMapping.cpp). */
module Calibrations {
  import opened Common
  import opened SensorCodec
  import opened Nodes

  /** The stored entry of a channel; either key may be missing. */
  datatype StoredChannel = StoredChannel(slope: Option<real>, offset: Option<real>)

  /** The entries that can be found under a node and a channel id. */
  type Mapping = map<(nat, nat), StoredChannel>

  datatype Calibration = Calibration(live: map<nat, map<nat, ChannelState>>, stored: Mapping)

  // -------------------------------------------------------------------- the stored side

  /** The stored scaling, with defaults for missing keys. */
  function Lookup(stored: Mapping, n: nat, c: nat): Result<(real, real)> {
    if (n, c) in stored then Ok((stored[(n, c)].slope.GetOr(1.0), stored[(n, c)].offset.GetOr(0.0))) else Throws
  }

  /** A channel is looked up with what is stored for it; one without stored keys reads its raw values, one with only a
      slope multiplies by it, one with only an offset adds it. */
  lemma LookupReads(stored: Mapping, n: nat, c: nat, width: nat, raw: int)
    requires (n, c) in stored
    ensures Lookup(stored, n, c).Ok?
    ensures var entry, scaling := stored[(n, c)], Lookup(stored, n, c).value;
            var value := Scaled(ChannelState(width, scaling.0, scaling.1), raw);
            && (entry.slope.None? && entry.offset.None? ==> value == raw as real)
            && (entry.slope.Some? && entry.offset.None? ==> value == entry.slope.value * raw as real)
            && (entry.slope.None? && entry.offset.Some? ==> value == raw as real + entry.offset.value)
            && (entry.slope.Some? && entry.offset.Some? ==>
                  value == entry.slope.value * raw as real + entry.offset.value)
  {
    var scaling := Lookup(stored, n, c).value;
    ScaledIsLine(ChannelState(width, scaling.0, scaling.1), raw);
  }

  predicate Keyed(stored: Mapping, n: nat, c: nat) {
    (n, c) in stored && stored[(n, c)].slope.Some? && stored[(n, c)].offset.Some?
  }

  /** The mapping after an attempt to overwrite a scaling: a key that is not there stops the writing. */
  function Overwritten(stored: Mapping, n: nat, c: nat, scaling: (real, real)): Mapping {
    if (n, c) !in stored || stored[(n, c)].slope.None? then stored
    else
      var entry := stored[(n, c)].(slope := Some(scaling.0));
      stored[(n, c) := if entry.offset.None? then entry else entry.(offset := Some(scaling.1))]
  }

  class CANMapping {
    var stored: Mapping

    constructor (stored: Mapping)
      ensures this.stored == stored
    {
      this.stored := stored;
    }

    method GetChannelObj(n: nat, c: nat) returns (scaling: Result<(real, real)>)
      ensures scaling == Lookup(stored, n, c)
    {
      if (n, c) !in stored {
        return Throws;
      }
      var slope, offset := 1.0, 0.0;
      if stored[(n, c)].slope.Some? {
        slope := stored[(n, c)].slope.value;
      }
      if stored[(n, c)].offset.Some? {
        offset := stored[(n, c)].offset.value;
      }
      return Ok((slope, offset));
    }

    method SetChannelObj(n: nat, c: nat, scaling: (real, real)) returns (result: Result<()>)
      modifies this
      ensures stored == Overwritten(old(stored), n, c, scaling)
      ensures result.Ok? <==> Keyed(old(stored), n, c)
    {
      if (n, c) !in stored || stored[(n, c)].slope.None? {
        return Throws;
      }
      stored := stored[(n, c) := stored[(n, c)].(slope := Some(scaling.0))];
      if stored[(n, c)].offset.None? {
        return Throws;
      }
      stored := stored[(n, c) := stored[(n, c)].(offset := Some(scaling.1))];
      return Ok(());
    }
  }

  // ----------------------------------------------------------------------- specification

  /** The tare command: node, channel and the reading that is to become zero. Answers whether it succeeded. */
  function Tared(cal: Calibration, params: seq<real>): (Calibration, bool)
    requires InRange(params)
  {
    if !Addresses(cal, params) then (cal, false)
    else
      var n, c := params[0].Floor, params[1].Floor;
      var states := Shift(cal.live[n], c, params[2]);
      (Calibration(cal.live[n := states], Overwritten(cal.stored, n, c, (states[c].slope, states[c].offset))),
       Keyed(cal.stored, n, c))
  }

  /** Ids are converted to eight bits; conversion is defined for numbers that fit. */
  predicate InRange(params: seq<real>) {
    |params| == 3 ==> 0.0 <= params[0] < 256.0 && 0.0 <= params[1] < 256.0
  }

  /** The command names a channel that has been initialised. */
  predicate Addresses(cal: Calibration, params: seq<real>)
    requires InRange(params)
  {
    |params| == 3 && params[0].Floor in cal.live && params[1].Floor in cal.live[params[0].Floor]
  }

  /** Live and stored scaling of a channel are the same. */
  predicate AgreesAt(cal: Calibration, n: nat, c: nat)
    requires n in cal.live && c in cal.live[n]
  {
    Lookup(cal.stored, n, c) == Ok((cal.live[n][c].slope, cal.live[n][c].offset))
  }

  /** A tare keeps the agreement of the channel exactly when the stored entry has both keys, unless it moves nothing;
      other channels are not affected. */
  lemma TareKeepsAgreementIff(cal: Calibration, params: seq<real>)
    requires InRange(params) && Addresses(cal, params)
    requires AgreesAt(cal, params[0].Floor, params[1].Floor)
    ensures var n, c := params[0].Floor, params[1].Floor;
            AgreesAt(Tared(cal, params).0, n, c) <==> Keyed(cal.stored, n, c) || params[2] == 0.0
    ensures forall n, c | n in cal.live && c in cal.live[n] && (n, c) != (params[0].Floor, params[1].Floor) ::
              AgreesAt(Tared(cal, params).0, n, c) <==> AgreesAt(cal, n, c)
  {
  }

  /** A value just tared by its own reading reads zero from then on. */
  lemma TaredReadingIsZero(cal: Calibration, params: seq<real>, raw: int)
    requires InRange(params) && Addresses(cal, params)
    requires params[2] == Scaled(cal.live[params[0].Floor][params[1].Floor], raw)
    ensures var n, c := params[0].Floor, params[1].Floor;
            Scaled(Tared(cal, params).0.live[n][c], raw) == 0.0
  {
    var n, c := params[0].Floor, params[1].Floor;
    var state := cal.live[n][c];
    assert Scaled(state, raw) == raw as real * state.slope + state.offset;
  }

  // ------------------------------------------------------------------------------- runs

  /** The stored scalings of the channels of a mask, if they can all be found. */
  predicate AllFound(stored: Mapping, n: nat, mask: bv32) {
    forall c: nat | c < CHANNELS && Bit(mask, c) :: (n, c) in stored
  }

  ghost function ScalingsOf(stored: Mapping, n: nat, mask: bv32): Scalings
    requires AllFound(stored, n, mask)
  {
    map c: nat | c < CHANNELS && Bit(mask, c) :: Lookup(stored, n, c).value
  }

  /** A node info message lists a type for each of its channels, of which there is at least one. */
  predicate Complete(info: NodeInfo) {
    0 < Rank(info.mask, CHANNELS) <= |info.types|
  }

  /** The types a server knows and the nodes it has a name for. */
  datatype Setup = Setup(widths: Byte -> Option<nat>, named: set<nat>)

  /** Only the first description of a node counts, and only if everything in it is known. */
  ghost predicate Accepts(cal: Calibration, setup: Setup, n: nat, info: NodeInfo) {
    && n !in cal.live && n in setup.named
    && AllFound(cal.stored, n, info.mask) && Recognised(info, setup.widths, CHANNELS)
  }

  ghost function Initialized(cal: Calibration, setup: Setup, n: nat, info: NodeInfo): Calibration
    requires Complete(info)
  {
    if Accepts(cal, setup, n, info)
    then cal.(live := cal.live[n := Built(info, ScalingsOf(cal.stored, n, info.mask), setup.widths)])
    else cal
  }

  datatype Input =
    | NodeInfoMessage(n: nat, info: NodeInfo)
    | SensorMessage(n: nat, msg: CanMessage)
    | Tare(params: seq<real>)

  predicate WellFormed(input: Input) {
    match input
    case NodeInfoMessage(_, info) => Complete(info)
    case SensorMessage(_, _) => true
    case Tare(params) => InRange(params)
  }

  ghost function Step(cal: Calibration, setup: Setup, input: Input): Calibration
    requires WellFormed(input)
  {
    match input
    case NodeInfoMessage(n, info) => Initialized(cal, setup, n, info)
    case SensorMessage(_, _) => cal
    case Tare(params) => Tared(cal, params).0
  }

  ghost predicate AllWellFormed(inputs: seq<Input>) {
    forall i | 0 <= i < |inputs| :: WellFormed(inputs[i])
  }

  /** The calibration after the first k inputs, starting without nodes. */
  ghost function Run(stored: Mapping, setup: Setup, inputs: seq<Input>, k: nat): Calibration
    requires k <= |inputs| && AllWellFormed(inputs)
  {
    if k == 0 then Calibration(map[], stored) else Step(Run(stored, setup, inputs, k - 1), setup, inputs[k - 1])
  }

  /** By how much the tares among the first k inputs moved a channel. */
  ghost function Tares(stored: Mapping, setup: Setup, inputs: seq<Input>, k: nat, n: nat, c: nat): real
    requires k <= |inputs| && AllWellFormed(inputs)
  {
    if k == 0 then 0.0
    else
      var cal, input := Run(stored, setup, inputs, k - 1), inputs[k - 1];
      Tares(stored, setup, inputs, k - 1, n, c)
      + if input.Tare? && Addresses(cal, input.params) && (input.params[0].Floor, input.params[1].Floor) == (n, c)
        then input.params[2] else 0.0
  }

  /** What holds of a channel: its stored entry keeps both keys and the initial slope, its offset has moved by the
      tares, and the live calibration, if the node is known, is the stored one. */
  ghost predicate Tracks(cal: Calibration, stored: Mapping, moved: real, n: nat, c: nat)
    requires Keyed(stored, n, c)
  {
    && Keyed(cal.stored, n, c)
    && cal.stored[(n, c)] == StoredChannel(stored[(n, c)].slope, Some(stored[(n, c)].offset.value - moved))
    && (n in cal.live && c in cal.live[n] ==> AgreesAt(cal, n, c))
  }

  /** Over any run of node descriptions, sensor messages and tares, a channel whose stored entry has slope and offset:
      live and stored calibration agree, the slope is the initial one, and the offset is the initial one minus the sum
      of the tares of this channel. */
  lemma {:induction false} TareAgreement(stored: Mapping, setup: Setup, inputs: seq<Input>, k: nat, n: nat, c: nat)
    requires k <= |inputs| && AllWellFormed(inputs) && Keyed(stored, n, c)
    ensures Tracks(Run(stored, setup, inputs, k), stored, Tares(stored, setup, inputs, k, n, c), n, c)
  {
    if k > 0 {
      TareAgreement(stored, setup, inputs, k - 1, n, c);
      var cal, input := Run(stored, setup, inputs, k - 1), inputs[k - 1];
      var moved := Tares(stored, setup, inputs, k - 1, n, c);
      match input
      case NodeInfoMessage(m, info) => InitializationTracks(cal, setup, stored, moved, m, info, n, c);
      case SensorMessage(_, _) =>
      case Tare(params) => TareTracks(cal, stored, moved, params, n, c);
    }
  }

  lemma InitializationTracks(cal: Calibration, setup: Setup, stored: Mapping, moved: real, m: nat, info: NodeInfo,
                             n: nat, c: nat)
    requires Keyed(stored, n, c) && Tracks(cal, stored, moved, n, c) && Complete(info)
    ensures Tracks(Initialized(cal, setup, m, info), stored, moved, n, c)
  {
  }

  lemma TareTracks(cal: Calibration, stored: Mapping, moved: real, params: seq<real>, n: nat, c: nat)
    requires Keyed(stored, n, c) && Tracks(cal, stored, moved, n, c) && InRange(params)
    ensures var hit := Addresses(cal, params) && (params[0].Floor, params[1].Floor) == (n, c);
            Tracks(Tared(cal, params).0, stored, moved + if hit then params[2] else 0.0, n, c)
  {
  }

  // ------------------------------------------------------------------------- the manager

  /** The manager. Of its nodes it holds what they decode with. */
  class CANManager {
    const setup: Setup
    const mapping: CANMapping
    var nodes: map<nat, map<nat, ChannelState>>

    function State(): Calibration
      reads this, mapping
    {
      Calibration(nodes, mapping.stored)
    }

    constructor (setup: Setup, mapping: CANMapping)
      ensures this.setup == setup && this.mapping == mapping && State() == Calibration(map[], mapping.stored)
    {
      this.setup, this.mapping, nodes := setup, mapping, map[];
    }

    /** The stored scalings of the channels of a mask. */
    method ChannelInfo(nodeID: nat, mask: bv32) returns (channelInfo: Result<Scalings>)
      ensures channelInfo ==
        if AllFound(mapping.stored, nodeID, mask) then Ok(ScalingsOf(mapping.stored, nodeID, mask)) else Throws
    {
      var scalings: Scalings := map[];
      for channelID := 0 to CHANNELS
        invariant forall c | c in scalings :: c < channelID && Bit(mask, c)
        invariant forall c: nat | c < channelID && Bit(mask, c) ::
                    c in scalings && Ok(scalings[c]) == Lookup(mapping.stored, nodeID, c)
      {
        if Bit(mask, channelID) {
          var obj := mapping.GetChannelObj(nodeID, channelID);
          if obj.Throws? {
            assert !AllFound(mapping.stored, nodeID, mask);
            return Throws;
          }
          scalings := scalings[channelID := obj.value];
        }
      }
      assert forall c: nat | c < CHANNELS && Bit(mask, c) :: Ok(scalings[c]) == Lookup(mapping.stored, nodeID, c);
      assert AllFound(mapping.stored, nodeID, mask);
      assert scalings == ScalingsOf(mapping.stored, nodeID, mask);
      return Ok(scalings);
    }

    /** Creates a node; answers what it decodes with. */
    method CreateNode(info: NodeInfo, channelInfo: Scalings) returns (states: Result<map<nat, ChannelState>>)
      requires Complete(info) && Described(info, channelInfo)
      ensures states ==
        if Recognised(info, setup.widths, CHANNELS) then Ok(Built(info, channelInfo, setup.widths)) else Throws
    {
      var node := NewNode(info, channelInfo, setup.widths);
      if node.Throws? {
        return Throws;
      }
      StatesAre(node.value, Built(info, channelInfo, setup.widths));
      return Ok(node.value.States());
    }

    /** A node info message: the first one that is fully known creates the node. */
    method InitializeNode(nodeID: nat, info: NodeInfo) returns (result: Result<()>)
      requires Complete(info)
      modifies this`nodes
      ensures State() == Initialized(old(State()), setup, nodeID, info)
      ensures result.Ok? == (nodeID in old(nodes) || Accepts(old(State()), setup, nodeID, info))
    {
      if nodeID in nodes {
        return Ok(());
      }
      if nodeID !in setup.named {
        return Throws;
      }
      var channelInfo := ChannelInfo(nodeID, info.mask);
      if channelInfo.Throws? {
        return Throws;
      }
      var node := CreateNode(info, channelInfo.value);
      if node.Throws? {
        return Throws;
      }
      nodes := nodes[nodeID := node.value];
      return Ok(());
    }

    /** The tare command: first the live calibration, then the stored one. */
    method ResetOffset(params: seq<real>) returns (result: Result<()>)
      requires InRange(params)
      modifies this`nodes, mapping
      ensures State() == Tared(old(State()), params).0
      ensures result.Ok? == Tared(old(State()), params).1
    {
      if |params| != 3 {
        return Throws;
      }
      var nodeID, channelID := params[0].Floor, params[1].Floor;
      if nodeID !in nodes || channelID !in nodes[nodeID] {
        return Throws;
      }
      nodes := nodes[nodeID := Shift(nodes[nodeID], channelID, params[2])];
      var newScaling := (nodes[nodeID][channelID].slope, nodes[nodeID][channelID].offset);
      var obj := mapping.GetChannelObj(nodeID, channelID);
      if obj.Throws? {
        return Throws;
      }
      result := mapping.SetChannelObj(nodeID, channelID, newScaling);
    }
  }

  lemma StatesAre(node: Node, states: map<nat, ChannelState>)
    requires node.Calibrated(states)
    ensures node.States() == states
  {
  }
}
