/** Test sequences as the web client sends them, and the table writes they stand for. */
module Sequences {
  import opened Common
  import opened Interpolation
  import opened SequenceTables

  /** A timestamp value: the two keywords, any other text, a number of seconds, or nothing usable. */
  datatype Stamp = Start | End | OtherText | Number(seconds: real) | Unusable

  /** The names for which ranges may be set: a JSON array or a JSON object with those keys. */
  datatype RangeNames = NameArray(names: seq<string>) | NameObject(keys: set<string>)

  /** One sensor of a sensorsNominalRange object; None when its value is not a pair. */
  datatype SensorRange = SensorRange(sensor: string, range: Option<Range>)

  datatype Item = Device(name: string, values: Values) | NominalRanges(sensors: seq<SensorRange>)

  datatype Action = Action(stamp: Stamp, items: seq<Item>)

  datatype Group = Group(stamp: Stamp, actions: seq<Action>)

  datatype Globals = Globals(
    startTime: real, endTime: real, interval: real,
    interpolation: map<string, string>, ranges: RangeNames)

  datatype Sequence = Sequence(globals: Globals, data: seq<Group>)

  /** Seconds to microseconds, truncated towards zero. */
  function ToMicros(seconds: real): int {
    Truncate(seconds * 1000000.0)
  }

  predicate IsText(stamp: Stamp) {
    stamp.Start? || stamp.End? || stamp.OtherText?
  }

  function Timestamp(g: Globals, stamp: Stamp): real {
    match stamp
    case Start => g.startTime
    case End => g.endTime
    case Number(x) => x
    case OtherText => 0.0
    case Unusable => 0.0
  }

  /** contains() of a JSON value finds keys of objects only. */
  predicate Declared(ranges: RangeNames, sensor: string) {
    ranges.NameObject? && sensor in ranges.keys
  }

  // ------------------------------------------------------------------ acceptance

  /** A range must be a pair of numbers, whether its sensor is declared or not. */
  predicate AcceptedRange(s: SensorRange) {
    s.range.Some?
  }

  predicate AcceptedItem(item: Item) {
    item.NominalRanges? ==> AllUpTo(AcceptedRange, item.sensors, |item.sensors|)
  }

  predicate AcceptedStamp(g: Globals, a: Action) {
    !IsText(a.stamp) && ToMicros(Timestamp(g, a.stamp)) >= 0
  }

  function AcceptsAction(g: Globals): Action -> bool {
    (a: Action) => AcceptedStamp(g, a) && AllUpTo(AcceptedItem, a.items, |a.items|)
  }

  function AcceptsGroup(g: Globals): Group -> bool {
    (group: Group) => AllUpTo(AcceptsAction(g), group.actions, |group.actions|)
  }

  predicate Accepted(s: Sequence) {
    AllUpTo(AcceptsGroup(s.globals), s.data, |s.data|)
  }

  /** A sequence is accepted when every action of every group has an acceptable time and only pairs as ranges. */
  lemma AcceptedIff(s: Sequence)
    ensures Accepted(s)
        <==> forall group, a | group in s.data && a in group.actions ::
               AcceptedStamp(s.globals, a)
               && forall item | item in a.items && item.NominalRanges? ::
                    forall r | r in item.sensors :: r.range.Some?
  {
    var g := s.globals;
    AllUpToIff(AcceptsGroup(g), s.data, |s.data|);
    forall group: Group ensures AcceptsGroup(g)(group) <==> forall a | a in group.actions :: AcceptsAction(g)(a) {
      AllUpToIff(AcceptsAction(g), group.actions, |group.actions|);
    }
    forall a: Action
      ensures AcceptsAction(g)(a) <==> (AcceptedStamp(g, a) && forall item | item in a.items :: AcceptedItem(item))
    {
      AllUpToIff(AcceptedItem, a.items, |a.items|);
    }
    forall item: Item
      ensures AcceptedItem(item) <==> (item.NominalRanges? ==> forall r | r in item.sensors :: r.range.Some?)
    {
      if item.NominalRanges? {
        AllUpToIff(AcceptedRange, item.sensors, |item.sensors|);
      }
    }
  }

  // ---------------------------------------------------------------------- writes

  function RangeWriter(g: Globals, time: int): SensorRange -> seq<Write> {
    (s: SensorRange) =>
      if s.range.Some? && Declared(g.ranges, s.sensor) then [RangeWrite(s.sensor, time, s.range.value)] else []
  }

  function ItemWriter(g: Globals, time: int): Item -> seq<Write> {
    (item: Item) =>
      match item
      case Device(d, values) => [DeviceWrite(d, time, values)]
      case NominalRanges(sensors) => FlatMap(RangeWriter(g, time), sensors)
  }

  /** An action happens at its group's time plus its own. */
  function ActionTime(g: Globals, base: Stamp, a: Action): int {
    ToMicros(Timestamp(g, a.stamp)) + ToMicros(Timestamp(g, base))
  }

  function ActionWriter(g: Globals, base: Stamp): Action -> seq<Write> {
    (a: Action) => FlatMap(ItemWriter(g, ActionTime(g, base, a)), a.items)
  }

  function GroupWriter(g: Globals): Group -> seq<Write> {
    (group: Group) => FlatMap(ActionWriter(g, group.stamp), group.actions)
  }

  function Writes(s: Sequence): seq<Write> {
    FlatMap(GroupWriter(s.globals), s.data)
  }

  /** The tables an accepted sequence compiles to. */
  function Compiled(s: Sequence): Tables {
    ApplyAll(EMPTY_TABLES, Writes(s))
  }

  // ------------------------------------------------------------------ properties

  /** An action time is accepted when it is a number that is not negative once truncated to microseconds, or neither a
      number nor a text. */
  lemma StampAcceptedIff(g: Globals, a: Action)
    ensures AcceptedStamp(g, a)
        <==> (a.stamp.Number? && a.stamp.seconds * 1000000.0 > -1.0) || a.stamp == Unusable
  {
  }

  /** One action with a negative time or a text as time rejects the whole sequence. */
  lemma NegativeActionIsRejected(s: Sequence, group: Group, a: Action)
    requires group in s.data && a in group.actions
    requires a.stamp == Start || a.stamp == End || a.stamp == OtherText
             || (a.stamp.Number? && a.stamp.seconds * 1000000.0 <= -1.0)
    ensures !Accepted(s)
  {
    AcceptedIff(s);
    StampAcceptedIff(s.globals, a);
  }

  /** Per device, time and sensor the compiled tables hold the final write, in sorted, dual-indexed form. */
  lemma CompiledIsFinalWrites(s: Sequence, key: Write)
    ensures Stored(Compiled(s), key) == LastWrite(Writes(s), key)
    ensures Valid(Compiled(s)) && Dual(Compiled(s))
  {
    ApplyAllValid(EMPTY_TABLES, Writes(s));
    LoadIsLastWins(Writes(s), key);
    LoadIsDual(Writes(s));
  }

  /** Reordering the groups of a sequence without colliding writes compiles to the same tables. */
  lemma ReorderingGroups(s: Sequence, groups: seq<Group>)
    requires NoCollision(Writes(s)) && multiset(groups) == multiset(s.data)
    ensures Compiled(s.(data := groups)) == Compiled(s)
  {
    FlatMapPermutation(GroupWriter(s.globals), s.data, groups);
    ReorderingKeepsTables(Writes(s), Writes(s.(data := groups)));
  }

  /** So does reordering the actions inside one group. */
  lemma ReorderingActions(s: Sequence, i: nat, actions: seq<Action>)
    requires i < |s.data| && NoCollision(Writes(s)) && multiset(actions) == multiset(s.data[i].actions)
    ensures Compiled(s.(data := s.data[i := s.data[i].(actions := actions)])) == Compiled(s)
  {
    var f, group, changed := GroupWriter(s.globals), s.data[i], s.data[i].(actions := actions);
    var before, after := s.data[..i], s.data[i + 1..];
    assert s.data == before + [group] + after;
    assert s.data[i := changed] == before + [changed] + after;
    WritesAround(f, before, group, after);
    WritesAround(f, before, changed, after);
    FlatMapPermutation(ActionWriter(s.globals, group.stamp), group.actions, actions);
    ReorderingKeepsTables(Writes(s), Writes(s.(data := s.data[i := changed])));
  }

  lemma WritesAround(f: Group -> seq<Write>, before: seq<Group>, group: Group, after: seq<Group>)
    ensures FlatMap(f, before + [group] + after) == FlatMap(f, before) + f(group) + FlatMap(f, after)
  {
    FlatMapAppend(f, before + [group], after);
    FlatMapAppend(f, before, [group]);
    assert [group][..0] == [];
  }

  /** With the ranges declared as an array, as documented, no range is ever loaded. */
  lemma {:induction false} ArrayDeclaresNothing(s: Sequence)
    requires s.globals.ranges.NameArray?
    ensures Compiled(s).ranges == map[] && Compiled(s).rangeTimes == []
  {
    var g := s.globals;
    forall group: Group ensures OnlyDevices(GroupWriter(g)(group)) {
      forall a: Action ensures OnlyDevices(ActionWriter(g, group.stamp)(a)) {
        var time := ActionTime(g, group.stamp, a);
        forall item: Item ensures OnlyDevices(ItemWriter(g, time)(item)) {
          if item.NominalRanges? {
            FlatMapOnlyDevices(RangeWriter(g, time), item.sensors);
          }
        }
        FlatMapOnlyDevices(ItemWriter(g, time), a.items);
      }
      FlatMapOnlyDevices(ActionWriter(g, group.stamp), group.actions);
    }
    FlatMapOnlyDevices(GroupWriter(g), s.data);
    DevicesLeaveRanges(Writes(s));
  }

  predicate OnlyDevices(ws: seq<Write>) {
    forall w | w in ws :: w.DeviceWrite?
  }

  lemma {:induction false} FlatMapOnlyDevices<X(!new)>(f: X -> seq<Write>, xs: seq<X>)
    requires forall x :: OnlyDevices(f(x))
    ensures OnlyDevices(FlatMap(f, xs))
  {
    if xs != [] {
      FlatMapOnlyDevices(f, xs[..|xs| - 1]);
      assert OnlyDevices(f(xs[|xs| - 1]));
    }
  }

  lemma {:induction false} DevicesLeaveRanges(ws: seq<Write>)
    ensures OnlyDevices(ws) <==> ApplyAll(EMPTY_TABLES, ws).ranges == map[]
    ensures OnlyDevices(ws) ==> ApplyAll(EMPTY_TABLES, ws).rangeTimes == []
  {
    if ws != [] {
      DevicesLeaveRanges(ws[..|ws| - 1]);
      var t, w := ApplyAll(EMPTY_TABLES, ws[..|ws| - 1]), ws[|ws| - 1];
      assert ws == ws[..|ws| - 1] + [w];
      assert w.RangeWrite? ==> w.name in Apply(t, w).ranges;
    }
  }
}
