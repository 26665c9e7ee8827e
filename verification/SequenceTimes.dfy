/** When the items of a sequence happen and what they write (GetTimestamp and LoadSequence of src/SequenceManager.cpp),
    told from the sequence as it was sent. */
module SequenceTimes {
  import opened Common
  import opened Interpolation
  import opened SequenceTables
  import opened Sequences

  /** Less than a microsecond away, and towards zero; whole microseconds are kept. */
  lemma MicrosAreNear(seconds: real)
    ensures -1.0 < ToMicros(seconds) as real - seconds * 1000000.0 < 1.0
    ensures seconds >= 0.0 ==> 0.0 <= ToMicros(seconds) as real <= seconds * 1000000.0
    ensures seconds <= 0.0 ==> seconds * 1000000.0 <= ToMicros(seconds) as real <= 0.0
    ensures var us := seconds * 1000000.0; us.Floor as real == us ==> ToMicros(seconds) == us.Floor
  {
    TruncateBounds(seconds * 1000000.0);
  }

  /** The action is y seconds after its group; a time that is no number or text counts as 0. */
  predicate Offset(a: Action, y: real) {
    a.stamp == Number(y) || (a.stamp == Unusable && y == 0.0)
  }

  /** An action happens its own time after the start time, the end time or the number of its group, up to the truncation
      of the two to microseconds; a group with any other text or no usable time counts as 0. */
  lemma ActionHappens(g: Globals, a: Action, y: real)
    requires Offset(a, y)
    ensures -2.0 < ActionTime(g, Start, a) as real - (g.startTime + y) * 1000000.0 < 2.0
    ensures -2.0 < ActionTime(g, End, a) as real - (g.endTime + y) * 1000000.0 < 2.0
    ensures forall x :: -2.0 < ActionTime(g, Number(x), a) as real - (x + y) * 1000000.0 < 2.0
    ensures ActionTime(g, OtherText, a) == ActionTime(g, Unusable, a) == ToMicros(y)
  {
    MicrosAreNear(g.startTime);
    MicrosAreNear(g.endTime);
    MicrosAreNear(y);
    MicrosAreNear(0.0);
    forall x ensures -2.0 < ActionTime(g, Number(x), a) as real - (x + y) * 1000000.0 < 2.0 {
      MicrosAreNear(x);
    }
  }

  /** At the keywords themselves it happens exactly when the run starts and ends. */
  lemma KeywordIsExact(g: Globals, a: Action)
    requires Offset(a, 0.0)
    ensures ActionTime(g, Start, a) == ToMicros(g.startTime) && ActionTime(g, End, a) == ToMicros(g.endTime)
  {
    MicrosAreNear(0.0);
  }

  // ------------------------------------------------------------------------------ writes

  lemma {:induction false} FlatMapMember<X, Y>(f: X -> seq<Y>, xs: seq<X>, y: Y)
    ensures y in FlatMap(f, xs) <==> exists x | x in xs :: y in f(x)
  {
    if xs != [] {
      FlatMapMember(f, xs[..|xs| - 1], y);
      assert xs == xs[..|xs| - 1] + [xs[|xs| - 1]];
    }
  }

  /** The action sets the device to the values. */
  predicate SetsDevice(a: Action, d: string, values: Values) {
    Device(d, values) in a.items
  }

  /** The action gives the sensor the range. */
  predicate SetsRange(a: Action, sensor: string, range: Range) {
    exists item | item in a.items && item.NominalRanges? :: SensorRange(sensor, Some(range)) in item.sensors
  }

  lemma DeclaredRange(g: Globals, time: int, sensors: seq<SensorRange>, w: Write)
    ensures w in FlatMap(RangeWriter(g, time), sensors)
        <==> w.RangeWrite? && w.time == time && Declared(g.ranges, w.name)
             && SensorRange(w.name, Some(w.range)) in sensors
  {
    FlatMapMember(RangeWriter(g, time), sensors, w);
  }

  /** An action in a group with this stamp sets what the write says, at its own time: a device to its values, or a
      declared sensor to its range. */
  predicate ActionSets(g: Globals, base: Stamp, a: Action, w: Write) {
    && w.time == ActionTime(g, base, a)
    && if w.DeviceWrite? then SetsDevice(a, w.name, w.values)
       else SetsRange(a, w.name, w.range) && Declared(g.ranges, w.name)
  }

  predicate GroupSets(g: Globals, group: Group, w: Write) {
    exists a | a in group.actions :: ActionSets(g, group.stamp, a, w)
  }

  lemma ActionWrites(g: Globals, base: Stamp, a: Action, w: Write)
    ensures w in ActionWriter(g, base)(a) <==> ActionSets(g, base, a, w)
  {
    var time := ActionTime(g, base, a);
    FlatMapMember(ItemWriter(g, time), a.items, w);
    forall item: Item
      ensures w in ItemWriter(g, time)(item)
          <==> w.time == time &&
               if w.DeviceWrite? then item == Device(w.name, w.values)
               else item.NominalRanges? && SensorRange(w.name, Some(w.range)) in item.sensors
                    && Declared(g.ranges, w.name)
    {
      if item.NominalRanges? {
        DeclaredRange(g, time, item.sensors, w);
      }
    }
  }

  lemma GroupWrites(g: Globals, group: Group, w: Write)
    ensures w in GroupWriter(g)(group) <==> GroupSets(g, group, w)
  {
    FlatMapMember(ActionWriter(g, group.stamp), group.actions, w);
    forall a: Action
      ensures w in ActionWriter(g, group.stamp)(a) <==> ActionSets(g, group.stamp, a, w)
    {
      ActionWrites(g, group.stamp, a, w);
    }
  }

  /** A sequence writes exactly what the actions of its groups set. */
  lemma WritesIff(s: Sequence, w: Write)
    ensures w in Writes(s) <==> exists group | group in s.data :: GroupSets(s.globals, group, w)
  {
    FlatMapMember(GroupWriter(s.globals), s.data, w);
    forall group: Group ensures w in GroupWriter(s.globals)(group) <==> GroupSets(s.globals, group, w) {
      GroupWrites(s.globals, group, w);
    }
  }

  /** What a START group sets at 0.0 is written at the start of the run, what an END group sets at 0.0 at its end. */
  lemma KeywordItemIsWritten(s: Sequence, group: Group, a: Action, d: string, values: Values)
    requires group in s.data && a in group.actions && Offset(a, 0.0) && SetsDevice(a, d, values)
    ensures group.stamp == Start ==> DeviceWrite(d, ToMicros(s.globals.startTime), values) in Writes(s)
    ensures group.stamp == End ==> DeviceWrite(d, ToMicros(s.globals.endTime), values) in Writes(s)
  {
    var w := DeviceWrite(d, ActionTime(s.globals, group.stamp, a), values);
    KeywordIsExact(s.globals, a);
    WritesIff(s, w);
    assert ActionSets(s.globals, group.stamp, a, w) && GroupSets(s.globals, group, w);
  }
}
