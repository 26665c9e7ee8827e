/** From the sequence as it was sent to the commands of its run: what loading (src/SequenceManager.cpp, LoadSequence)
    and playing (sequenceLoop) guarantee together. */
module SequenceRuns {
  import opened Common
  import opened Timeline
  import opened LoopTimers
  import opened Backlog
  import opened Interpolation
  import opened SequenceTables
  import opened Sequences
  import opened SequenceTimes
  import opened SequenceTrace

  /** The last value a sequence writes for a device at a time. */
  predicate FinalWrite(s: Sequence, d: string, t: int, v: Values) {
    LastWrite(Writes(s), DeviceWrite(d, t, v)) == Some(DeviceWrite(d, t, v))
  }

  /** It is what the compiled schedule of the device holds. */
  lemma FinalWriteIff(s: Sequence, d: string, t: int, v: Values)
    ensures FinalWrite(s, d, t, v) <==> d in Compiled(s).devices && Entry(t, v) in Compiled(s).devices[d]
  {
    CompiledIsFinalWrites(s, DeviceWrite(d, t, v));
    if d in Compiled(s).devices {
      AtIffEntry(Compiled(s).devices[d], t, v);
    }
  }

  /** In a run past the end, every final write of a step device up to the end time is issued as a command, at the first
      tick that is not before it, if the points of the device are at least as far apart as the ticks. */
  lemma FinalWriteIsIssued(s: Sequence, modes: map<string, Mode>, order: seq<string>, ticks: seq<int>, end: int,
                           d: string, t: int, v: Values)
    requires PlayableAll(modes, Compiled(s).devices) && Enumerates(order, Compiled(s).devices.Keys)
    requires NonDecreasing(ticks) && RanToEnd(ticks, end)
    requires FinalWrite(s, d, t, v) && t <= end && ModeOf(modes, d) == Step
    requires WellSpaced(Occasions(s, d), ticks)
    ensures exists e :: e in IssuedTo(Trace(modes, Compiled(s).devices, order, ticks), d)
              && e.value == v && IssuedWhenDue(t, e.at, ticks)
  {
    FinalWriteIff(s, d, t, v);
    var schedule := Compiled(s).devices[d];
    var i :| 0 <= i < |schedule| && schedule[i] == Entry(t, v);
    TraceProjects(modes, Compiled(s).devices, order, ticks, d);
    StepCompleteness(schedule, ticks, end, i);
    assert Play(Step, schedule, ticks).emitted[i] in IssuedTo(Trace(modes, Compiled(s).devices, order, ticks), d);
  }

  /** The times at which a sequence has points for a device. */
  function Occasions(s: Sequence, d: string): seq<int> {
    if d in Compiled(s).devices then Times(Compiled(s).devices[d]) else []
  }

  /** So is every final write of a linear device but its first. */
  lemma KnotIsReached(s: Sequence, modes: map<string, Mode>, order: seq<string>, ticks: seq<int>, end: int,
                      d: string, t: int, v: Values)
    requires PlayableAll(modes, Compiled(s).devices) && Enumerates(order, Compiled(s).devices.Keys)
    requires NonDecreasing(ticks) && RanToEnd(ticks, end)
    requires FinalWrite(s, d, t, v) && t <= end && ModeOf(modes, d) == Linear
    requires Occasions(s, d) != [] && Occasions(s, d)[0] < t && WellSpaced(Occasions(s, d)[1..], ticks)
    ensures exists e :: e in IssuedTo(Trace(modes, Compiled(s).devices, order, ticks), d)
              && e.value == v && IssuedWhenDue(t, e.at, ticks)
  {
    FinalWriteIff(s, d, t, v);
    var schedule := Compiled(s).devices[d];
    var i :| 0 <= i < |schedule| && schedule[i] == Entry(t, v);
    assert Occasions(s, d) == Times(schedule) && i > 0;
    TraceProjects(modes, Compiled(s).devices, order, ticks, d);
    LinearCompleteness(schedule, ticks, end, i);
  }

  /** Nothing else is issued: every command to a step device carries a final write of it. */
  lemma IssuedIsFinalWrite(s: Sequence, modes: map<string, Mode>, order: seq<string>, ticks: seq<int>, d: string)
    requires PlayableAll(modes, Compiled(s).devices) && Enumerates(order, Compiled(s).devices.Keys)
    requires d in Compiled(s).devices && ModeOf(modes, d) == Step
    ensures forall e | e in IssuedTo(Trace(modes, Compiled(s).devices, order, ticks), d) ::
              exists t :: FinalWrite(s, d, t, e.value)
  {
    var schedule := Compiled(s).devices[d];
    TraceProjects(modes, Compiled(s).devices, order, ticks, d);
    StepEmitsPrefix(schedule, ticks);
    forall e | e in Play(Step, schedule, ticks).emitted
      ensures exists t :: FinalWrite(s, d, t, e.value)
    {
      var i :| 0 <= i < |Play(Step, schedule, ticks).emitted| && Play(Step, schedule, ticks).emitted[i] == e;
      assert schedule[i] in schedule && schedule[i] == Entry(schedule[i].time, e.value);
      FinalWriteIff(s, d, schedule[i].time, e.value);
    }
  }

  /** All that is set for the device lies after this time, or is this value at it. */
  predicate SetFirst(s: Sequence, d: string, t: int, v: Values) {
    forall w | w in Writes(s) && w.DeviceWrite? && w.name == d :: w.time > t || w == DeviceWrite(d, t, v)
  }

  lemma FirstOccasion(s: Sequence, d: string, t: int, v: Values)
    requires DeviceWrite(d, t, v) in Writes(s) && SetFirst(s, d, t, v)
    ensures d in Compiled(s).devices && Compiled(s).devices[d] != [] && Compiled(s).devices[d][0] == Entry(t, v)
  {
    var key := DeviceWrite(d, t, v);
    LastWriteIsWritten(Writes(s), key);
    assert SameKey(key, key);
    FinalWriteIff(s, d, t, v);
    CompiledIsFinalWrites(s, key);
    var schedule := Compiled(s).devices[d];
    var first := schedule[0];
    assert first in schedule;
    FinalWriteIff(s, d, first.time, first.value);
    LastWriteIsWritten(Writes(s), DeviceWrite(d, first.time, first.value));
  }

  /** What a START group sets at 0.0 is the first command of its device, in the first tick of the run, at the start
      time; if nothing sets the device earlier or to something else at that time. */
  lemma StartGroupComesFirst(s: Sequence, modes: map<string, Mode>, order: seq<string>, ticks: seq<int>,
                             group: Group, a: Action, d: string, v: Values)
    requires PlayableAll(modes, Compiled(s).devices) && Enumerates(order, Compiled(s).devices.Keys)
    requires ticks != [] && ticks[0] == ToMicros(s.globals.startTime)
    requires group in s.data && group.stamp == Start && a in group.actions && Offset(a, 0.0) && SetsDevice(a, d, v)
    requires SetFirst(s, d, ToMicros(s.globals.startTime), v)
    ensures var issued := IssuedTo(Trace(modes, Compiled(s).devices, order, ticks), d);
            issued != [] && issued[0] == Emission(ToMicros(s.globals.startTime), v)
  {
    KeywordItemIsWritten(s, group, a, d, v);
    FirstOccasion(s, d, ToMicros(s.globals.startTime), v);
    TraceProjects(modes, Compiled(s).devices, order, ticks, d);
    FirstPointAtOnce(ModeOf(modes, d), Compiled(s).devices[d], ticks);
  }
}
