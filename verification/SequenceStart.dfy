/** From the sequence as it was sent to the plan of its run (src/SequenceManager.cpp, StartSequence): what it takes for
    a started sequence to be playable. */
module SequenceStarts {
  import opened Timeline
  import opened Interpolation
  import opened LoopTimers
  import opened SequenceTables
  import opened Sequences
  import opened SequenceTrace
  import opened SequenceRuns
  import opened RangeHeads
  import opened SequencePlans

  /** Unknown mode texts mean no interpolation. */
  function TextMode(text: string): Mode {
    if text == "linear" then Linear else Step
  }

  /** Modes of earlier sequences stay unless this one names the device. */
  function ModesAfter(modes: map<string, Mode>, texts: map<string, string>): map<string, Mode> {
    modes + map d | d in texts :: TextMode(texts[d])
  }

  /** A device of a started sequence is interpolated exactly when the sequence asks for "linear", or says nothing of the
      device and an earlier sequence asked for it. */
  lemma LinearIff(modes: map<string, Mode>, texts: map<string, string>, d: string)
    ensures ModeOf(ModesAfter(modes, texts), d) == Linear
        <==> if d in texts then texts[d] == "linear" else d in modes && modes[d] == Linear
  {
  }

  /** The plan of a sequence that starts in a manager with these modes, commands and flags. */
  function PlanOf(s: Sequence, modes: map<string, Mode>, calls: seq<Call<string>>, order: seq<string>, autoAbort: bool,
                  stopped: bool, env: Environment): Plan
  {
    Plan(ModesAfter(modes, s.globals.interpolation), Compiled(s), calls, order,
         ToMicros(s.globals.startTime), ToMicros(s.globals.endTime), Narrowed(ToMicros(s.globals.interval)),
         autoAbort, stopped, env)
  }

  /** No value the sequence leaves for the device has fewer components than one it leaves for an earlier time. */
  ghost predicate Widens(s: Sequence, d: string) {
    forall t, u, v, w | FinalWrite(s, d, t, v) && FinalWrite(s, d, u, w) && t <= u :: |v| <= |w|
  }

  lemma WideningIff(s: Sequence, d: string)
    requires d in Compiled(s).devices
    ensures Widening(Compiled(s).devices[d]) <==> Widens(s, d)
  {
    var schedule := Compiled(s).devices[d];
    CompiledIsFinalWrites(s, DeviceWrite(d, 0, []));
    forall t, v ensures FinalWrite(s, d, t, v) <==> Entry(t, v) in schedule {
      FinalWriteIff(s, d, t, v);
    }
    if Widens(s, d) {
      forall i, j | 0 <= i <= j < |schedule| ensures |schedule[i].value| <= |schedule[j].value| {
        assert Entry(schedule[i].time, schedule[i].value) in schedule;
        assert Entry(schedule[j].time, schedule[j].value) in schedule;
      }
    }
    if Widening(schedule) {
      forall t, u, v, w | FinalWrite(s, d, t, v) && FinalWrite(s, d, u, w) && t <= u ensures |v| <= |w| {
        var i :| 0 <= i < |schedule| && schedule[i] == Entry(t, v);
        var j :| 0 <= j < |schedule| && schedule[j] == Entry(u, w);
      }
    }
  }

  lemma NoFinalWrite(s: Sequence, d: string)
    requires d !in Compiled(s).devices
    ensures Widens(s, d)
  {
    forall t, v ensures !FinalWrite(s, d, t, v) {
      FinalWriteIff(s, d, t, v);
    }
  }

  /** What can be checked of a sequence before it is started. */
  ghost predicate CanRun(s: Sequence, modes: map<string, Mode>, order: seq<string>, autoAbort: bool) {
    && 0 < Narrowed(ToMicros(s.globals.interval))
    && Enumerates(order, Compiled(s).devices.Keys)
    && (forall d | ModeOf(ModesAfter(modes, s.globals.interpolation), d) == Linear :: Widens(s, d))
    && HeadsSafe(Compiled(s), ToMicros(s.globals.startTime), ToMicros(s.globals.endTime),
                 Narrowed(ToMicros(s.globals.interval)), autoAbort)
  }

  lemma PlayableIff(s: Sequence, modes: map<string, Mode>)
    ensures PlayableAll(modes, Compiled(s).devices) <==> forall d | ModeOf(modes, d) == Linear :: Widens(s, d)
  {
    CompiledIsFinalWrites(s, DeviceWrite("", 0, []));
    forall d ensures d in Compiled(s).devices ==> (Widening(Compiled(s).devices[d]) <==> Widens(s, d)) {
      if d in Compiled(s).devices {
        WideningIff(s, d);
      }
    }
    forall d ensures d in Compiled(s).devices || Widens(s, d) {
      if d !in Compiled(s).devices {
        NoFinalWrite(s, d);
      }
    }
  }

  /** The plan of a started sequence is sound exactly when the sequence can run. */
  lemma SoundIff(s: Sequence, modes: map<string, Mode>, calls: seq<Call<string>>, order: seq<string>, autoAbort: bool,
                 stopped: bool, env: Environment)
    ensures Sound(PlanOf(s, modes, calls, order, autoAbort, stopped, env)) <==> CanRun(s, modes, order, autoAbort)
  {
    CompiledIsFinalWrites(s, DeviceWrite("", 0, []));
    PlayableIff(s, ModesAfter(modes, s.globals.interpolation));
  }
}
