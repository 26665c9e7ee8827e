/** The sequence manager of src/SequenceManager.cpp as the loop thread and the starting thread run it,
    one after the other; their interleaving is the subject of module SequenceThreads. */
module SequenceManagers {
  import opened Common
  import opened Timeline
  import opened Interpolation
  import opened LoopTimers
  import opened SequenceTables
  import opened SequenceRanges
  import opened Sequences
  import opened SequenceTrace
  import opened SequencePlans
  import opened SequenceStarts

  class SequenceManager {
    var deviceMap: map<string, Schedule>
    var sensorsNominalRangeMap: map<string, seq<Entry<Range>>>
    var sensorsNominalRangeTimeMap: seq<Entry<map<string, Range>>>
    var interpolationMap: map<string, Mode>
    var autoAbortEnabled: bool
    var startTimeUs: int
    var endTimeUs: int
    var sequenceRunning: bool
    var sequenceToStop: bool
    var isAbortRunning: bool
    /** Every command handed to the event manager, in order. */
    var calls: seq<Call<string>>

    function Tables(): Tables
      reads this`deviceMap, this`sensorsNominalRangeMap, this`sensorsNominalRangeTimeMap
    {
      SequenceTables.Tables(deviceMap, sensorsNominalRangeMap, sensorsNominalRangeTimeMap)
    }

    // ---------------------------------------------------------------- loading

    method LoadRanges(g: Globals, time: int, sensors: seq<SensorRange>) returns (ok: bool)
      modifies this`sensorsNominalRangeMap, this`sensorsNominalRangeTimeMap
      ensures ok <==> AllUpTo(AcceptedRange, sensors, |sensors|)
      ensures ok ==> Tables() == ApplyAll(old(Tables()), FlatMap(RangeWriter(g, time), sensors))
    {
      ghost var t0, f := Tables(), RangeWriter(g, time);
      for i := 0 to |sensors|
        invariant AllUpTo(AcceptedRange, sensors, i)
        invariant Tables() == ApplyUpTo(t0, f, sensors, i)
      {
        ghost var before := Tables();
        var s := sensors[i];
        if s.range.None? {
          NotAll(AcceptedRange, sensors, i);
          return false;
        }
        if Declared(g.ranges, s.sensor) {
          sensorsNominalRangeMap :=
            sensorsNominalRangeMap[s.sensor := Put(Slot(sensorsNominalRangeMap, s.sensor), time, s.range.value)];
          sensorsNominalRangeTimeMap :=
            Put(sensorsNominalRangeTimeMap, time, SlotAt(sensorsNominalRangeTimeMap, time)[s.sensor := s.range.value]);
          ApplyOne(before, RangeWrite(s.sensor, time, s.range.value));
        }
      }
      ApplyUpToAll(t0, f, sensors);
      return true;
    }

    method LoadItem(g: Globals, time: int, item: Item) returns (ok: bool)
      modifies this`deviceMap, this`sensorsNominalRangeMap, this`sensorsNominalRangeTimeMap
      ensures ok <==> AcceptedItem(item)
      ensures ok ==> Tables() == ApplyAll(old(Tables()), ItemWriter(g, time)(item))
    {
      match item
      case NominalRanges(sensors) =>
        ok := LoadRanges(g, time, sensors);
      case Device(d, values) =>
        ApplyOne(Tables(), DeviceWrite(d, time, values));
        deviceMap := deviceMap[d := Put(Slot(deviceMap, d), time, values)];
        ok := true;
    }

    method LoadItems(g: Globals, time: int, items: seq<Item>) returns (ok: bool)
      modifies this`deviceMap, this`sensorsNominalRangeMap, this`sensorsNominalRangeTimeMap
      ensures ok <==> AllUpTo(AcceptedItem, items, |items|)
      ensures ok ==> Tables() == ApplyAll(old(Tables()), FlatMap(ItemWriter(g, time), items))
    {
      ghost var t0, f := Tables(), ItemWriter(g, time);
      for i := 0 to |items|
        invariant AllUpTo(AcceptedItem, items, i)
        invariant Tables() == ApplyUpTo(t0, f, items, i)
      {
        var fine := LoadItem(g, time, items[i]);
        if !fine {
          NotAll(AcceptedItem, items, i);
          return false;
        }
      }
      ApplyUpToAll(t0, f, items);
      return true;
    }

    method LoadAction(g: Globals, base: Stamp, a: Action) returns (ok: bool)
      modifies this`deviceMap, this`sensorsNominalRangeMap, this`sensorsNominalRangeTimeMap
      ensures ok <==> AcceptedStamp(g, a) && AllUpTo(AcceptedItem, a.items, |a.items|)
      ensures ok ==>
                Tables() == ApplyAll(old(Tables()), FlatMap(ItemWriter(g, ActionTime(g, base, a)), a.items))
    {
      if IsText(a.stamp) {
        return false;
      }
      var micros := ToMicros(Timestamp(g, a.stamp));
      if micros < 0 {
        return false;
      }
      micros := micros + ToMicros(Timestamp(g, base));
      assert micros == ActionTime(g, base, a);
      ok := LoadItems(g, micros, a.items);
    }

    method LoadGroup(g: Globals, group: Group) returns (ok: bool)
      modifies this`deviceMap, this`sensorsNominalRangeMap, this`sensorsNominalRangeTimeMap
      ensures ok <==> AcceptsGroup(g)(group)
      ensures ok ==> Tables() == ApplyAll(old(Tables()), GroupWriter(g)(group))
    {
      ghost var t0, f, p := Tables(), ActionWriter(g, group.stamp), AcceptsAction(g);
      for j := 0 to |group.actions|
        invariant AllUpTo(p, group.actions, j)
        invariant Tables() == ApplyUpTo(t0, f, group.actions, j)
      {
        var fine := LoadAction(g, group.stamp, group.actions[j]);
        if !fine {
          NotAll(p, group.actions, j);
          return false;
        }
      }
      ApplyUpToAll(t0, f, group.actions);
      return true;
    }

    /** Compiles a sequence into the tables, or rejects it. */
    method LoadSequence(s: Sequence) returns (ok: bool)
      modifies this`deviceMap, this`sensorsNominalRangeMap, this`sensorsNominalRangeTimeMap
      ensures ok <==> Accepted(s)
      ensures ok ==> Tables() == Compiled(s)
    {
      deviceMap, sensorsNominalRangeMap, sensorsNominalRangeTimeMap := map[], map[], [];
      ghost var f, p := GroupWriter(s.globals), AcceptsGroup(s.globals);
      for i := 0 to |s.data|
        invariant AllUpTo(p, s.data, i)
        invariant Tables() == ApplyUpTo(EMPTY_TABLES, f, s.data, i)
      {
        var fine := LoadGroup(s.globals, s.data[i]);
        if !fine {
          NotAll(p, s.data, i);
          return false;
        }
      }
      ApplyUpToAll(EMPTY_TABLES, f, s.data);
      return true;
    }

    /** Entries of earlier sequences stay; unknown mode texts mean no interpolation. */
    method LoadInterpolationMap(g: Globals)
      modifies this`interpolationMap
      ensures interpolationMap == ModesAfter(old(interpolationMap), g.interpolation)
    {
      var todo := g.interpolation.Keys;
      while todo != {}
        invariant todo <= g.interpolation.Keys
        invariant interpolationMap == old(interpolationMap) +
                    map d | d in g.interpolation && d !in todo :: TextMode(g.interpolation[d])
      {
        var d :| d in todo;
        var mode := g.interpolation[d];
        if mode == "none" {
          interpolationMap := interpolationMap[d := Step];
        } else if mode == "linear" {
          interpolationMap := interpolationMap[d := Linear];
        } else {
          interpolationMap := interpolationMap[d := Step];
        }
        todo := todo - {d};
      }
    }

    /** The part of StartSequence after the sequence has been accepted. */
    method PrepareRun(g: Globals) returns (intervalUs: int)
      modifies this`interpolationMap, this`startTimeUs, this`endTimeUs, this`sequenceRunning
      ensures interpolationMap == ModesAfter(old(interpolationMap), g.interpolation)
      ensures startTimeUs == ToMicros(g.startTime) && endTimeUs == ToMicros(g.endTime)
      ensures intervalUs == ToMicros(g.interval) && sequenceRunning
    {
      LoadInterpolationMap(g);
      startTimeUs := ToMicros(g.startTime);
      endTimeUs := ToMicros(g.endTime);
      intervalUs := ToMicros(g.interval);
      sequenceRunning := true;
    }

    /** Prepares a run. A rejected or refused start issues no command and starts nothing. */
    method StartSequence(s: Sequence) returns (started: bool, intervalUs: int)
      modifies this`deviceMap, this`sensorsNominalRangeMap, this`sensorsNominalRangeTimeMap
      modifies this`interpolationMap, this`startTimeUs, this`endTimeUs, this`sequenceRunning
      ensures started <==> !old(sequenceRunning) && !old(isAbortRunning) && Accepted(s)
      ensures sequenceRunning == (old(sequenceRunning) || started)
      ensures started ==>
                && Tables() == Compiled(s)
                && interpolationMap == ModesAfter(old(interpolationMap), s.globals.interpolation)
                && startTimeUs == ToMicros(s.globals.startTime) && endTimeUs == ToMicros(s.globals.endTime)
                && intervalUs == ToMicros(s.globals.interval)
      ensures !started ==> interpolationMap == old(interpolationMap)
    {
      started, intervalUs := false, 0;
      if !sequenceRunning && !isAbortRunning {
        started := LoadSequence(s);
        if started {
          intervalUs := PrepareRun(s.globals);
        }
      }
    }

    // -------------------------------------------------------------- the loop body

    /** Hands a command over; whether it throws makes no difference to the loop. */
    method ExecuteCommand(d: string, now: int, values: Values, env: Environment) returns (r: Result<()>)
      modifies this`calls
      ensures calls == old(calls) + [Call(d, now, values)]
      ensures r == if env.throws(d, values) then Throws else Ok(())
    {
      calls := calls + [Call(d, now, values)];
      r := if env.throws(d, values) then Throws else Ok(());
    }

    /** One device of one tick: the values and the rest of the schedule that Advances determines. */
    method TickDevice(d: string, now: int, env: Environment, ghost to: Schedule, ghost issued: seq<Call<string>>)
      requires d in deviceMap && Advances(ModeOf(interpolationMap, d), d, now, deviceMap[d], to, issued)
      modifies this`deviceMap, this`calls
      ensures calls == old(calls) + issued
      ensures deviceMap == old(deviceMap)[d := to]
    {
      var s := deviceMap[d];
      if s == [] {
        return;
      }
      var sample: Sample;
      if d in interpolationMap && interpolationMap[d] == Linear {
        sample := InterpolateLinear(s[0], if |s| > 1 then Some(s[1]) else None, now);
      } else {
        sample := SampleNone(s[0], now);
      }
      if sample.value.Some? {
        var _ := ExecuteCommand(d, now, sample.value.value, env);
      }
      if sample.advance {
        deviceMap := deviceMap[d := s[1..]];
      }
    }

    /** Retires the head range entry when its time is reached and another one follows. */
    method TickRanges(now: int)
      requires InStep(Tables())
      modifies this`sensorsNominalRangeMap, this`sensorsNominalRangeTimeMap
      ensures Tables() == RangeTick(old(Tables()), now)
    {
      if |sensorsNominalRangeTimeMap| > 1 {
        var head := sensorsNominalRangeTimeMap[0];
        if now >= head.time {
          var was := sensorsNominalRangeMap;
          var todo := head.value.Keys;
          while todo != {}
            invariant todo <= head.value.Keys
            invariant sensorsNominalRangeTimeMap == old(sensorsNominalRangeTimeMap)
            invariant sensorsNominalRangeMap ==
                        map s | s in was :: if s in head.value && s !in todo then Tail(was[s]) else was[s]
          {
            var s :| s in todo;
            HeadsMatch(old(Tables()), s);
            sensorsNominalRangeMap := sensorsNominalRangeMap[s := sensorsNominalRangeMap[s][1..]];
            todo := todo - {s};
          }
          sensorsNominalRangeTimeMap := sensorsNominalRangeTimeMap[1..];
        }
      }
    }

    /** What is logged of the ranges at the beginning of a tick: the head of every table. */
    method LogRanges() returns (heads: map<string, Range>)
      requires HeadsReadable(Tables())
      ensures heads == map s | s in sensorsNominalRangeMap :: sensorsNominalRangeMap[s][0].value
    {
      heads := map[];
      var todo := sensorsNominalRangeMap.Keys;
      while todo != {}
        invariant todo <= sensorsNominalRangeMap.Keys
        invariant heads.Keys == sensorsNominalRangeMap.Keys - todo
        invariant forall s | s in heads :: heads[s] == sensorsNominalRangeMap[s][0].value
      {
        var s :| s in todo;
        heads := heads[s := sensorsNominalRangeMap[s][0].value];
        todo := todo - {s};
      }
    }

    /** Compares every ranged sensor with the head of its table. */
    method CheckSensors(readings: seq<Reading>) returns (abort: bool)
      requires autoAbortEnabled ==> HeadsReadable(Tables())
      ensures abort <==> autoAbortEnabled && Violates(sensorsNominalRangeMap, readings, |readings|)
    {
      abort := false;
      if !autoAbortEnabled {
        return;
      }
      for i := 0 to |readings|
        invariant abort <==> Violates(sensorsNominalRangeMap, readings, i)
      {
        var r := readings[i];
        if r.sensor in sensorsNominalRangeMap {
          var range := sensorsNominalRangeMap[r.sensor][0].value;
          if r.value < range.low {
            abort := true;
          } else if r.value > range.high {
            abort := true;
          }
        }
      }
    }

    // -------------------------------------------------------------------- the loop

    /** The devices of one tick, each in its turn. */
    method TickDevices(order: seq<string>, now: int, env: Environment, ghost to: map<string, Schedule>,
                       ghost caller: string -> seq<Call<string>>)
      requires forall i | 0 <= i < |order| :: Turn(interpolationMap, now, deviceMap, to, order, caller, i)
      modifies this`deviceMap, this`calls
      ensures deviceMap == Replaced(old(deviceMap), to, order, |order|)
      ensures calls == old(calls) + TickCalls(caller, order, |order|)
    {
      ghost var from := deviceMap;
      for i := 0 to |order|
        invariant deviceMap == Replaced(from, to, order, i)
        invariant calls == old(calls) + TickCalls(caller, order, i)
      {
        assert Turn(interpolationMap, now, from, to, order, caller, i);
        var d := order[i];
        TickDevice(d, now, env, to[d], caller(d));
      }
    }

    /** The device part of one tick of a run that started with the schedules dm0 and the trace calls0. */
    method AdvanceDevices(order: seq<string>, now: int, env: Environment, ghost dm0: map<string, Schedule>,
                          ghost calls0: seq<Call<string>>, ghost ticks: seq<int>)
      requires PlayableAll(interpolationMap, dm0) && deviceMap == AllLeft(interpolationMap, dm0, ticks)
      requires calls == calls0 + Trace(interpolationMap, dm0, order, ticks)
      requires Enumerates(order, dm0.Keys)
      modifies this`deviceMap, this`calls
      ensures deviceMap == AllLeft(interpolationMap, dm0, ticks + [now])
      ensures calls == calls0 + Trace(interpolationMap, dm0, order, ticks + [now])
    {
      ghost var to, caller := AllLeft(interpolationMap, dm0, ticks + [now]), Caller(interpolationMap, dm0, ticks, now);
      forall i | 0 <= i < |order|
        ensures Turn(interpolationMap, now, deviceMap, to, order, caller, i)
      {
        DeviceAdvances(interpolationMap, dm0, ticks, now, order, i);
      }
      AllReplaced(deviceMap, to, order);
      TraceStep(calls0, interpolationMap, dm0, order, ticks, now);
      TickDevices(order, now, env, to, caller);
    }

    /** The manager is in the middle of a planned run. */
    ghost predicate Follows(p: Plan, order: seq<string>, env: Environment, ticks: seq<int>)
      reads this`interpolationMap, this`autoAbortEnabled, this`startTimeUs, this`endTimeUs
      reads this`deviceMap, this`calls, this`sensorsNominalRangeMap, this`sensorsNominalRangeTimeMap
    {
      && interpolationMap == p.modes && autoAbortEnabled == p.autoAbort && startTimeUs == p.start && endTimeUs == p.end
      && order == p.order && env == p.env
      && Played(p, ticks, Tables(), calls)
    }

    /** Devices and ranges in one tick. */
    method AdvanceTables(order: seq<string>, now: int, env: Environment, ghost p: Plan, ghost ticks: seq<int>)
      requires Sound(p) && Follows(p, order, env, ticks)
      modifies this`deviceMap, this`calls, this`sensorsNominalRangeMap, this`sensorsNominalRangeTimeMap
      ensures Follows(p, order, env, ticks + [now])
      ensures sensorsNominalRangeMap == RangePlay(p.tables, ticks + [now]).ranges
    {
      ghost var left, r := AllLeft(p.modes, p.tables.devices, ticks + [now]), RangePlay(p.tables, ticks);
      RangeStep(p.tables, ticks, now, left);
      assert sensorsNominalRangeMap == r.ranges && sensorsNominalRangeTimeMap == r.rangeTimes;
      AdvanceDevices(order, now, env, p.tables.devices, p.calls, ticks);
      assert Tables() == r.(devices := left);
      TickRanges(now);
    }

    /** Devices, ranges and the check of the sensors in one tick; an automatic abort raises the stop flag. */
    method Tick(order: seq<string>, now: int, env: Environment, readings: seq<Reading>, ghost p: Plan,
                ghost ticks: seq<int>)
      returns (abort: bool)
      requires Sound(p) && Follows(p, order, env, ticks) && readings == env.readings(|ticks|)
      requires autoAbortEnabled ==> HeadsReadable(RangePlay(p.tables, ticks + [now]))
      modifies this`deviceMap, this`calls, this`sensorsNominalRangeMap, this`sensorsNominalRangeTimeMap
      modifies this`sequenceToStop
      ensures Follows(p, order, env, ticks + [now])
      ensures abort <==> Alarm(p, ticks + [now])
      ensures sequenceToStop == (old(sequenceToStop) || abort)
    {
      AdvanceTables(order, now, env, p, ticks);
      abort := CheckSensors(readings);
      if abort {
        sequenceToStop := true;
      }
    }

    /** Waits for the next deadline; the thread wakes so much later. */
    method WaitForTick(timer: LoopTimer, late: nat)
      requires timer.Valid()
      modifies timer
      ensures timer.Valid() && timer.startTime == old(timer.startTime) && timer.waits == old(timer.waits) + 1
      ensures old(timer.ElapsedMicros()) <= timer.ElapsedMicros()
      ensures timer.grid == old(timer.grid) + timer.interval <= timer.ElapsedMicros()
    {
      var deadline := timer.nextTime + timer.interval * NANOS_PER_MICRO;
      var _ := timer.Wait((if deadline < timer.time then timer.time else deadline) + late);
    }

    /** The head of a tick: no waiting before the first one, which is therefore at the start time; past the end time the
        stop flag is raised. */
    method NextTime(timer: LoopTimer, firstIteration: bool, late: nat, ghost p: Plan, ghost ticks: seq<int>)
      returns (now: int)
      requires Clocked(p, timer, ticks) && startTimeUs == p.start && (firstIteration <==> ticks == [])
      modifies timer, this`sequenceToStop
      ensures Clocked(p, timer, ticks + [now])
      ensures sequenceToStop == (old(sequenceToStop) || now > endTimeUs)
      ensures timer.grid == old(timer.grid) + if firstIteration then 0 else p.interval
    {
      if !firstIteration {
        WaitForTick(timer, late);
      }
      now := timer.ElapsedMicros() + startTimeUs;
      GriddedStep(ticks, now, p.start, p.interval);
      if now > endTimeUs {
        sequenceToStop := true;
      }
    }

    /** One passage through the loop body. */
    method Iteration(timer: LoopTimer, firstIteration: bool, order: seq<string>, env: Environment, k: nat,
                     ghost p: Plan, ghost ticks: seq<int>)
      returns (now: int, abort: bool)
      requires Sound(p) && Follows(p, order, env, ticks)
      requires Clocked(p, timer, ticks) && (firstIteration <==> ticks == []) && k == |ticks| && Within(ticks, p.end)
      modifies timer, this`deviceMap, this`calls, this`sensorsNominalRangeMap, this`sensorsNominalRangeTimeMap
      modifies this`sequenceToStop
      ensures Clocked(p, timer, ticks + [now])
      ensures timer.grid == old(timer.grid) + if firstIteration then 0 else p.interval
      ensures Follows(p, order, env, ticks + [now])
      ensures abort <==> Alarm(p, ticks + [now])
      ensures sequenceToStop == (old(sequenceToStop) || now > endTimeUs || abort)
    {
      now := NextTime(timer, firstIteration, env.late(k), p, ticks);
      HeadsBeforeTick(p, ticks);
      var _ := LogRanges();
      if autoAbortEnabled {
        HeadsAfterTick(p, ticks, now);
      }
      abort := Tick(order, now, env, env.readings(k), p, ticks);
    }

    /** The while loop: ticks until the stop flag is seen raised or an automatic abort is due. */
    method RunTicks(timer: LoopTimer, order: seq<string>, env: Environment, ghost p: Plan)
      returns (ticks: seq<int>, outcome: Outcome)
      requires Sound(p) && Follows(p, order, env, []) && sequenceToStop == p.stopped
      requires Clocked(p, timer, []) && timer.grid == 0
      modifies timer, this`deviceMap, this`calls, this`sensorsNominalRangeMap, this`sensorsNominalRangeTimeMap
      modifies this`sequenceToStop
      ensures Follows(p, order, env, ticks) && Completed(p, ticks, outcome)
    {
      ticks, outcome := [], Finished;
      var firstIteration := true;
      while outcome == Finished && !env.raised(|ticks|) && !sequenceToStop
        invariant firstIteration <==> ticks == []
        invariant Clocked(p, timer, ticks) && Follows(p, order, env, ticks)
        invariant Underway(p, ticks, outcome, sequenceToStop)
        decreases outcome == Finished, !sequenceToStop, firstIteration, endTimeUs - startTimeUs - timer.grid
      {
        var now, abort := Iteration(timer, firstIteration, order, env, |ticks|, p, ticks);
        UnderwayStep(p, ticks, now, abort);
        firstIteration := false;
        ticks := ticks + [now];
        if abort {
          outcome := Faulted;
        }
      }
      RunIsComplete(p, ticks, outcome, sequenceToStop);
    }

    /** What a run is planned to be when it starts now. */
    ghost function PlanNow(intervalUs: int, order: seq<string>, env: Environment): Plan
      reads this
    {
      Plan(interpolationMap, Tables(), calls, order, startTimeUs, endTimeUs, Narrowed(intervalUs),
           autoAbortEnabled, sequenceToStop, env)
    }

    /** From the setting up of the timer to the end of the while loop. */
    method TimedTicks(intervalUs: int, order: seq<string>, env: Environment, ghost p: Plan)
      returns (ticks: seq<int>, outcome: Outcome)
      requires Sound(p) && Follows(p, order, env, []) && sequenceToStop == p.stopped
      requires Narrowed(intervalUs) == p.interval
      modifies this`deviceMap, this`calls, this`sensorsNominalRangeMap, this`sensorsNominalRangeTimeMap
      modifies this`sequenceToStop
      ensures Follows(p, order, env, ticks) && Completed(p, ticks, outcome)
    {
      var timer := new LoopTimer(intervalUs);
      timer.Init(env.startNanos);
      ticks, outcome := RunTicks(timer, order, env, p);
    }

    /** The loop thread. Ticks are the times at which a tick began. */
    method SequenceLoop(intervalUs: int, order: seq<string>, env: Environment)
      returns (ticks: seq<int>, outcome: Outcome)
      requires Sound(PlanNow(intervalUs, order, env))
      modifies this`deviceMap, this`calls, this`sensorsNominalRangeMap, this`sensorsNominalRangeTimeMap
      modifies this`sequenceToStop, this`sequenceRunning
      ensures var p := old(PlanNow(intervalUs, order, env));
              Completed(p, ticks, outcome) && Played(p, ticks, Tables(), calls)
      ensures outcome == Finished ==> !sequenceToStop && !sequenceRunning
    {
      ghost var p := PlanNow(intervalUs, order, env);
      NothingPlayed(p);
      ticks, outcome := TimedTicks(intervalUs, order, env, p);
      if outcome == Finished {
        sequenceToStop := false;
        sequenceRunning := false;
      }
    }

    /** Starting a sequence and running the thread it starts: if the sequence can run, its run is that of its plan. */
    method StartAndRun(s: Sequence, order: seq<string>, env: Environment)
      returns (started: bool, ticks: seq<int>, outcome: Outcome)
      requires !sequenceRunning && !isAbortRunning && Accepted(s) ==>
                 CanRun(s, interpolationMap, order, autoAbortEnabled)
      modifies this
      ensures started <==> !old(sequenceRunning) && !old(isAbortRunning) && Accepted(s)
      ensures !started ==> ticks == [] && calls == old(calls) && sequenceToStop == old(sequenceToStop)
      ensures started ==>
                var p := PlanOf(s, old(interpolationMap), old(calls), order, old(autoAbortEnabled),
                                old(sequenceToStop), env);
                Sound(p) && Completed(p, ticks, outcome) && Played(p, ticks, Tables(), calls)
      ensures started && outcome == Finished ==> !sequenceToStop && !sequenceRunning
    {
      var intervalUs;
      started, intervalUs := StartSequence(s);
      ticks, outcome := [], Finished;
      if started {
        SoundIff(s, old(interpolationMap), calls, order, autoAbortEnabled, sequenceToStop, env);
        ticks, outcome := SequenceLoop(intervalUs, order, env);
      }
    }
  }
}
