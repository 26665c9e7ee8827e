/** What a run of the sequence loop (src/SequenceManager.cpp) is planned to be when it starts, and how it went. */
module SequencePlans {
  import opened Timeline
  import opened Interpolation
  import opened LoopTimers
  import opened SequenceTables
  import opened SequenceRanges
  import opened RangeHeads
  import opened SequenceTrace

  /** A sensor reading taken by CheckSensors. */
  datatype Reading = Reading(sensor: string, value: real)

  /** What the loop meets from outside: how late each wait wakes (in nanoseconds), whether an abort has
      raised the stop flag by the time it is read, which readings it gets and which commands throw. */
  datatype Environment = Environment(
    startNanos: int, late: nat -> nat, raised: nat -> bool,
    readings: nat -> seq<Reading>, throws: (string, Values) -> bool)

  /** Finished: the loop ended by itself or by a manual abort. Faulted: an automatic abort joined the loop's
      own thread, which ends the process. */
  datatype Outcome = Finished | Faulted

  /** Modes and tables as loaded, the commands issued before, the order in which devices are visited, the times, whether
      automatic aborts are enabled, the stop flag as the run finds it, and the environment. */
  datatype Plan = Plan(
    modes: map<string, Mode>, tables: Tables, calls: seq<Call<string>>, order: seq<string>,
    start: int, end: int, interval: nat, autoAbort: bool, stopped: bool, env: Environment)

  /** The tables can be played, and in no run of these times a range head that is read will be missing. */
  ghost predicate Sound(p: Plan) {
    && 0 < p.interval
    && PlayableAll(p.modes, p.tables.devices) && Enumerates(p.order, p.tables.devices.Keys)
    && Valid(p.tables) && Dual(p.tables) && HeadsSafe(p.tables, p.start, p.end, p.interval, p.autoAbort)
  }

  // ------------------------------------------------------------------------- the effects

  /** Commands and tables are those of playing the loaded tables over the ticks. */
  ghost predicate Played(p: Plan, ticks: seq<int>, tables: Tables, calls: seq<Call<string>>) {
    && PlayableAll(p.modes, p.tables.devices)
    && tables == RangePlay(p.tables, ticks).(devices := AllLeft(p.modes, p.tables.devices, ticks))
    && calls == p.calls + Trace(p.modes, p.tables.devices, p.order, ticks)
  }

  lemma NothingPlayed(p: Plan)
    requires PlayableAll(p.modes, p.tables.devices)
    ensures Played(p, [], p.tables, p.calls)
  {
    AllLeftAtFirst(p.modes, p.tables.devices);
  }

  // -------------------------------------------------------------------- automatic aborts

  /** The reading lies outside the range at the head of its sensor's table. */
  predicate OutOfRange(ranges: map<string, seq<Entry<Range>>>, r: Reading) {
    && r.sensor in ranges && ranges[r.sensor] != []
    && !(ranges[r.sensor][0].value.low <= r.value <= ranges[r.sensor][0].value.high)
  }

  /** One of the first n readings does. */
  predicate Violates(ranges: map<string, seq<Entry<Range>>>, readings: seq<Reading>, n: nat)
    requires n <= |readings|
  {
    n > 0 && (Violates(ranges, readings, n - 1) || OutOfRange(ranges, readings[n - 1]))
  }

  lemma {:induction false} ViolatesIff(ranges: map<string, seq<Entry<Range>>>, readings: seq<Reading>, n: nat)
    requires n <= |readings|
    ensures Violates(ranges, readings, n) <==> exists k | 0 <= k < n :: OutOfRange(ranges, readings[k])
  {
    if n > 0 {
      ViolatesIff(ranges, readings, n - 1);
    }
  }

  /** After the last of these ticks an automatic abort is due. */
  ghost predicate Alarm(p: Plan, ticks: seq<int>)
    requires ticks != []
  {
    var readings := p.env.readings(|ticks| - 1);
    p.autoAbort && Violates(RangePlay(p.tables, ticks).ranges, readings, |readings|)
  }

  /** The stop flag was down at the head of each of these ticks and no automatic abort was due after it. */
  ghost predicate Quiet(p: Plan, ticks: seq<int>) {
    ticks == [] ||
    (Quiet(p, ticks[..|ticks| - 1]) && !p.env.raised(|ticks| - 1) && !Alarm(p, ticks))
  }

  ghost predicate QuietAt(p: Plan, ticks: seq<int>, k: nat)
    requires k < |ticks|
  {
    !p.env.raised(k) && !Alarm(p, ticks[..k + 1])
  }

  lemma {:induction false} QuietIff(p: Plan, ticks: seq<int>)
    ensures Quiet(p, ticks) <==> forall k | 0 <= k < |ticks| :: QuietAt(p, ticks, k)
  {
    if ticks != [] {
      var n := |ticks| - 1;
      QuietIff(p, ticks[..n]);
      forall k | 0 <= k < n ensures QuietAt(p, ticks[..n], k) == QuietAt(p, ticks, k) {
        assert ticks[..n][..k + 1] == ticks[..k + 1];
      }
      assert ticks[..n + 1] == ticks;
      assert QuietAt(p, ticks, n) <==> !p.env.raised(n) && !Alarm(p, ticks);
    }
  }

  /** In a quiet run with automatic aborts every reading taken lies between the bounds at the head of its sensor. */
  lemma QuietIsInRange(p: Plan, ticks: seq<int>, k: nat, i: nat)
    requires Quiet(p, ticks) && p.autoAbort && k < |ticks| && i < |p.env.readings(k)|
    ensures var ranges, r := RangePlay(p.tables, ticks[..k + 1]).ranges, p.env.readings(k)[i];
            r.sensor in ranges && ranges[r.sensor] != [] ==>
              ranges[r.sensor][0].value.low <= r.value && r.value <= ranges[r.sensor][0].value.high
  {
    QuietIff(p, ticks);
    assert QuietAt(p, ticks, k);
    ViolatesIff(RangePlay(p.tables, ticks[..k + 1]).ranges, p.env.readings(k), |p.env.readings(k)|);
  }

  /** An automatic abort is due only with them enabled and one reading below or above those bounds. */
  lemma AlarmIsOutOfRange(p: Plan, ticks: seq<int>) returns (i: nat)
    requires ticks != [] && Alarm(p, ticks)
    ensures p.autoAbort && i < |p.env.readings(|ticks| - 1)|
    ensures var ranges, r := RangePlay(p.tables, ticks).ranges, p.env.readings(|ticks| - 1)[i];
            && r.sensor in ranges && ranges[r.sensor] != []
            && (r.value < ranges[r.sensor][0].value.low || ranges[r.sensor][0].value.high < r.value)
  {
    var ranges, readings := RangePlay(p.tables, ticks).ranges, p.env.readings(|ticks| - 1);
    ViolatesIff(ranges, readings, |readings|);
    i :| 0 <= i < |readings| && OutOfRange(ranges, readings[i]);
  }

  // ----------------------------------------------------------------------------- the time

  /** The timer between two ticks. */
  ghost predicate Clocked(p: Plan, timer: LoopTimer, ticks: seq<int>)
    reads timer
  {
    && timer.Valid() && timer.interval == p.interval
    && timer.waits == (if ticks == [] then 0 else |ticks| - 1)
    && (if ticks == [] then timer.ElapsedMicros() == 0 else ticks[|ticks| - 1] == timer.ElapsedMicros() + p.start)
    && (ticks != [] ==> p.start + timer.grid <= ticks[|ticks| - 1])
    && Gridded(ticks, p.start, p.interval)
  }

  /** Before a tick no head is missing ... */
  lemma HeadsBeforeTick(p: Plan, ticks: seq<int>)
    requires Sound(p) && Gridded(ticks, p.start, p.interval) && Within(ticks, p.end)
    ensures HeadsReadable(RangePlay(p.tables, ticks))
  {
    GriddedIsOnGrid(ticks, p.start, p.interval);
    SafeHeadsAreReadable(p.tables, p.start, p.end, p.interval, p.autoAbort, ticks);
  }

  /** ... nor after it, if an automatic abort may then be due. */
  lemma HeadsAfterTick(p: Plan, ticks: seq<int>, now: int)
    requires Sound(p) && Gridded(ticks + [now], p.start, p.interval) && Within(ticks, p.end) && p.autoAbort
    ensures HeadsReadable(RangePlay(p.tables, ticks + [now]))
  {
    GriddedIsOnGrid(ticks + [now], p.start, p.interval);
    assert (ticks + [now])[..|ticks|] == ticks;
    SafeHeadsAreReadable(p.tables, p.start, p.end, p.interval, p.autoAbort, ticks + [now]);
  }

  // -------------------------------------------------------------------------- how it ends

  /** All ticks but the last lie within the end time and were begun with the stop flag down; no reading was out of range
      before the last tick, and one was there exactly if the automatic abort ended the process. */
  ghost predicate Ended(p: Plan, ticks: seq<int>, outcome: Outcome) {
    && (outcome == Finished ==> Quiet(p, ticks))
    && (outcome == Faulted ==>
          ticks != [] && Quiet(p, ticks[..|ticks| - 1]) && !p.env.raised(|ticks| - 1) && Alarm(p, ticks))
    && (ticks != [] ==> Within(ticks[..|ticks| - 1], p.end))
    && (p.stopped ==> ticks == [] && outcome == Finished)
  }

  /** A run so far. Unless it was up from the start the stop flag is up exactly when the last tick lies past the end, or
      an automatic abort is under way. */
  ghost predicate Underway(p: Plan, ticks: seq<int>, outcome: Outcome, stop: bool) {
    && Ended(p, ticks, outcome)
    && (outcome == Finished ==> (stop <==> p.stopped || (ticks != [] && ticks[|ticks| - 1] > p.end)))
  }

  lemma UnderwayStep(p: Plan, ticks: seq<int>, now: int, abort: bool)
    requires Underway(p, ticks, Finished, false) && !p.env.raised(|ticks|)
    requires abort <==> Alarm(p, ticks + [now])
    ensures Underway(p, ticks + [now], if abort then Faulted else Finished, now > p.end || abort)
  {
    assert (ticks + [now])[..|ticks|] == ticks;
  }

  /** A run as a whole. The ticks lie on the grid, and a run nobody stops goes exactly one tick past the end. */
  ghost predicate Completed(p: Plan, ticks: seq<int>, outcome: Outcome) {
    && OnGrid(ticks, p.start, p.interval)
    && (outcome == Finished && !p.stopped && !p.env.raised(|ticks|) ==> RanToEnd(ticks, p.end))
    && Ended(p, ticks, outcome)
  }

  /** Leaving the loop completes the run. */
  lemma RunIsComplete(p: Plan, ticks: seq<int>, outcome: Outcome, stop: bool)
    requires Gridded(ticks, p.start, p.interval) && Underway(p, ticks, outcome, stop)
    requires outcome == Finished ==> p.env.raised(|ticks|) || stop
    ensures Completed(p, ticks, outcome)
  {
    GriddedIsOnGrid(ticks, p.start, p.interval);
    if outcome == Finished && !p.stopped && !p.env.raised(|ticks|) {
      WithinIff(ticks[..|ticks| - 1], p.end);
      assert forall k | 0 <= k < |ticks| - 1 :: ticks[k] == ticks[..|ticks| - 1][k];
    }
  }
}
