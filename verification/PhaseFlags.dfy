/** A sensor state that carries a phase code and one flag state per phase, kept up to date by the mapping alone: for
    each phase one event that sets the flag when its code arrives and one that clears it when another value does. */
module PhaseFlags {
  import opened Common
  import opened Doubles
  import opened Triggers
  import opened StateControllers
  import opened EventManagers
  import opened EventCascade
  import opened EventFirings

  function FlagEvent(flag: string, code: nat, isEntry: bool): Event {
    Event(Some(Trigger(if isEntry then IsEqual else IsNotEqual, code as real)), Some(flag),
          Some(Value(if isEntry then 1.0 else 0.0)), None, [])
  }

  /** The events of phase c: the first sets its flag, the second clears it. */
  predicate IsPhase(events: seq<Event>, flags: seq<string>, c: nat)
    requires c < |flags| && |events| == 2 * |flags|
  {
    events[2 * c] == FlagEvent(flags[c], c, true) && events[2 * c + 1] == FlagEvent(flags[c], c, false)
  }

  ghost predicate ArePhaseEvents(events: seq<Event>, flags: seq<string>) {
    |events| == 2 * |flags| && forall c | 0 <= c < |flags| :: IsPhase(events, flags, c)
  }

  /** The mapping lists, flag by flag in the order of their codes, the two events of each. */
  function EventsFor(flags: seq<string>): (events: seq<Event>)
    ensures |events| == 2 * |flags|
  {
    if flags == [] then []
    else
      var n := |flags| - 1;
      EventsFor(flags[..n]) + [FlagEvent(flags[n], n, true), FlagEvent(flags[n], n, false)]
  }

  lemma {:induction false} EventsForArePhases(flags: seq<string>)
    ensures ArePhaseEvents(EventsFor(flags), flags)
  {
    if flags != [] {
      var n := |flags| - 1;
      EventsForArePhases(flags[..n]);
      forall c | 0 <= c < |flags| ensures IsPhase(EventsFor(flags), flags, c) {
        if c < n {
          assert IsPhase(EventsFor(flags[..n]), flags[..n], c);
        }
      }
    }
  }

  /** The sensor has these events, the flags have none, nothing else writes the flags or the sensor, and no other
      event reads the sensor. */
  ghost predicate PhaseMapping(cfg: Config, sensor: string, flags: seq<string>) {
    && Acyclic(cfg)
    && ArePhaseEvents(Events(cfg, sensor), flags)
    && (forall f | f in flags :: Events(cfg, f) == [])
    && (forall s, t | Edge(cfg, s, t) :: t != sensor && (s != sensor ==> t !in flags))
    && NotReadByOthers(cfg, sensor)
  }

  ghost predicate Distinct(sensor: string, flags: seq<string>) {
    && sensor !in flags
    && forall c, d | 0 <= c < d < |flags| :: flags[c] != flags[d]
  }

  function Indicator(v: Double, code: nat): Double {
    if Equal(v, Fin(code as real)) then Fin(1.0) else Fin(0.0)
  }

  /** Flag c exists and is 1 exactly when the value is its code, 0 otherwise. */
  predicate FlagRight(states: States, flags: seq<string>, v: Double, c: nat)
    requires c < |flags|
  {
    Present(states, flags[c]) == Some(Indicator(v, c))
  }

  /** Once the sensor has a value, every flag is the indicator of its code. */
  ghost predicate FlagsRight(states: States, sensor: string, flags: seq<string>) {
    Present(states, sensor).Some? ==>
      forall c | 0 <= c < |flags| :: FlagRight(states, flags, Present(states, sensor).value, c)
  }

  // ------------------------------------------------------------------------ single events

  /** Writing a state without events changes just that state. */
  lemma QuietWrite(cfg: Config, w: World, s: string, value: Double, timestamp: nat)
    requires Acyclic(cfg) && Events(cfg, s) == []
    ensures SetState(cfg, w, s, value, timestamp) == Stored(w, s, value, timestamp)
  {
  }

  /** What a triggered event of the sensor does: it writes its flag, which has no events of its own. */
  lemma EventSetsFlag(cfg: Config, w: World, sensor: string, flags: seq<string>, newValue: Double, k: nat)
    requires PhaseMapping(cfg, sensor, flags) && k < |Events(cfg, sensor)|
    ensures var o := RunEvent(cfg, w, sensor, newValue, k);
            && !o.threw
            && Present(o.world.states, flags[k / 2]) == Some(Fin(if k % 2 == 0 then 1.0 else 0.0))
            && forall t | t != flags[k / 2] :: Present(o.world.states, t) == Present(w.states, t)
  {
    var e, f := Events(cfg, sensor)[k], flags[k / 2];
    assert IsPhase(Events(cfg, sensor), flags, k / 2) && f in flags;
    assert k == 2 * (k / 2) + k % 2;
    assert e == FlagEvent(f, k / 2, k % 2 == 0);
    RunEventSets(cfg, w, sensor, newValue, k);
    QuietWrite(cfg, w.(stamps := w.stamps + 1), f, Fin(if k % 2 == 0 then 1.0 else 0.0), cfg.clock(w.stamps));
  }

  /** The events of the sensor from the k-th on leave the flags of the earlier phases alone and make the others right,
      if they were right for the old value or there was none. */
  lemma {:induction false} EventsSetFlags(cfg: Config, w: World, sensor: string, flags: seq<string>, oldValue: Double,
        newValue: Double, c: nat)
    requires PhaseMapping(cfg, sensor, flags) && Distinct(sensor, flags) && c <= |flags|
    requires oldValue.NaN? || forall d | c <= d < |flags| :: FlagRight(w.states, flags, oldValue, d)
    ensures var r := RunEvents(cfg, w, sensor, oldValue, newValue, 2 * c);
            && (forall d | c <= d < |flags| :: FlagRight(r.states, flags, newValue, d))
            && forall t | (forall d | c <= d < |flags| :: flags[d] != t) :: Present(r.states, t) == Present(w.states, t)
    decreases |flags| - c
  {
    if c < |flags| {
      var v := AfterTurn(cfg, w, sensor, flags, oldValue, newValue, 2 * c);
      var r := AfterTurn(cfg, v, sensor, flags, oldValue, newValue, 2 * c + 1);
      PairIsRight(cfg, w, sensor, flags, oldValue, newValue, c);
      forall d | c + 1 <= d < |flags| ensures oldValue.NaN? || FlagRight(r.states, flags, oldValue, d) {
        assert flags[c] != flags[d];
        assert oldValue.NaN? || FlagRight(w.states, flags, oldValue, d);
      }
      EventsSetFlags(cfg, r, sensor, flags, oldValue, newValue, c + 1);
    }
  }

  /** The world after the k-th event of the sensor had its turn, triggered or not. */
  ghost function AfterTurn(cfg: Config, w: World, sensor: string, flags: seq<string>, oldValue: Double,
        newValue: Double, k: nat): (r: World)
    requires PhaseMapping(cfg, sensor, flags) && k < |Events(cfg, sensor)|
    ensures RunEvents(cfg, w, sensor, oldValue, newValue, k) == RunEvents(cfg, r, sensor, oldValue, newValue, k + 1)
  {
    if ShallTrigger(Events(cfg, sensor)[k].trigger, oldValue, newValue) then
      var fired := w.(log := w.log + [Fired(sensor, k)]);
      EventSetsFlag(cfg, fired, sensor, flags, newValue, k);
      RunEvent(cfg, fired, sensor, newValue, k).world
    else w
  }

  lemma TurnSetsFlag(cfg: Config, w: World, sensor: string, flags: seq<string>, oldValue: Double, newValue: Double,
        k: nat)
    requires PhaseMapping(cfg, sensor, flags) && k < |Events(cfg, sensor)|
    ensures var r := AfterTurn(cfg, w, sensor, flags, oldValue, newValue, k);
            && Present(r.states, flags[k / 2]) ==
                 (if ShallTrigger(Events(cfg, sensor)[k].trigger, oldValue,
                     newValue) then Some(Fin(if k % 2 == 0 then 1.0 else 0.0))
                  else Present(w.states, flags[k / 2]))
            && forall t | t != flags[k / 2] :: Present(r.states, t) == Present(w.states, t)
  {
    EventSetsFlag(cfg, w.(log := w.log + [Fired(sensor, k)]), sensor, flags, newValue, k);
  }

  lemma PairIsRight(cfg: Config, w: World, sensor: string, flags: seq<string>, oldValue: Double, newValue: Double,
        c: nat)
    requires PhaseMapping(cfg, sensor, flags) && c < |flags|
    requires oldValue.NaN? || FlagRight(w.states, flags, oldValue, c)
    ensures var v := AfterTurn(cfg, w, sensor, flags, oldValue, newValue, 2 * c);
            var r := AfterTurn(cfg, v, sensor, flags, oldValue, newValue, 2 * c + 1);
            FlagRight(r.states, flags, newValue, c)
                && forall t | t != flags[c] :: Present(r.states, t) == Present(w.states, t)
  {
    var v := AfterTurn(cfg, w, sensor, flags, oldValue, newValue, 2 * c);
    assert IsPhase(Events(cfg, sensor), flags, c);
    Halves(c);
    TurnSetsFlag(cfg, w, sensor, flags, oldValue, newValue, 2 * c);
    TurnSetsFlag(cfg, v, sensor, flags, oldValue, newValue, 2 * c + 1);
    assert Events(cfg, sensor)[2 * c].trigger == FlagEvent(flags[c], c, true).trigger;
    assert Events(cfg, sensor)[2 * c + 1].trigger == FlagEvent(flags[c], c, false).trigger;
    ComplementaryTriggers(flags[c], c, oldValue, newValue);
  }

  lemma Halves(c: nat)
    ensures (2 * c) / 2 == c && (2 * c + 1) / 2 == c && (2 * c) % 2 == 0 && (2 * c + 1) % 2 == 1
  {
  }

  /** At most one of the two events of a flag triggers, and if neither does the flag need not change. */
  lemma ComplementaryTriggers(flag: string, c: nat, oldValue: Double, newValue: Double)
    ensures var first, second := ShallTrigger(FlagEvent(flag, c, true).trigger, oldValue, newValue),
        ShallTrigger(FlagEvent(flag, c, false).trigger, oldValue, newValue);
            && (first ==> !second && Indicator(newValue, c) == Fin(1.0))
            && (second ==> Indicator(newValue, c) == Fin(0.0))
            && (!first && !second ==> !oldValue.NaN? && Indicator(newValue, c) == Indicator(oldValue, c))
  {
  }

  // -------------------------------------------------------------------------- whole runs

  lemma SensorWrite(cfg: Config, w: World, sensor: string, flags: seq<string>, value: Double, timestamp: nat)
    requires PhaseMapping(cfg, sensor, flags) && Distinct(sensor, flags) && FlagsRight(w.states, sensor, flags)
    ensures var r := SetState(cfg, w, sensor, value, timestamp);
            Present(r.states, sensor) == Some(value) && FlagsRight(r.states, sensor, flags)
  {
    var stored := Stored(w, sensor, value, timestamp);
    forall d | 0 <= d < |flags|
      ensures flags[d] != sensor
      ensures Present(w.states, sensor).Some? ==> FlagRight(stored.states, flags, OldValue(w, sensor), d)
    {
      assert flags[d] in flags;
      if Present(w.states, sensor).Some? {
        assert FlagRight(w.states, flags, Present(w.states, sensor).value, d);
      }
    }
    EventsSetFlags(cfg, stored, sensor, flags, OldValue(w, sensor), value, 0);
  }

  /** No other state leads to the sensor or to a flag. */
  lemma {:induction false} OutOfReach(cfg: Config, sensor: string, flags: seq<string>, s: string, t: string, n: nat)
    requires PhaseMapping(cfg, sensor, flags) && s != sensor && Path(cfg, s, t, n)
    ensures t != sensor && t !in flags
    decreases n
  {
    if n == 0 {
      assert Edge(cfg, s, t);
    } else {
      var m :| Edge(cfg, s, m) && Path(cfg, m, t, n - 1);
      OutOfReach(cfg, sensor, flags, m, t, n - 1);
    }
  }

  lemma OtherWrite(cfg: Config, w: World, sensor: string, flags: seq<string>, s: string, value: Double, timestamp: nat)
    requires PhaseMapping(cfg, sensor, flags) && FlagsRight(w.states, sensor, flags)
    requires s != sensor && s !in flags
    ensures var r := SetState(cfg, w, s, value, timestamp);
            Present(r.states, sensor) == Present(w.states, sensor) && FlagsRight(r.states, sensor, flags)
  {
    forall t | t in Reach(cfg, s) ensures t != sensor && t !in flags {
      var n: nat :| Path(cfg, s, t, n);
      OutOfReach(cfg, sensor, flags, s, t, n);
    }
    SetStateSame(cfg, w, s, value, timestamp, sensor);
    SetStateFramed(cfg, w, s, value, timestamp);
    var r := SetState(cfg, w, s, value, timestamp);
    if Present(w.states, sensor).Some? {
      forall c | 0 <= c < |flags| ensures FlagRight(r.states, flags, Present(w.states, sensor).value, c) {
        assert FlagRight(w.states, flags, Present(w.states, sensor).value, c);
        assert flags[c] in flags && flags[c] in r.states;
      }
    }
  }

  /** In every world reached from one without the sensor, by any calls that leave the flags to the mapping, the flags
      are the indicator of the sensor's value; and the sensor has the value written to it last. */
  lemma {:induction false} FlagsAreIndicator(cfg: Config, w: World, sensor: string, flags: seq<string>,
        calls: seq<Call>)
    requires PhaseMapping(cfg, sensor, flags) && Distinct(sensor, flags) && Present(w.states, sensor) == None
    requires forall c | c in calls :: c.name !in flags
    ensures var r := RunCalls(cfg, w, calls);
            && FlagsRight(r.states, sensor, flags)
            && Present(r.states, sensor) == LastWritten(calls, sensor)
  {
    if calls != [] {
      var c, before := calls[|calls| - 1], RunCalls(cfg, w, calls[..|calls| - 1]);
      FlagsAreIndicator(cfg, w, sensor, flags, calls[..|calls| - 1]);
      assert c in calls;
      if c.name == sensor {
        SensorWrite(cfg, before, sensor, flags, c.value, c.timestamp);
      } else {
        OtherWrite(cfg, before, sensor, flags, c.name, c.value, c.timestamp);
      }
    }
  }

  function LastWritten(calls: seq<Call>, s: string): Option<Double> {
    if calls == [] then None
    else if calls[|calls| - 1].name == s then Some(calls[|calls| - 1].value)
    else LastWritten(calls[..|calls| - 1], s)
  }

  /** So at most one flag is 1 at any time after the first write of the sensor. */
  lemma AtMostOneFlag(states: States, sensor: string, flags: seq<string>, c: nat, d: nat)
    requires FlagsRight(states, sensor, flags) && Present(states, sensor).Some? && c < |flags| && d < |flags|
    requires Present(states, flags[c]) == Some(Fin(1.0)) && Present(states, flags[d]) == Some(Fin(1.0))
    ensures c == d && Present(states, sensor) == Some(Fin(c as real))
  {
    assert FlagRight(states, flags, Present(states, sensor).value, c);
    assert FlagRight(states, flags, Present(states, sensor).value, d);
  }
}
