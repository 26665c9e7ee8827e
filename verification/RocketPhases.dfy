/** The phase flags of the sample mapping (sample_config/mapping.json): rocket:sensor and its eight flags. */
module RocketPhases {
  import opened Common
  import opened Doubles
  import opened Texts
  import opened Triggers
  import opened EventManagers
  import opened EventCascade
  import opened EventFirings
  import opened EventAnswers
  import opened PhaseFlags

  const SENSOR := "rocket:sensor"

  const PHASES: seq<string> := [
    "PadIdle", "AutoCheck", "IgnitionSequence", "HoldDown",
    "PoweredAscent", "UnpoweredAscent", "Depress", "AbortFlowChart"]

  function Flag(code: nat): string
    requires code < 8
  {
    "rocket:" + PHASES[code]
  }

  const FLAGS: seq<string> := [Flag(0), Flag(1), Flag(2), Flag(3), Flag(4), Flag(5), Flag(6), Flag(7)]

  lemma SampleFlagsDistinct()
    ensures Distinct(SENSOR, FLAGS)
  {
    forall code | 0 <= code < 8
      ensures FLAGS[code][7] == PHASES[code][0] && FLAGS[code][8] == PHASES[code][1]
    {
      assert FLAGS[code] == Flag(code);
    }
    assert SENSOR[7] == 's';
  }

  /** What the sample mapping is, as far as the phases are concerned. */
  ghost predicate SampleMapping(cfg: Config) {
    && Acyclic(cfg) && Events(cfg, SENSOR) == EventsFor(FLAGS)
    && (forall f | f in FLAGS :: Events(cfg, f) == [])
    && (forall s, t | Edge(cfg, s, t) :: t != SENSOR && (s != SENSOR ==> t !in FLAGS))
    && NotReadByOthers(cfg, SENSOR)
  }

  /** After any run with at least one write of rocket:sensor, starting from an absent key, each of the eight flags is 1
      exactly when the sensor equals its code, and 0 otherwise. */
  lemma RocketFlagsAreIndicator(cfg: Config, w: World, calls: seq<Call>, v: Double)
    requires SampleMapping(cfg) && Present(w.states, SENSOR) == None
    requires (forall c | c in calls :: c.name !in FLAGS) && LastWritten(calls, SENSOR) == Some(v)
    ensures var r := RunCalls(cfg, w, calls);
            && Present(r.states, SENSOR) == Some(v)
            && forall code | 0 <= code < |FLAGS| :: FlagRight(r.states, FLAGS, v, code)
  {
    EventsForArePhases(FLAGS);
    SampleFlagsDistinct();
    FlagsAreIndicator(cfg, w, SENSOR, FLAGS, calls);
  }

  lemma {:induction false} EventsForSetFlags(flags: seq<string>, e: Event)
    requires e in EventsFor(flags)
    ensures e.state.Some? && e.state.value in flags && e.value.Some? && e.value.value.Value? && e.parameters == []
    ensures e.command.None?
  {
    var n := |flags| - 1;
    if e in EventsFor(flags[..n]) {
      EventsForSetFlags(flags[..n], e);
    }
  }

  lemma EventsForFine(cfg: Config)
    requires Events(cfg, SENSOR) == EventsFor(FLAGS)
    ensures EventsFine(cfg, SENSOR)
  {
    forall e | e in Events(cfg, SENSOR)
      ensures e.state.Some? && e.command.None? && e.value.Some? && e.value.value.Value?
    {
      EventsForSetFlags(FLAGS, e);
    }
  }

  /** The two events of a phase fire in strict alternation over any run of calls, and the last firing tells whether the
      rocket is in the phase, whatever the other events do. */
  lemma PhaseFiresAlternately(cfg: Config, w: World, calls: seq<Call>, code: nat)
    requires SampleMapping(cfg) && w.log == [] && code < |FLAGS|
    requires AllNumbers(News(WritesTo(RunCalls(cfg, w, calls).log, SENSOR)))
    ensures var log := RunCalls(cfg, w, calls).log;
            var pair := PairLog(log, SENSOR, 2 * code, 2 * code + 1);
            Alternates(pair) && TellsSide(Trigger(IsEqual, code as real), Seen(WritesTo(log, SENSOR)), pair)
  {
    EventsForFine(cfg);
    EventsForArePhases(FLAGS);
    assert IsPhase(EventsFor(FLAGS), FLAGS, code);
    PairFiresAlternately(cfg, w, calls, SENSOR, 2 * code, 2 * code + 1);
  }

  // ------------------------------------------------------------------- the sample itself

  const CLEAR := "gui:Flash:Clear"

  /** A flash status other than 0 resets the clear button. */
  const FLASH := Event(Some(Trigger(IsNotEqual, 0.0)), Some(CLEAR), Some(Value(0.0)), None, [])

  /** An entry that names a state and no value: it throws when it triggers. */
  function Valueless(state: string): Event {
    Event(None, Some(state), None, None, [])
  }

  /** All events of the sample that name a state. */
  const STATE_EVENTS: map<string, seq<Event>> := map[
    SENSOR := EventsFor(FLAGS),
    "engine_ecu:FlashStatus" := [FLASH], "ox_ecu:FlashStatus" := [FLASH],
    "fuel_ecu:FlashStatus" := [FLASH], "rcu:FlashStatus" := [FLASH],
    "fuel_rocket:GetRocketState" := [Valueless("fuel_rocket:GetRocketState")],
    "ox_rocket:GetRocketState" := [Valueless("ox_rocket:GetRocketState")]]

  /** Events that issue commands and do not read the sensor. */
  ghost predicate OnlyCommands(m: map<string, seq<Event>>) {
    forall s, e | s in m && e in m[s] :: e.state.None? && e.value.None? && Named(SENSOR) !in e.parameters
  }

  /** The sample: its state events and, for other states than the flags, any events that issue commands. */
  ghost predicate IsSample(cfg: Config, others: map<string, seq<Event>>) {
    && cfg.mapping == others + STATE_EVENTS
    && OnlyCommands(others) && OnlyCommands(cfg.defaults) && forall f | f in FLAGS :: f !in others
  }

  /** What an event of the sample can be. */
  predicate InSample(s: string, e: Event) {
    || (e.state.None? && e.value.None? && Named(SENSOR) !in e.parameters)
    || (s == SENSOR && e.state.Some? && e.state.value in FLAGS && e.value.Some? && e.value.value.Value?
        && e.parameters == [])
    || (s != SENSOR && (e == FLASH || (e.state.Some? && e == Valueless(e.state.value))))
  }

  lemma SampleEvent(cfg: Config, others: map<string, seq<Event>>, s: string, e: Event)
    requires IsSample(cfg, others) && e in Events(cfg, s)
    ensures InSample(s, e)
  {
    if s == SENSOR {
      EventsForSetFlags(FLAGS, e);
    } else if s in STATE_EVENTS {
      assert e == FLASH || e == Valueless(s);
    }
  }

  lemma FlagsAreRockets(f: string)
    requires f in FLAGS
    ensures |f| > 7 && f[0] == 'r' && f[1] == 'o' && f[7] != 's'
  {
    var code :| 0 <= code < 8 && FLAGS[code] == f;
    assert f == Flag(code) && f[7] == PHASES[code][0];
  }

  /** How the states that have such events are spelled. */
  predicate SpelledAsSource(t: string) {
    |t| > 7 && (t[0] == 'e' || t[0] == 'o' || t[0] == 'f' || t[1] == 'c' || (t[0] == 'r' && t[7] == 's'))
  }

  lemma SourcesAreSpelled(t: string)
    ensures t in STATE_EVENTS ==> SpelledAsSource(t)
  {
  }

  /** What is written has no event that writes. */
  lemma TargetsAreQuiet(t: string)
    requires t in FLAGS || t == CLEAR
    ensures t != SENSOR && !SpelledAsSource(t)
  {
    if t in FLAGS {
      FlagsAreRockets(t);
    } else {
      assert t[0] == 'g' && t[1] == 'u';
    }
    assert SENSOR[0] == 'r' && SENSOR[7] == 's';
  }

  lemma ClearIsNoFlag()
    ensures CLEAR !in FLAGS
  {
    if CLEAR in FLAGS {
      FlagsAreRockets(CLEAR);
    }
  }

  lemma SampleEdge(cfg: Config, others: map<string, seq<Event>>, s: string, t: string)
    requires IsSample(cfg, others) && Edge(cfg, s, t)
    ensures if s == SENSOR then t in FLAGS else SpelledAsSource(s) && t == CLEAR
  {
    var e :| e in Events(cfg, s) && Writes(e, t);
    SourcesAreSpelled(s);
    SampleEvent(cfg, others, s, e);
  }

  lemma Spelled(text: string, pattern: string)
    ensures var hit := Find(text, pattern, 0);
            hit.Some? ==> forall k | 0 <= k < |pattern| :: text[hit.value + k] == pattern[k]
  {
    var hit := Find(text, pattern, 0);
    if hit.Some? {
      forall k | 0 <= k < |pattern| ensures text[hit.value + k] == pattern[k] {
        assert text[hit.value + k] == text[hit.value..hit.value + |pattern|][k];
      }
    }
  }

  lemma NoGui(phase: string)
    requires ':' !in phase
    ensures !Contains("rocket:" + phase, "gui:")
  {
    var f := "rocket:" + phase;
    forall i | 0 <= i < |f| ensures if i < 7 then f[i] != 'g' else f[i] != ':' {
      assert f[i] == if i < 7 then "rocket:"[i] else phase[i - 7];
    }
    Spelled(f, "gui:");
    assert "gui:"[0] == 'g' && "gui:"[3] == ':';
  }

  lemma NoReturn(cfg: Config, others: map<string, seq<Event>>, s: string, n: nat)
    requires IsSample(cfg, others)
    ensures !Path(cfg, s, s, n)
  {
    if Path(cfg, s, s, n) {
      var m :| Edge(cfg, s, m) && (n == 0 ==> m == s) && (n > 0 ==> Path(cfg, m, s, n - 1));
      SampleEdge(cfg, others, s, m);
      TargetsAreQuiet(m);
      var u :| Edge(cfg, m, u);
      SampleEdge(cfg, others, m, u);
      assert false;
    }
  }

  lemma SampleIsAcyclic(cfg: Config, others: map<string, seq<Event>>)
    requires IsSample(cfg, others)
    ensures Acyclic(cfg)
  {
    forall s ensures !Reaches(cfg, s, s) {
      forall n: nat ensures !Path(cfg, s, s, n) {
        NoReturn(cfg, others, s, n);
      }
    }
  }

  lemma SampleFlagsAreQuiet(cfg: Config, others: map<string, seq<Event>>, f: string)
    requires IsSample(cfg, others) && f in FLAGS
    ensures Events(cfg, f) == []
  {
    TargetsAreQuiet(f);
    SourcesAreSpelled(f);
    var k :| 0 <= k < |FLAGS| && FLAGS[k] == f;
    assert FLAGS[k] == Flag(k);
    NoGui(PHASES[k]);
  }

  lemma SampleReads(cfg: Config, others: map<string, seq<Event>>)
    requires IsSample(cfg, others)
    ensures NotReadByOthers(cfg, SENSOR)
  {
    forall s, e | e in Events(cfg, s) ensures InSample(s, e) {
      SampleEvent(cfg, others, s, e);
    }
  }

  /** The sample meets what is asked of it, whatever its commands are. */
  lemma SampleMeetsMapping(cfg: Config, others: map<string, seq<Event>>)
    requires IsSample(cfg, others)
    ensures SampleMapping(cfg)
  {
    SampleIsAcyclic(cfg, others);
    SampleReads(cfg, others);
    forall f | f in FLAGS ensures Events(cfg, f) == [] {
      SampleFlagsAreQuiet(cfg, others, f);
    }
    forall s, t | Edge(cfg, s, t) ensures t != SENSOR && (s != SENSOR ==> t !in FLAGS) {
      SampleEdge(cfg, others, s, t);
      TargetsAreQuiet(t);
      ClearIsNoFlag();
    }
  }

  function Command(name: string, parameters: seq<Param>): Event {
    Event(None, None, None, Some(name), parameters)
  }

  const FLASH_COMMANDS: map<string, seq<Event>> := map[
    CLEAR := [Command("engine_ecu:RequestFlashClear", []), Command("ox_ecu:RequestFlashClear", []),
              Command("fuel_ecu:RequestFlashClear", []), Command("rcu:RequestFlashClear", [])]]

  const DEFAULTS: map<string, seq<Event>> := map[
    "DigitalOut" := [Command("DigitalOut:SetState", [Named("DigitalOut")])],
    "Servo" := [Command("Servo:SetTargetPosition", [Named("Servo")])]]

  function SampleConfig(channelTypes: map<string, string>, commands: set<string>,
                        throws: (string, seq<Double>) -> bool, clock: nat -> nat): Config
  {
    Config(FLASH_COMMANDS + STATE_EVENTS, DEFAULTS, channelTypes, commands, throws, clock)
  }

  /** So there are mappings of this kind: one holds the state events of the sample, the commands they lead to and its
      default mapping. */
  lemma SampleConfigMeetsMapping(channelTypes: map<string, string>, commands: set<string>,
                                 throws: (string, seq<Double>) -> bool, clock: nat -> nat)
    ensures SampleMapping(SampleConfig(channelTypes, commands, throws, clock))
  {
    ClearIsNoFlag();
    DefaultsOnlyCommand();
    SampleMeetsMapping(SampleConfig(channelTypes, commands, throws, clock), FLASH_COMMANDS);
  }

  lemma DefaultsOnlyCommand()
    ensures OnlyCommands(FLASH_COMMANDS) && OnlyCommands(DEFAULTS)
  {
    assert SENSOR[0] == 'r' && "DigitalOut"[0] == 'D' && "Servo"[0] == 'S';
  }
}
