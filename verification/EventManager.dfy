/** The event cascade: SetState of src/StateController.cpp calls OnStateChange of src/EventManager.cpp, which
    evaluates the mapped events and may set further states. */
module EventManagers {
  import opened Common
  import opened Doubles
  import opened Texts
  import opened Triggers
  import opened StateControllers

  datatype Param = Named(state: string) | Value(x: real) | Malformed

  /** An entry of the mapping. It sets a state to a value or issues a command; anything else throws. */
  datatype Event = Event(
    trigger: Option<Trigger>, state: Option<string>, value: Option<Param>,
    command: Option<string>, parameters: seq<Param>)

  /** The two mappings, the known commands, which of them throw, and the clock that stamps cascaded writes. */
  datatype Config = Config(
    mapping: map<string, seq<Event>>, defaults: map<string, seq<Event>>, channelTypes: map<string, string>,
    commands: set<string>, throws: (string, seq<Double>) -> bool, clock: nat -> nat)

  /** A write of a state with the value it found, an event that triggered, a command issued. */
  datatype Effect =
    | Wrote(name: string, oldValue: Double, newValue: Double)
    | Fired(name: string, index: nat)
    | Commanded(name: string, args: seq<Double>)

  datatype World = World(states: States, log: seq<Effect>, stamps: nat)

  /** The events of a state, the name its parameters may use for it, and the channel that replaces the type
      name in commands of the default mapping. */
  datatype Binding = Binding(events: seq<Event>, subject: string, channel: string, isDefault: bool)

  function Bind(cfg: Config, s: string): Binding {
    if s in cfg.mapping then Binding(cfg.mapping[s], s, s, false)
    else if Contains(s, "gui:") then
      var channel := ReplaceFirst(ReplaceFirst(s, "gui:", ""), ":sensor", "");
      var typeName := if channel in cfg.channelTypes then cfg.channelTypes[channel] else "";
      Binding(if typeName in cfg.defaults then cfg.defaults[typeName] else [], typeName, channel, true)
    else Binding([], s, s, false)
  }

  function Events(cfg: Config, s: string): seq<Event> {
    Bind(cfg, s).events
  }

  // ------------------------------------------------------------------ the graph of states

  /** The event writes the state. */
  predicate Writes(e: Event, t: string) {
    e.state == Some(t) && e.command.None? && e.value.Some?
  }

  ghost predicate Edge(cfg: Config, s: string, t: string) {
    exists e | e in Events(cfg, s) :: Writes(e, t)
  }

  ghost predicate Path(cfg: Config, s: string, t: string, n: nat)
    decreases n
  {
    if n == 0 then Edge(cfg, s, t) else exists m :: Edge(cfg, s, m) && Path(cfg, m, t, n - 1)
  }

  ghost predicate Reaches(cfg: Config, s: string, t: string) {
    exists n: nat :: Path(cfg, s, t, n)
  }

  /** No state can set itself, directly or through others. */
  ghost predicate Acyclic(cfg: Config) {
    forall s :: !Reaches(cfg, s, s)
  }

  function TargetsOf(m: map<string, seq<Event>>): set<string> {
    set s, k | s in m && 0 <= k < |m[s]| && m[s][k].state.Some? :: m[s][k].state.value
  }

  /** All states reachable from a state; finite, because every target is named in one of the mappings. */
  ghost function Reach(cfg: Config, s: string): set<string> {
    set t | t in TargetsOf(cfg.mapping) + TargetsOf(cfg.defaults) && Reaches(cfg, s, t)
  }

  lemma EdgeInReach(cfg: Config, s: string, t: string)
    requires Edge(cfg, s, t)
    ensures t in Reach(cfg, s)
  {
    assert Path(cfg, s, t, 0);
    var e :| e in Events(cfg, s) && Writes(e, t);
    var k :| 0 <= k < |Events(cfg, s)| && Events(cfg, s)[k] == e;
    if s in cfg.mapping {
      assert cfg.mapping[s][k].state.value == t;
    } else {
      assert cfg.defaults[Bind(cfg, s).subject][k].state.value == t;
    }
  }

  /** Following an edge of an acyclic mapping leaves strictly fewer states to reach. */
  lemma EdgeShrinks(cfg: Config, s: string, t: string)
    requires Acyclic(cfg) && Edge(cfg, s, t)
    ensures Reach(cfg, t) < Reach(cfg, s)
  {
    EdgeInReach(cfg, s, t);
    forall u | u in Reach(cfg, t) ensures u in Reach(cfg, s) {
      var n: nat :| Path(cfg, t, u, n);
      assert Path(cfg, s, u, n + 1);
    }
    assert t !in Reach(cfg, t);
  }

  // --------------------------------------------------------------------------- parameters

  datatype Evaluated<T> = Evaluated(world: World, result: Result<T>)

  /** A name is the new value of the state itself, or another state, inserted as zero when missing. */
  function Argument(w: World, subject: string, p: Param, newValue: Double): Evaluated<Double> {
    match p
    case Named(n) =>
      if n == subject then Evaluated(w, Ok(newValue))
      else Evaluated(w.(states := Touched(w.states, n)), Ok(ValueOf(w.states, n)))
    case Value(x) => Evaluated(w, Ok(Fin(x)))
    case Malformed => Evaluated(w, Throws)
  }

  /** The first n arguments, evaluated one after the other. */
  function Arguments(w: World, subject: string, ps: seq<Param>, n: nat, newValue: Double): Evaluated<seq<Double>>
    requires n <= |ps|
  {
    if n == 0 then Evaluated(w, Ok([]))
    else
      var before := Arguments(w, subject, ps, n - 1, newValue);
      if before.result.Throws? then before
      else
        var last := Argument(before.world, subject, ps[n - 1], newValue);
        Evaluated(last.world, if last.result.Throws? then Throws else Ok(before.result.value + [last.result.value]))
  }

  // ------------------------------------------------------------------------- the cascade

  /** The world an event leaves, and whether it threw, which drops the events after it. */
  datatype Outcome = Outcome(world: World, threw: bool)

  function CommandName(b: Binding, command: string): string {
    if b.isDefault then ReplaceFirst(command, b.subject, b.channel) else command
  }

  function IssueCommand(cfg: Config, w: World, b: Binding, e: Event, newValue: Double): Outcome
    requires e.command.Some?
  {
    var args := Arguments(w, b.subject, e.parameters, |e.parameters|, newValue);
    if args.result.Throws? then Outcome(args.world, true)
    else
      var name := CommandName(b, e.command.value);
      if name !in cfg.commands then Outcome(args.world, false)
      else
        Outcome(args.world.(log := args.world.log + [Commanded(name, args.result.value)]),
                cfg.throws(name, args.result.value))
  }

  function OldValue(w: World, s: string): Double {
    if s in w.states then w.states[s].value else NaN
  }

  function Stored(w: World, s: string, value: Double, timestamp: nat): World {
    World(Written(w.states, s, value, timestamp), w.log + [Wrote(s, OldValue(w, s), value)], w.stamps)
  }

  /** SetState: the write and everything it sets off. */
  ghost function SetState(cfg: Config, w: World, s: string, value: Double, timestamp: nat): World
    requires Acyclic(cfg)
    decreases Reach(cfg, s), 2, 0
  {
    RunEvents(cfg, Stored(w, s, value, timestamp), s, OldValue(w, s), value, 0)
  }

  /** The events of a state from the k-th on; an exception ends the list and is swallowed. */
  ghost function RunEvents(cfg: Config, w: World, s: string, oldValue: Double, newValue: Double, k: nat): World
    requires Acyclic(cfg) && k <= |Events(cfg, s)|
    decreases Reach(cfg, s), 1, |Events(cfg, s)| - k
  {
    if k == |Events(cfg, s)| then w
    else if !ShallTrigger(Events(cfg, s)[k].trigger, oldValue, newValue) then
      RunEvents(cfg, w, s, oldValue, newValue, k + 1)
    else
      var o := RunEvent(cfg, w.(log := w.log + [Fired(s, k)]), s, newValue, k);
      if o.threw then o.world else RunEvents(cfg, o.world, s, oldValue, newValue, k + 1)
  }

  /** One triggered event. */
  ghost function RunEvent(cfg: Config, w: World, s: string, newValue: Double, k: nat): Outcome
    requires Acyclic(cfg) && k < |Events(cfg, s)|
    decreases Reach(cfg, s), 0, 0
  {
    var e := Events(cfg, s)[k];
    if e.state.Some? && e.command.Some? then Outcome(w, true)
    else if e.state.Some? then
      if e.value.None? then Outcome(w, true)
      else
        var arg := Argument(w, s, e.value.value, newValue);
        if arg.result.Throws? then Outcome(arg.world, true)
        else
          assert Writes(e, e.state.value) && e in Events(cfg, s);
          EdgeShrinks(cfg, s, e.state.value);
          Outcome(SetState(cfg, arg.world.(stamps := arg.world.stamps + 1), e.state.value, arg.result.value,
                           cfg.clock(arg.world.stamps)), false)
    else if e.command.Some? then IssueCommand(cfg, w, Bind(cfg, s), e, newValue)
    else Outcome(w, true)
  }

  /** The event is one that sets a state. */
  predicate Sets(e: Event) {
    e.state.Some? && e.command.None? && e.value.Some?
  }

  /** The world in which an event sets its state: its argument is evaluated and the clock has been read. */
  function Prepared(w: World, s: string, e: Event, newValue: Double): World
    requires Sets(e)
  {
    var arg := Argument(w, s, e.value.value, newValue);
    arg.world.(stamps := arg.world.stamps + 1)
  }

  /** Running an event that sets a state is a write to a state from which fewer states can be reached. */
  lemma RunEventSets(cfg: Config, w: World, s: string, newValue: Double, k: nat)
    requires Acyclic(cfg) && k < |Events(cfg, s)| && Sets(Events(cfg, s)[k])
    ensures var e := Events(cfg, s)[k];
            var arg := Argument(w, s, e.value.value, newValue);
            && Edge(cfg, s, e.state.value) && Reach(cfg, e.state.value) < Reach(cfg, s)
            && RunEvent(cfg, w, s, newValue, k) ==
                 if arg.result.Throws? then Outcome(arg.world, true)
                 else Outcome(SetState(cfg, Prepared(w, s, e, newValue), e.state.value, arg.result.value,
                                       cfg.clock(arg.world.stamps)), false)
  {
    var e := Events(cfg, s)[k];
    assert Writes(e, e.state.value) && e in Events(cfg, s);
    EdgeShrinks(cfg, s, e.state.value);
  }

  /** Any other event issues a command or fails. */
  lemma RunEventIssues(cfg: Config, w: World, s: string, newValue: Double, k: nat)
    requires Acyclic(cfg) && k < |Events(cfg, s)| && !Sets(Events(cfg, s)[k])
    ensures var e := Events(cfg, s)[k];
            RunEvent(cfg, w, s, newValue, k) ==
              if e.state.None? && e.command.Some? then IssueCommand(cfg, w, Bind(cfg, s), e, newValue)
              else Outcome(w, true)
  {
  }
}
