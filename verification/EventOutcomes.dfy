/** What a call and a single event leave behind, and how a failing event ends its list (SetState of
    src/StateController.cpp, ExecuteCommandOrState of src/EventManager.cpp). */
module EventOutcomes {
  import opened Doubles
  import opened Triggers
  import opened EventManagers
  import opened EventCascade
  import opened EventFirings
  import opened EventAnswers
  import opened EventEffects

  /** After a call and its whole cascade the state itself holds what was written, with the time of the call, and is
      dirty. */
  lemma SetStateHolds(cfg: Config, w: World, s: string, value: Double, timestamp: nat)
    requires Acyclic(cfg)
    ensures var r := SetState(cfg, w, s, value, timestamp).states;
            s in r && r[s].value == value && r[s].timestamp == timestamp && r[s].dirty
  {
    NotInOwnReach(cfg, s);
    RunEventsFramed(cfg, Stored(w, s, value, timestamp), s, OldValue(w, s), value, 0);
  }

  /** An event that sets a state stamps it with the clock, which moves on. */
  lemma AssignmentIsStamped(cfg: Config, w: World, s: string, newValue: Double, k: nat)
    requires Acyclic(cfg) && k < |Events(cfg, s)| && Assigns(Events(cfg, s)[k])
    ensures var t, r := Events(cfg, s)[k].state.value, RunEvent(cfg, w, s, newValue, k).world;
            t in r.states && r.states[t].timestamp == cfg.clock(w.stamps)
  {
    var e := Events(cfg, s)[k];
    RunEventSets(cfg, w, s, newValue, k);
    var arg := Argument(w, s, e.value.value, newValue);
    SetStateHolds(cfg, Prepared(w, s, e, newValue), e.state.value, arg.result.value, cfg.clock(arg.world.stamps));
  }

  /** The event cannot be carried out: it names both a state and a command or neither, no value for its state, or a
      parameter that is no text and no number. */
  predicate Unusable(e: Event) {
    || (e.state.Some? && e.command.Some?) || (e.state.None? && e.command.None?)
    || (e.state.Some? && (e.value.None? || e.value.value.Malformed?))
    || (e.command.Some? && exists p | p in e.parameters :: p.Malformed?)
  }

  /** When such an event triggers, nothing follows from it, and the events after it in the list do not fire. */
  lemma UnusableEndsList(cfg: Config, w: World, s: string, oldValue: Double, newValue: Double, k: nat)
    requires Acyclic(cfg) && k < |Events(cfg, s)| && Unusable(Events(cfg, s)[k])
    requires ShallTrigger(Events(cfg, s)[k].trigger, oldValue, newValue)
    ensures RunEvents(cfg, w, s, oldValue, newValue, k).log == w.log + [Fired(s, k)]
  {
    var e, fired := Events(cfg, s)[k], w.(log := w.log + [Fired(s, k)]);
    if Sets(e) {
      RunEventSets(cfg, fired, s, newValue, k);
    } else {
      RunEventIssues(cfg, fired, s, newValue, k);
      if e.state.None? && e.command.Some? {
        UnusableArguments(fired, Bind(cfg, s).subject, e.parameters, newValue);
      }
    }
  }

  lemma UnusableArguments(w: World, subject: string, ps: seq<Param>, newValue: Double)
    requires exists p | p in ps :: p.Malformed?
    ensures var r := Arguments(w, subject, ps, |ps|, newValue); r.result.Throws? && r.world.log == w.log
  {
    ArgumentsOkIff(w, subject, ps, |ps|, newValue);
    ArgumentsLog(w, subject, ps, |ps|, newValue);
    assert ps[..|ps|] == ps;
  }

  lemma {:induction false} ArgumentsOkIff(w: World, subject: string, ps: seq<Param>, n: nat, newValue: Double)
    requires n <= |ps|
    ensures Arguments(w, subject, ps, n, newValue).result.Ok? <==> forall p | p in ps[..n] :: !p.Malformed?
  {
    if n > 0 {
      ArgumentsOkIff(w, subject, ps, n - 1, newValue);
      assert ps[..n] == ps[..n - 1] + [ps[n - 1]];
    }
  }

  /** A command that throws is issued, and the events after it in the list do not fire. */
  lemma ThrowingCommandEndsList(cfg: Config, w: World, s: string, oldValue: Double, newValue: Double, k: nat)
    requires Acyclic(cfg) && k < |Events(cfg, s)| && Orders(cfg, Bind(cfg, s), Events(cfg, s)[k])
    requires ShallTrigger(Events(cfg, s)[k].trigger, oldValue, newValue)
    requires forall args :: cfg.throws(CommandName(Bind(cfg, s), Events(cfg, s)[k].command.value), args)
    ensures var r := RunEvents(cfg, w, s, oldValue, newValue, k).log;
            |r| == |w.log| + 2 && r[..|r| - 1] == w.log + [Fired(s, k)] && r[|r| - 1].Commanded?
  {
    var b, e, fired := Bind(cfg, s), Events(cfg, s)[k], w.(log := w.log + [Fired(s, k)]);
    RunEventIssues(cfg, fired, s, newValue, k);
    ArgumentsFine(fired, b.subject, e.parameters, |e.parameters|, newValue);
    ArgumentsLog(fired, b.subject, e.parameters, |e.parameters|, newValue);
  }
}
