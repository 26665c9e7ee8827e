/** What follows a firing in the log (ExecuteCommandOrState and GetArgument of src/EventManager.cpp): a known command
    with its arguments, or the write of a state, told from the parameters of the event and what the log says before. */
module EventEffects {
  import opened Doubles
  import opened Triggers
  import opened StateControllers
  import opened EventManagers
  import opened EventFirings
  import opened EventAnswers
  import opened EventValues

  // ------------------------------------------------------------------- what a firing asks

  /** The event issues a command that exists, with usable parameters. */
  predicate Orders(cfg: Config, b: Binding, e: Event) {
    && e.state.None? && e.command.Some? && CommandName(b, e.command.value) in cfg.commands
    && forall p | p in e.parameters :: !p.Malformed?
  }

  /** The event sets a state to a usable value. */
  predicate Assigns(e: Event) {
    Sets(e) && !e.value.value.Malformed?
  }

  predicate Demands(cfg: Config, f: Effect) {
    && f.Fired? && f.index < |Events(cfg, f.name)|
    && (Orders(cfg, Bind(cfg, f.name), Events(cfg, f.name)[f.index]) || Assigns(Events(cfg, f.name)[f.index]))
  }

  /** e is what the event of a state asks for, after the effects of log. */
  ghost predicate Fulfils(start: States, log: seq<Effect>, b: Binding, s: string, event: Event, e: Effect) {
    if Assigns(event) then
      && e.Wrote? && e.name == event.state.value
      && StandsFor(s, event.value.value, Told(start, log, s), ToldBy(start, log), e.newValue)
    else
      && e.Commanded? && event.command.Some? && e.name == CommandName(b, event.command.value)
      && StandFor(b.subject, event.parameters, Told(start, log, s), ToldBy(start, log), e.args)
  }

  ghost predicate Meets(cfg: Config, start: States, log: seq<Effect>, f: Effect, e: Effect)
    requires Demands(cfg, f)
  {
    Fulfils(start, log, Bind(cfg, f.name), f.name, Events(cfg, f.name)[f.index], e)
  }

  predicate Pending(cfg: Config, log: seq<Effect>) {
    log != [] && Demands(cfg, log[|log| - 1])
  }

  /** A firing that asks for something is followed by that at once, and no command is issued otherwise. */
  ghost predicate Next(cfg: Config, start: States, log: seq<Effect>, e: Effect) {
    && (Pending(cfg, log) ==> Meets(cfg, start, log[..|log| - 1], log[|log| - 1], e))
    && (e.Commanded? ==> Pending(cfg, log))
  }

  ghost predicate Consistent(cfg: Config, start: States, log: seq<Effect>) {
    log == [] ||
    (Consistent(cfg, start, log[..|log| - 1]) && Next(cfg, start, log[..|log| - 1], log[|log| - 1]))
  }

  lemma ConsistentAppend(cfg: Config, start: States, log: seq<Effect>, e: Effect)
    ensures Consistent(cfg, start, log + [e]) <==> Consistent(cfg, start, log) && Next(cfg, start, log, e)
  {
    assert (log + [e])[..|log|] == log;
  }

  ghost predicate Orderly(cfg: Config, start: States, w: World) {
    Truthful(start, w) && Consistent(cfg, start, w.log) && !Pending(cfg, w.log)
  }

  lemma FiringConsistent(cfg: Config, start: States, log: seq<Effect>, f: Effect)
    requires Consistent(cfg, start, log) && !Pending(cfg, log) && f.Fired?
    ensures Consistent(cfg, start, log + [f])
    ensures Pending(cfg, log + [f]) <==> Demands(cfg, f)
  {
    ConsistentAppend(cfg, start, log, f);
  }

  lemma DemandMet(cfg: Config, start: States, log: seq<Effect>, f: Effect, e: Effect)
    requires Consistent(cfg, start, log + [f]) && Demands(cfg, f) && Meets(cfg, start, log, f, e) && !e.Fired?
    ensures Consistent(cfg, start, log + [f] + [e]) && !Pending(cfg, log + [f] + [e])
  {
    ConsistentAppend(cfg, start, log + [f], e);
    assert (log + [f])[..|log|] == log;
  }

  // ------------------------------------------------------------------------ the cascade

  lemma {:induction false} SetStateOrderly(cfg: Config, start: States, w: World, s: string, value: Double,
        timestamp: nat)
    requires Acyclic(cfg) && Truthful(start, w) && Consistent(cfg, start, Stored(w, s, value, timestamp).log)
    ensures Orderly(cfg, start, SetState(cfg, w, s, value, timestamp))
    decreases Reach(cfg, s), 2, 0
  {
    StoredStaysTruthful(start, w, s, value, timestamp);
    ToldAppend(start, w.log, Wrote(s, OldValue(w, s), value), s);
    RunEventsOrderly(cfg, start, Stored(w, s, value, timestamp), s, OldValue(w, s), value, 0);
  }

  lemma {:induction false} RunEventsOrderly(cfg: Config, start: States, w: World, s: string, oldValue: Double,
        newValue: Double, k: nat)
    requires Acyclic(cfg) && Orderly(cfg, start, w) && Told(start, w.log, s) == newValue && k <= |Events(cfg, s)|
    ensures Orderly(cfg, start, RunEvents(cfg, w, s, oldValue, newValue, k))
    decreases Reach(cfg, s), 1, |Events(cfg, s)| - k
  {
    if k < |Events(cfg, s)| {
      if !ShallTrigger(Events(cfg, s)[k].trigger, oldValue, newValue) {
        RunEventsOrderly(cfg, start, w, s, oldValue, newValue, k + 1);
      } else {
        FiredEventOrderly(cfg, start, w, s, newValue, k);
        var o := RunEvent(cfg, w.(log := w.log + [Fired(s, k)]), s, newValue, k);
        if !o.threw {
          RunEventsOrderly(cfg, start, o.world, s, oldValue, newValue, k + 1);
        }
      }
    }
  }

  lemma {:induction false} FiredEventOrderly(cfg: Config, start: States, w: World, s: string, newValue: Double, k: nat)
    requires Acyclic(cfg) && Orderly(cfg, start, w) && Told(start, w.log, s) == newValue && k < |Events(cfg, s)|
    ensures var o := RunEvent(cfg, w.(log := w.log + [Fired(s, k)]), s, newValue, k);
            Orderly(cfg, start, o.world) && Told(start, o.world.log, s) == newValue
    decreases Reach(cfg, s), 0, 1
  {
    var fired := w.(log := w.log + [Fired(s, k)]);
    LoggedStaysTruthful(start, w, Fired(s, k));
    FiringConsistent(cfg, start, w.log, Fired(s, k));
    ToldAppend(start, w.log, Fired(s, k), s);
    if Sets(Events(cfg, s)[k]) {
      AssignmentOrderly(cfg, start, w, s, newValue, k);
    } else {
      OrderOrderly(cfg, start, w, s, newValue, k);
    }
    NotInOwnReach(cfg, s);
    RunEventLeaves(cfg, fired, s, newValue, k, s);
    WritesOfState(fired.log, s);
    WritesOfState(RunEvent(cfg, fired, s, newValue, k).world.log, s);
  }

  lemma {:induction false} AssignmentOrderly(cfg: Config, start: States, w: World, s: string, newValue: Double, k: nat)
    requires Acyclic(cfg) && Orderly(cfg, start, w) && Told(start, w.log, s) == newValue && k < |Events(cfg, s)|
    requires Truthful(start, w.(log := w.log + [Fired(s, k)])) && Consistent(cfg, start, w.log + [Fired(s, k)])
    requires Sets(Events(cfg, s)[k])
    ensures Orderly(cfg, start, RunEvent(cfg, w.(log := w.log + [Fired(s, k)]), s, newValue, k).world)
    decreases Reach(cfg, s), 0, 0
  {
    var fired, e := w.(log := w.log + [Fired(s, k)]), Events(cfg, s)[k];
    RunEventSets(cfg, fired, s, newValue, k);
    if Assigns(e) {
      var arg := Argument(fired, s, e.value.value, newValue);
      ArgumentKeepsTruth(start, fired, s, e.value.value, newValue);
      var prepared := Prepared(fired, s, e, newValue);
      var wrote := Wrote(e.state.value, OldValue(prepared, e.state.value), arg.result.value);
      FiringTellsNothing(start, w.log, s, k);
      DemandMet(cfg, start, w.log, Fired(s, k), wrote);
      SetStateOrderly(cfg, start, prepared, e.state.value, arg.result.value, cfg.clock(arg.world.stamps));
    }
  }

  lemma OrderOrderly(cfg: Config, start: States, w: World, s: string, newValue: Double, k: nat)
    requires Acyclic(cfg) && Orderly(cfg, start, w) && Told(start, w.log, s) == newValue && k < |Events(cfg, s)|
    requires Truthful(start, w.(log := w.log + [Fired(s, k)])) && Consistent(cfg, start, w.log + [Fired(s, k)])
    requires !Sets(Events(cfg, s)[k])
    ensures Orderly(cfg, start, RunEvent(cfg, w.(log := w.log + [Fired(s, k)]), s, newValue, k).world)
  {
    var fired, e := w.(log := w.log + [Fired(s, k)]), Events(cfg, s)[k];
    RunEventIssues(cfg, fired, s, newValue, k);
    if e.state.None? && e.command.Some? {
      IssueOrderly(cfg, start, w, s, newValue, k);
    }
  }

  lemma IssueOrderly(cfg: Config, start: States, w: World, s: string, newValue: Double, k: nat)
    requires Orderly(cfg, start, w) && Told(start, w.log, s) == newValue && k < |Events(cfg, s)|
    requires Truthful(start, w.(log := w.log + [Fired(s, k)])) && Consistent(cfg, start, w.log + [Fired(s, k)])
    requires Events(cfg, s)[k].state.None? && Events(cfg, s)[k].command.Some?
    ensures Orderly(cfg, start, IssueCommand(cfg, w.(log := w.log + [Fired(s, k)]), Bind(cfg, s), Events(cfg, s)[k],
                                             newValue).world)
  {
    var fired, b, e := w.(log := w.log + [Fired(s, k)]), Bind(cfg, s), Events(cfg, s)[k];
    var args := Arguments(fired, b.subject, e.parameters, |e.parameters|, newValue);
    ArgumentsKeepTruth(start, fired, b.subject, e.parameters, |e.parameters|, newValue);
    assert e.parameters[..|e.parameters|] == e.parameters;
    if args.result.Ok? && CommandName(b, e.command.value) in cfg.commands {
      FiringTellsNothing(start, w.log, s, k);
      var issued := Commanded(CommandName(b, e.command.value), args.result.value);
      DemandMet(cfg, start, w.log, Fired(s, k), issued);
      LoggedStaysTruthful(start, args.world, issued);
    }
  }

  // -------------------------------------------------------------------------- whole runs

  lemma {:induction false} RunCallsOrderly(cfg: Config, w: World, calls: seq<Call>)
    requires Acyclic(cfg) && w.log == []
    ensures Orderly(cfg, w.states, RunCalls(cfg, w, calls))
  {
    if calls != [] {
      var c, before := calls[|calls| - 1], RunCalls(cfg, w, calls[..|calls| - 1]);
      RunCallsOrderly(cfg, w, calls[..|calls| - 1]);
      ConsistentAppend(cfg, w.states, before.log, Wrote(c.name, OldValue(before, c.name), c.value));
      SetStateOrderly(cfg, w.states, before, c.name, c.value, c.timestamp);
    }
  }

  lemma {:induction false} ConsistentAt(cfg: Config, start: States, log: seq<Effect>, i: nat)
    requires Consistent(cfg, start, log) && i < |log|
    ensures Next(cfg, start, log[..i], log[i])
  {
    if i < |log| - 1 {
      ConsistentAt(cfg, start, log[..|log| - 1], i);
      assert log[..|log| - 1][..i] == log[..i];
    }
  }

  /** Over any run of calls, cascades included: at once after a firing that asks for a known command or a write comes
      that command with its arguments, or that write with its value, as the log before the firing tells them. */
  lemma FiringIsFollowed(cfg: Config, w: World, calls: seq<Call>, i: nat)
    requires Acyclic(cfg) && w.log == [] && i < |RunCalls(cfg, w, calls).log|
    requires Demands(cfg, RunCalls(cfg, w, calls).log[i])
    ensures var log := RunCalls(cfg, w, calls).log;
            i + 1 < |log| && Meets(cfg, w.states, log[..i], log[i], log[i + 1])
  {
    var log := RunCalls(cfg, w, calls).log;
    RunCallsOrderly(cfg, w, calls);
    if i + 1 < |log| {
      ConsistentAt(cfg, w.states, log, i + 1);
      assert log[..i + 1][..i] == log[..i];
    }
  }

  /** And no command is issued otherwise. */
  lemma CommandIsCaused(cfg: Config, w: World, calls: seq<Call>, i: nat)
    requires Acyclic(cfg) && w.log == [] && i < |RunCalls(cfg, w, calls).log|
    requires RunCalls(cfg, w, calls).log[i].Commanded?
    ensures var log := RunCalls(cfg, w, calls).log;
            i > 0 && Demands(cfg, log[i - 1]) && Meets(cfg, w.states, log[..i - 1], log[i - 1], log[i])
  {
    var log := RunCalls(cfg, w, calls).log;
    RunCallsOrderly(cfg, w, calls);
    ConsistentAt(cfg, w.states, log, i);
    if i > 0 {
      assert log[..i][..i - 1] == log[..i - 1];
    }
  }
}
