/** How often the events of a state fire in a cascade, and runs of SetState calls. */
module EventFirings {
  import opened Common
  import opened Doubles
  import opened Triggers
  import opened EventManagers
  import opened EventCascade

  /** How often the k-th event of a state has triggered. */
  function FiredBy(log: seq<Effect>, t: string, k: nat): nat {
    if log == [] then 0
    else FiredBy(log[..|log| - 1], t, k) + if log[|log| - 1] == Fired(t, k) then 1 else 0
  }

  /** How many of the changes a trigger answers to. */
  function Answered(changes: seq<Change>, trigger: Option<Trigger>): nat {
    if changes == [] then 0
    else
      var c := changes[|changes| - 1];
      Answered(changes[..|changes| - 1], trigger) + if ShallTrigger(trigger, c.oldValue, c.newValue) then 1 else 0
  }

  /** Firings of the j-th event of t, which has this trigger, beyond the writes of t it should answer to. */
  function Surplus(trigger: Option<Trigger>, log: seq<Effect>, t: string, j: nat): int {
    FiredBy(log, t, j) - Answered(WritesTo(log, t), trigger)
  }

  lemma AnsweredAppend(changes: seq<Change>, c: Change, trigger: Option<Trigger>)
    ensures Answered(changes + [c], trigger)
         == Answered(changes, trigger) + if ShallTrigger(trigger, c.oldValue, c.newValue) then 1 else 0
  {
    assert (changes + [c])[..|changes|] == changes;
  }

  lemma SurplusAppend(trigger: Option<Trigger>, log: seq<Effect>, e: Effect, t: string, j: nat)
    ensures Surplus(trigger, log + [e], t, j)
         == Surplus(trigger, log, t, j) + (if e == Fired(t, j) then 1 else 0)
            - (if e.Wrote? && e.name == t && ShallTrigger(trigger, e.oldValue, e.newValue) then 1 else 0)
  {
    WritesToAppend(log, e, t);
    assert (log + [e])[..|log|] == log;
    if e.Wrote? && e.name == t {
      AnsweredAppend(WritesTo(log, t), Change(e.oldValue, e.newValue), trigger);
    }
  }

  /** No event of the state throws: each sets a state to a usable value, or issues a command with usable parameters that
      does not throw. */
  ghost predicate EventsFine(cfg: Config, t: string) {
    forall e | e in Events(cfg, t) ::
      if e.state.Some? then e.command.None? && e.value.Some? && !e.value.value.Malformed?
      else
        && e.command.Some? && (forall p | p in e.parameters :: !p.Malformed?)
        && forall args :: !cfg.throws(CommandName(Bind(cfg, t), e.command.value), args)
  }

  lemma {:induction false} ArgumentsFine(w: World, subject: string, ps: seq<Param>, n: nat, newValue: Double)
    requires n <= |ps| && forall p | p in ps :: !p.Malformed?
    ensures Arguments(w, subject, ps, n, newValue).result.Ok?
  {
    if n > 0 {
      ArgumentsFine(w, subject, ps, n - 1, newValue);
    }
  }

  lemma FineEventRuns(cfg: Config, w: World, t: string, newValue: Double, k: nat)
    requires Acyclic(cfg) && EventsFine(cfg, t) && k < |Events(cfg, t)|
    ensures !RunEvent(cfg, w, t, newValue, k).threw
  {
    var e := Events(cfg, t)[k];
    assert e in Events(cfg, t);
    if e.state.Some? {
      RunEventSets(cfg, w, t, newValue, k);
    } else {
      RunEventIssues(cfg, w, t, newValue, k);
      ArgumentsFine(w, Bind(cfg, t).subject, e.parameters, |e.parameters|, newValue);
    }
  }

  /** A write and its whole cascade leave every event of a state balanced whose events do not throw, whatever the events
      of other states do. */
  lemma {:induction false} SetStateBalanced(cfg: Config, w: World, s: string, value: Double, timestamp: nat,
        t: string, j: nat)
    requires Acyclic(cfg) && EventsFine(cfg, t) && j < |Events(cfg, t)|
    ensures var trigger := Events(cfg, t)[j].trigger;
            Surplus(trigger, SetState(cfg, w, s, value, timestamp).log, t, j) == Surplus(trigger, w.log, t, j)
    decreases Reach(cfg, s), 2, 0
  {
    SurplusAppend(Events(cfg, t)[j].trigger, w.log, Wrote(s, OldValue(w, s), value), t, j);
    RunEventsBalanced(cfg, Stored(w, s, value, timestamp), s, OldValue(w, s), value, 0, t, j);
  }

  lemma {:induction false} RunEventsBalanced(cfg: Config, w: World, s: string, oldValue: Double, newValue: Double,
        k: nat, t: string, j: nat)
    requires Acyclic(cfg) && EventsFine(cfg, t) && k <= |Events(cfg, s)| && j < |Events(cfg, t)|
    ensures Surplus(Events(cfg, t)[j].trigger, RunEvents(cfg, w, s, oldValue, newValue, k).log, t, j)
         == Surplus(Events(cfg, t)[j].trigger, w.log, t, j)
            + if t == s && k <= j && ShallTrigger(Events(cfg, t)[j].trigger, oldValue, newValue) then 1 else 0
    decreases Reach(cfg, s), 1, |Events(cfg, s)| - k
  {
    if k < |Events(cfg, s)| {
      if !ShallTrigger(Events(cfg, s)[k].trigger, oldValue, newValue) {
        RunEventsBalanced(cfg, w, s, oldValue, newValue, k + 1, t, j);
      } else {
        var o := RunEvent(cfg, w.(log := w.log + [Fired(s, k)]), s, newValue, k);
        FiredEventBalanced(cfg, w, s, newValue, k, t, j);
        if !o.threw {
          RunEventsBalanced(cfg, o.world, s, oldValue, newValue, k + 1, t, j);
        }
      }
    }
  }

  /** An event that fires and runs adds just that firing; if it is one of t the events after it get their turn. */
  lemma {:induction false} FiredEventBalanced(cfg: Config, w: World, s: string, newValue: Double, k: nat,
        t: string, j: nat)
    requires Acyclic(cfg) && EventsFine(cfg, t) && k < |Events(cfg, s)| && j < |Events(cfg, t)|
    ensures var o := RunEvent(cfg, w.(log := w.log + [Fired(s, k)]), s, newValue, k);
            var trigger := Events(cfg, t)[j].trigger;
            && Surplus(trigger, o.world.log, t, j)
                 == Surplus(trigger, w.log, t, j) + (if s == t && k == j then 1 else 0)
            && (s == t ==> !o.threw)
    decreases Reach(cfg, s), 0, 1
  {
    var fired := w.(log := w.log + [Fired(s, k)]);
    SurplusAppend(Events(cfg, t)[j].trigger, w.log, Fired(s, k), t, j);
    RunEventBalanced(cfg, fired, s, newValue, k, t, j);
    if s == t {
      FineEventRuns(cfg, fired, t, newValue, k);
    }
  }

  lemma {:induction false} RunEventBalanced(cfg: Config, w: World, s: string, newValue: Double, k: nat, t: string,
        j: nat)
    requires Acyclic(cfg) && EventsFine(cfg, t) && k < |Events(cfg, s)| && j < |Events(cfg, t)|
    ensures var trigger := Events(cfg, t)[j].trigger;
            Surplus(trigger, RunEvent(cfg, w, s, newValue, k).world.log, t, j) == Surplus(trigger, w.log, t, j)
    decreases Reach(cfg, s), 0, 0
  {
    var e := Events(cfg, s)[k];
    if Sets(e) {
      RunEventSets(cfg, w, s, newValue, k);
      var arg := Argument(w, s, e.value.value, newValue);
      if arg.result.Ok? {
        SetStateBalanced(cfg, Prepared(w, s, e, newValue), e.state.value, arg.result.value,
                         cfg.clock(arg.world.stamps), t, j);
      }
    } else {
      RunEventIssues(cfg, w, s, newValue, k);
      if e.command.Some? {
        IssueBalanced(cfg, w, Bind(cfg, s), e, newValue, Events(cfg, t)[j].trigger, t, j);
      }
    }
  }

  lemma {:induction false} ArgumentsLog(w: World, subject: string, ps: seq<Param>, n: nat, newValue: Double)
    requires n <= |ps|
    ensures Arguments(w, subject, ps, n, newValue).world.log == w.log
  {
    if n > 0 {
      ArgumentsLog(w, subject, ps, n - 1, newValue);
    }
  }

  lemma IssueBalanced(cfg: Config, w: World, b: Binding, e: Event, newValue: Double, trigger: Option<Trigger>,
        t: string, j: nat)
    requires e.command.Some?
    ensures Surplus(trigger, IssueCommand(cfg, w, b, e, newValue).world.log, t, j) == Surplus(trigger, w.log, t, j)
  {
    var args := Arguments(w, b.subject, e.parameters, |e.parameters|, newValue);
    ArgumentsLog(w, b.subject, e.parameters, |e.parameters|, newValue);
    if args.result.Ok? {
      SurplusAppend(trigger, w.log, Commanded(CommandName(b, e.command.value), args.result.value), t, j);
    }
  }

  // -------------------------------------------------------------------------- whole runs

  /** A call of SetState from outside. */
  datatype Call = Call(name: string, value: Double, timestamp: nat)

  ghost function RunCalls(cfg: Config, w: World, calls: seq<Call>): World
    requires Acyclic(cfg)
  {
    if calls == [] then w
    else
      var c := calls[|calls| - 1];
      SetState(cfg, RunCalls(cfg, w, calls[..|calls| - 1]), c.name, c.value, c.timestamp)
  }

  /** Over any run of calls the writes of a state form a chain, whoever reads it. */
  lemma {:induction false} RunCallsChained(cfg: Config, w: World, calls: seq<Call>, t: string)
    requires Acyclic(cfg) && w.log == []
    ensures Chained(RunCalls(cfg, w, calls), t, false)
  {
    if calls != [] {
      var c, init := calls[|calls| - 1], calls[..|calls| - 1];
      RunCallsChained(cfg, w, init, t);
      SetStateChained(cfg, RunCalls(cfg, w, init), c.name, c.value, c.timestamp, t, false);
    }
  }

  /** The first write of an absent state finds nothing, if no event of another state reads it or if it is the first
      state that is set. */
  lemma {:induction false} FirstFindsNothing(cfg: Config, w: World, calls: seq<Call>, t: string)
    requires Acyclic(cfg) && w.log == [] && t !in w.states
    requires NotReadByOthers(cfg, t) || (calls != [] ==> calls[0].name == t)
    ensures Chained(RunCalls(cfg, w, calls), t, true)
    ensures NotReadByOthers(cfg, t) || calls == [] || t in RunCalls(cfg, w, calls).states
    ensures Seen(WritesTo(RunCalls(cfg, w, calls).log, t))[0] == NaN
  {
    if calls != [] {
      var c, init := calls[|calls| - 1], calls[..|calls| - 1];
      FirstFindsNothing(cfg, w, init, t);
      SetStateChained(cfg, RunCalls(cfg, w, init), c.name, c.value, c.timestamp, t, true);
      SetStateFramed(cfg, RunCalls(cfg, w, init), c.name, c.value, c.timestamp);
      SetStateStores(cfg, RunCalls(cfg, w, init), c.name, c.value, c.timestamp);
    }
  }

  lemma SetStateStores(cfg: Config, w: World, s: string, value: Double, timestamp: nat)
    requires Acyclic(cfg)
    ensures s in SetState(cfg, w, s, value, timestamp).states
  {
    RunEventsFramed(cfg, Stored(w, s, value, timestamp), s, OldValue(w, s), value, 0);
  }
}
