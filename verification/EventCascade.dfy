/** What the event cascade guarantees: which states it can touch, how the values of a state chain up, and that
    every event fires once per block of values in its range. */
module EventCascade {
  import opened Common
  import opened Doubles
  import opened Triggers
  import opened StateControllers
  import opened EventManagers

  // ------------------------------------------------------------------------- the frame

  /** Outside S no existing state changes, and the states that appear are parameters inserted as zero. */
  ghost predicate Framed(w: World, r: World, S: set<string>) {
    && w.states.Keys <= r.states.Keys
    && forall t | t in r.states && t !in S ::
         if t in w.states then r.states[t] == w.states[t] else r.states[t] == Entry(ZERO, 0, false)
  }

  lemma FramedTrans(a: World, b: World, c: World, S: set<string>, T: set<string>)
    requires Framed(a, b, S) && Framed(b, c, S) && S <= T
    ensures Framed(a, c, T)
  {
  }

  lemma {:induction false} ArgumentsFramed(w: World, subject: string, ps: seq<Param>, n: nat, newValue: Double)
    requires n <= |ps|
    ensures Framed(w, Arguments(w, subject, ps, n, newValue).world, {})
  {
    if n > 0 {
      ArgumentsFramed(w, subject, ps, n - 1, newValue);
    }
  }

  /** A write changes, among the existing states, only the written one and those reachable from it. */
  lemma {:induction false} SetStateFramed(cfg: Config, w: World, s: string, value: Double, timestamp: nat)
    requires Acyclic(cfg)
    ensures Framed(w, SetState(cfg, w, s, value, timestamp), Reach(cfg, s) + {s})
    decreases Reach(cfg, s), 2, 0
  {
    var stored := Stored(w, s, value, timestamp);
    RunEventsFramed(cfg, stored, s, OldValue(w, s), value, 0);
    assert Framed(w, stored, Reach(cfg, s) + {s});
    assert Framed(stored, SetState(cfg, w, s, value, timestamp), Reach(cfg, s) + {s});
    FramedTrans(w, stored, SetState(cfg, w, s, value, timestamp), Reach(cfg, s) + {s}, Reach(cfg, s) + {s});
  }

  lemma {:induction false} RunEventsFramed(cfg: Config, w: World, s: string, oldValue: Double, newValue: Double, k: nat)
    requires Acyclic(cfg) && k <= |Events(cfg, s)|
    ensures Framed(w, RunEvents(cfg, w, s, oldValue, newValue, k), Reach(cfg, s))
    decreases Reach(cfg, s), 1, |Events(cfg, s)| - k
  {
    if k < |Events(cfg, s)| {
      if !ShallTrigger(Events(cfg, s)[k].trigger, oldValue, newValue) {
        RunEventsFramed(cfg, w, s, oldValue, newValue, k + 1);
      } else {
        var fired := w.(log := w.log + [Fired(s, k)]);
        var o := RunEvent(cfg, fired, s, newValue, k);
        RunEventFramed(cfg, fired, s, newValue, k);
        if !o.threw {
          RunEventsFramed(cfg, o.world, s, oldValue, newValue, k + 1);
          FramedTrans(w, o.world, RunEvents(cfg, o.world, s, oldValue, newValue, k + 1), Reach(cfg, s), Reach(cfg, s));
        }
      }
    }
  }

  lemma {:induction false} RunEventFramed(cfg: Config, w: World, s: string, newValue: Double, k: nat)
    requires Acyclic(cfg) && k < |Events(cfg, s)|
    ensures Framed(w, RunEvent(cfg, w, s, newValue, k).world, Reach(cfg, s))
    decreases Reach(cfg, s), 0, 0
  {
    var e := Events(cfg, s)[k];
    if Sets(e) {
      RunEventSets(cfg, w, s, newValue, k);
      var arg := Argument(w, s, e.value.value, newValue);
      if arg.result.Ok? {
        EdgeInReach(cfg, s, e.state.value);
        var prepared := Prepared(w, s, e, newValue);
        SetStateFramed(cfg, prepared, e.state.value, arg.result.value, cfg.clock(arg.world.stamps));
        ArgumentFramed(w, s, e.value.value, newValue);
        FramedWithin(w, prepared, RunEvent(cfg, w, s, newValue, k).world,
                     Reach(cfg, e.state.value) + {e.state.value}, Reach(cfg, s));
      }
    } else {
      RunEventIssues(cfg, w, s, newValue, k);
      if e.command.Some? {
        IssueFramed(cfg, w, Bind(cfg, s), e, newValue, Reach(cfg, s));
      }
    }
  }

  lemma ArgumentFramed(w: World, subject: string, p: Param, newValue: Double)
    ensures var r := Argument(w, subject, p, newValue).world; Framed(w, r.(stamps := r.stamps + 1), {})
  {
  }

  lemma IssueFramed(cfg: Config, w: World, b: Binding, e: Event, newValue: Double, S: set<string>)
    requires e.command.Some?
    ensures Framed(w, IssueCommand(cfg, w, b, e, newValue).world, S)
  {
    ArgumentsFramed(w, b.subject, e.parameters, |e.parameters|, newValue);
  }

  /** Evaluating an argument, then staying within a smaller set. */
  lemma FramedWithin(w: World, b: World, c: World, S: set<string>, T: set<string>)
    requires Framed(w, b, {}) && Framed(b, c, S) && S <= T
    ensures Framed(w, c, T)
  {
  }

  // ------------------------------------------------------------- the values of one state

  datatype Change = Change(oldValue: Double, newValue: Double)

  /** The writes of one state in the log. */
  function WritesTo(log: seq<Effect>, t: string): seq<Change> {
    if log == [] then []
    else
      var e := log[|log| - 1];
      WritesTo(log[..|log| - 1], t) + if e.Wrote? && e.name == t then [Change(e.oldValue, e.newValue)] else []
  }

  lemma WritesToAppend(log: seq<Effect>, e: Effect, t: string)
    ensures WritesTo(log + [e], t) ==
            if e.Wrote? && e.name == t then WritesTo(log, t) + [Change(e.oldValue, e.newValue)] else WritesTo(log, t)
  {
    assert (log + [e])[..|log|] == log;
  }

  function News(changes: seq<Change>): (vals: seq<Double>)
    ensures |vals| == |changes| && forall i | 0 <= i < |vals| :: vals[i] == changes[i].newValue
  {
    seq(|changes|, i requires 0 <= i < |changes| => changes[i].newValue)
  }

  /** The values a state goes through: what its first write found and what was written. */
  function Seen(changes: seq<Change>): (seen: seq<Double>)
    ensures |seen| == |changes| + 1
  {
    [if changes == [] then NaN else changes[0].oldValue] + News(changes)
  }

  /** The value after some changes, if there was one. */
  function Last(changes: seq<Change>): Option<Double> {
    if changes == [] then None else Some(changes[|changes| - 1].newValue)
  }

  /** Every write but the first finds the value of the write before. */
  predicate IsChain(changes: seq<Change>) {
    |changes| <= 1 ||
    var init := changes[..|changes| - 1];
    IsChain(init) && Last(init) == Some(changes[|changes| - 1].oldValue)
  }

  /** Write i of a chain turns value i into value i + 1. */
  lemma {:induction false} ChainIsSeen(changes: seq<Change>, i: nat)
    requires IsChain(changes) && i < |changes|
    ensures changes[i] == Change(Seen(changes)[i], Seen(changes)[i + 1])
  {
    if 0 < i == |changes| - 1 {
      assert Last(changes[..i]) == Some(changes[i - 1].newValue);
    } else if i < |changes| - 1 {
      ChainIsSeen(changes[..|changes| - 1], i);
    }
  }

  function Present(states: States, t: string): Option<Double> {
    if t in states then Some(states[t].value) else None
  }

  /** The writes of a state form a chain that ends with its present value. If it is new, it is absent until its first
      write, which finds nothing. */
  predicate Chained(w: World, t: string, isNew: bool) {
    var changes := WritesTo(w.log, t);
    && IsChain(changes)
    && (changes != [] ==> Present(w.states, t) == Last(changes))
    && (isNew ==> if changes == [] then t !in w.states else changes[0].oldValue == NaN)
  }

  predicate Names(p: Param, t: string) {
    p == Named(t)
  }

  /** No event of another state uses t as a parameter, so that no read can insert it. */
  ghost predicate NotReadByOthers(cfg: Config, t: string) {
    forall s, e | e in Events(cfg, s) ::
      && (s != t ==> e.value.None? || !Names(e.value.value, t))
      && (Bind(cfg, s).subject != t ==> forall p | p in e.parameters :: !Names(p, t))
  }

  /** A world in which t looks the same. */
  predicate SameFor(w: World, r: World, t: string) {
    Present(r.states, t) == Present(w.states, t) && WritesTo(r.log, t) == WritesTo(w.log, t)
  }

  lemma ArgumentSame(w: World, subject: string, p: Param, newValue: Double, t: string)
    requires subject == t || !Names(p, t)
    ensures SameFor(w, Argument(w, subject, p, newValue).world, t)
  {
  }

  lemma {:induction false} ArgumentsSame(w: World, subject: string, ps: seq<Param>, n: nat, newValue: Double, t: string)
    requires n <= |ps| && (subject != t ==> forall p | p in ps :: !Names(p, t))
    ensures SameFor(w, Arguments(w, subject, ps, n, newValue).world, t)
  {
    if n > 0 {
      ArgumentsSame(w, subject, ps, n - 1, newValue, t);
      ArgumentSame(Arguments(w, subject, ps, n - 1, newValue).world, subject, ps[n - 1], newValue, t);
    }
  }

  lemma LogSame(w: World, e: Effect, t: string)
    requires !e.Wrote?
    ensures SameFor(w, w.(log := w.log + [e]), t)
  {
    WritesToAppend(w.log, e, t);
  }

  lemma ChainAppend(changes: seq<Change>, c: Change)
    requires IsChain(changes) && (changes != [] ==> Last(changes) == Some(c.oldValue))
    ensures IsChain(changes + [c]) && Last(changes + [c]) == Some(c.newValue)
    ensures (changes + [c])[0] == if changes == [] then c else changes[0]
  {
    assert (changes + [c])[..|changes|] == changes;
  }

  lemma StoredChained(w: World, s: string, value: Double, timestamp: nat, t: string, isNew: bool)
    requires Chained(w, t, isNew)
    ensures Chained(Stored(w, s, value, timestamp), t, isNew)
  {
    WritesToAppend(w.log, Wrote(s, OldValue(w, s), value), t);
    if s == t {
      ChainAppend(WritesTo(w.log, t), Change(OldValue(w, t), value));
    } else {
      assert WritesTo(Stored(w, s, value, timestamp).log, t) == WritesTo(w.log, t);
    }
  }

  /** Nothing inserts t as a parameter: no other state's event reads it, or it is there already. */
  ghost predicate NotInserted(cfg: Config, w: World, t: string) {
    NotReadByOthers(cfg, t) || t in w.states
  }

  /** Through a whole cascade the writes of a state stay a chain, whoever reads it; and a new one stays new if no
      event of another state reads it, or it is the one written, or it is there already. */
  lemma {:induction false} SetStateChained(cfg: Config, w: World, s: string, value: Double, timestamp: nat, t: string,
        isNew: bool)
    requires Acyclic(cfg) && Chained(w, t, isNew) && (isNew ==> NotInserted(cfg, w, t) || s == t)
    ensures Chained(SetState(cfg, w, s, value, timestamp), t, isNew)
    decreases Reach(cfg, s), 2, 0
  {
    StoredChained(w, s, value, timestamp, t, isNew);
    RunEventsChained(cfg, Stored(w, s, value, timestamp), s, OldValue(w, s), value, 0, t, isNew);
  }

  lemma {:induction false} RunEventsChained(cfg: Config, w: World, s: string, oldValue: Double, newValue: Double,
        k: nat, t: string, isNew: bool)
    requires Acyclic(cfg) && Chained(w, t, isNew) && (isNew ==> NotInserted(cfg, w, t)) && k <= |Events(cfg, s)|
    ensures Chained(RunEvents(cfg, w, s, oldValue, newValue, k), t, isNew)
    decreases Reach(cfg, s), 1, |Events(cfg, s)| - k
  {
    if k < |Events(cfg, s)| {
      if !ShallTrigger(Events(cfg, s)[k].trigger, oldValue, newValue) {
        RunEventsChained(cfg, w, s, oldValue, newValue, k + 1, t, isNew);
      } else {
        var fired := w.(log := w.log + [Fired(s, k)]);
        LogSame(w, Fired(s, k), t);
        RunEventChained(cfg, fired, s, newValue, k, t, isNew);
        var o := RunEvent(cfg, fired, s, newValue, k);
        RunEventFramed(cfg, fired, s, newValue, k);
        if !o.threw {
          RunEventsChained(cfg, o.world, s, oldValue, newValue, k + 1, t, isNew);
        }
      }
    }
  }

  lemma {:induction false} RunEventChained(cfg: Config, w: World, s: string, newValue: Double, k: nat, t: string,
        isNew: bool)
    requires Acyclic(cfg) && Chained(w, t, isNew) && (isNew ==> NotInserted(cfg, w, t)) && k < |Events(cfg, s)|
    ensures Chained(RunEvent(cfg, w, s, newValue, k).world, t, isNew)
    decreases Reach(cfg, s), 0, 0
  {
    var e := Events(cfg, s)[k];
    assert e in Events(cfg, s);
    if Sets(e) {
      RunEventSets(cfg, w, s, newValue, k);
      var arg := Argument(w, s, e.value.value, newValue);
      ArgumentChained(w, s, e.value.value, newValue, t, isNew);
      if arg.result.Ok? {
        SetStateChained(cfg, Prepared(w, s, e, newValue), e.state.value, arg.result.value,
                        cfg.clock(arg.world.stamps), t, isNew);
      }
    } else {
      RunEventIssues(cfg, w, s, newValue, k);
      if e.command.Some? {
        IssueChained(cfg, w, Bind(cfg, s), e, newValue, t, isNew);
      }
    }
  }

  /** Reading an argument leaves a state that is there as it was. */
  lemma ArgumentChained(w: World, subject: string, p: Param, newValue: Double, t: string, isNew: bool)
    requires Chained(w, t, isNew) && (isNew ==> subject == t || !Names(p, t) || t in w.states)
    ensures var r := Argument(w, subject, p, newValue).world;
            Chained(r, t, isNew) && w.states.Keys <= r.states.Keys
  {
  }

  lemma {:induction false} ArgumentsChained(w: World, subject: string, ps: seq<Param>, n: nat, newValue: Double,
        t: string, isNew: bool)
    requires n <= |ps| && Chained(w, t, isNew)
    requires isNew ==> subject == t || t in w.states || forall p | p in ps :: !Names(p, t)
    ensures var r := Arguments(w, subject, ps, n, newValue).world;
            Chained(r, t, isNew) && w.states.Keys <= r.states.Keys
  {
    if n > 0 {
      ArgumentsChained(w, subject, ps, n - 1, newValue, t, isNew);
      ArgumentChained(Arguments(w, subject, ps, n - 1, newValue).world, subject, ps[n - 1], newValue, t, isNew);
    }
  }

  lemma IssueChained(cfg: Config, w: World, b: Binding, e: Event, newValue: Double, t: string, isNew: bool)
    requires e.command.Some? && Chained(w, t, isNew)
    requires isNew ==> b.subject == t || t in w.states || forall p | p in e.parameters :: !Names(p, t)
    ensures Chained(IssueCommand(cfg, w, b, e, newValue).world, t, isNew)
  {
    var args := Arguments(w, b.subject, e.parameters, |e.parameters|, newValue);
    ArgumentsChained(w, b.subject, e.parameters, |e.parameters|, newValue, t, isNew);
    if args.result.Ok? {
      LogSame(args.world, Commanded(CommandName(b, e.command.value), args.result.value), t);
    }
  }

  lemma IssueSame(cfg: Config, w: World, b: Binding, e: Event, newValue: Double, t: string)
    requires e.command.Some? && (b.subject != t ==> forall p | p in e.parameters :: !Names(p, t))
    ensures SameFor(w, IssueCommand(cfg, w, b, e, newValue).world, t)
  {
    var args := Arguments(w, b.subject, e.parameters, |e.parameters|, newValue);
    ArgumentsSame(w, b.subject, e.parameters, |e.parameters|, newValue, t);
    if args.result.Ok? {
      LogSame(args.world, Commanded(CommandName(b, e.command.value), args.result.value), t);
    }
  }

  // ------------------------------------------------------------ states out of reach

  /** A state that is neither written nor reachable, and that no other state's events read, is not even inserted. */
  lemma {:induction false} SetStateSame(cfg: Config, w: World, s: string, value: Double, timestamp: nat, t: string)
    requires Acyclic(cfg) && NotReadByOthers(cfg, t) && t !in Reach(cfg, s) && t != s
    ensures SameFor(w, SetState(cfg, w, s, value, timestamp), t)
    decreases Reach(cfg, s), 2, 0
  {
    WritesToAppend(w.log, Wrote(s, OldValue(w, s), value), t);
    RunEventsSame(cfg, Stored(w, s, value, timestamp), s, OldValue(w, s), value, 0, t);
  }

  lemma {:induction false} RunEventsSame(cfg: Config, w: World, s: string, oldValue: Double, newValue: Double, k: nat,
        t: string)
    requires Acyclic(cfg) && NotReadByOthers(cfg, t) && t !in Reach(cfg, s) && k <= |Events(cfg, s)|
    ensures SameFor(w, RunEvents(cfg, w, s, oldValue, newValue, k), t)
    decreases Reach(cfg, s), 1, |Events(cfg, s)| - k
  {
    if k < |Events(cfg, s)| {
      if !ShallTrigger(Events(cfg, s)[k].trigger, oldValue, newValue) {
        RunEventsSame(cfg, w, s, oldValue, newValue, k + 1, t);
      } else {
        var fired := w.(log := w.log + [Fired(s, k)]);
        LogSame(w, Fired(s, k), t);
        RunEventSame(cfg, fired, s, newValue, k, t);
        var o := RunEvent(cfg, fired, s, newValue, k);
        if !o.threw {
          RunEventsSame(cfg, o.world, s, oldValue, newValue, k + 1, t);
        }
      }
    }
  }

  lemma EdgeExcludes(cfg: Config, s: string, u: string, t: string)
    requires Acyclic(cfg) && Edge(cfg, s, u) && t !in Reach(cfg, s)
    ensures Reach(cfg, u) < Reach(cfg, s) && t != u && t !in Reach(cfg, u)
  {
    EdgeInReach(cfg, s, u);
    EdgeShrinks(cfg, s, u);
  }

  lemma {:induction false} RunEventSame(cfg: Config, w: World, s: string, newValue: Double, k: nat, t: string)
    requires Acyclic(cfg) && NotReadByOthers(cfg, t) && t !in Reach(cfg, s) && k < |Events(cfg, s)|
    ensures SameFor(w, RunEvent(cfg, w, s, newValue, k).world, t)
    decreases Reach(cfg, s), 0, 0
  {
    var e, b := Events(cfg, s)[k], Bind(cfg, s);
    assert e in Events(cfg, s);
    if Sets(e) {
      RunEventSets(cfg, w, s, newValue, k);
      var arg := Argument(w, s, e.value.value, newValue);
      ArgumentSame(w, s, e.value.value, newValue, t);
      if arg.result.Ok? {
        EdgeExcludes(cfg, s, e.state.value, t);
        SetStateSame(cfg, Prepared(w, s, e, newValue), e.state.value, arg.result.value, cfg.clock(arg.world.stamps), t);
      }
    } else {
      RunEventIssues(cfg, w, s, newValue, k);
      if e.command.Some? {
        IssueSame(cfg, w, b, e, newValue, t);
      }
    }
  }
}
