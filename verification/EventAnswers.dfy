/** What the log tells of one state, over any run of SetState calls, cascades included: every write is followed, before
    the next write of that state, by the events it triggers, in the order of their list and each once. */
module EventAnswers {
  import opened Common
  import opened Doubles
  import opened Triggers
  import opened EventManagers
  import opened EventCascade
  import opened EventFirings

  /** The effect is a write of t or the firing of one of its events. */
  predicate Concerns(e: Effect, t: string) {
    (e.Wrote? || e.Fired?) && e.name == t
  }

  function Own(t: string): Effect -> seq<Effect> {
    (e: Effect) => if Concerns(e, t) then [e] else []
  }

  /** The part of a log that concerns one state. */
  function OfState(log: seq<Effect>, t: string): seq<Effect> {
    FlatMap(Own(t), log)
  }

  lemma OfStateAppend(log: seq<Effect>, e: Effect, t: string)
    ensures OfState(log + [e], t) == if Concerns(e, t) then OfState(log, t) + [e] else OfState(log, t)
  {
    FlatMapAppend(Own(t), log, [e]);
    FlatMapOne(Own(t), e);
  }

  predicate IsTriggered(events: seq<Event>, c: Change, k: nat)
    requires k < |events|
  {
    ShallTrigger(events[k].trigger, c.oldValue, c.newValue)
  }

  /** The events from the k-th on that a change of t triggers, in order. */
  function Firings(events: seq<Event>, t: string, c: Change, k: nat): seq<Effect>
    requires k <= |events|
    decreases |events| - k
  {
    if k == |events| then []
    else
      (if IsTriggered(events, c, k) then [Fired(t, k)] else []) + Firings(events, t, c, k + 1)
  }

  /** A log and the event k, if it is triggered. */
  function WithFiring(events: seq<Event>, log: seq<Effect>, t: string, c: Change, k: nat): seq<Effect>
    requires k < |events|
  {
    if IsTriggered(events, c, k) then log + [Fired(t, k)] else log
  }

  lemma FiringsOneByOne(events: seq<Event>, log: seq<Effect>, t: string, c: Change, k: nat)
    requires k <= |events|
    ensures log + Firings(events, t, c, k) ==
            if k == |events| then log else WithFiring(events, log, t, c, k) + Firings(events, t, c, k + 1)
  {
  }

  /** A write of t and the events that answer it. */
  function Answer(events: seq<Event>, t: string): Change -> seq<Effect> {
    (c: Change) => [Wrote(t, c.oldValue, c.newValue)] + Firings(events, t, c, 0)
  }

  lemma AnswerParts(events: seq<Event>, log: seq<Effect>, t: string, c: Change)
    ensures log + Answer(events, t)(c) == log + [Wrote(t, c.oldValue, c.newValue)] + Firings(events, t, c, 0)
  {
  }

  /** All writes of t in the log are answered, one after the other. */
  ghost predicate AllAnswered(cfg: Config, log: seq<Effect>, t: string) {
    OfState(log, t) == FlatMap(Answer(Events(cfg, t), t), WritesTo(log, t))
  }

  // ------------------------------------------------------------- states out of reach

  /** A cascade leaves no trace of a state that is neither written nor reachable. */
  lemma {:induction false} SetStateLeaves(cfg: Config, w: World, s: string, value: Double, timestamp: nat, t: string)
    requires Acyclic(cfg) && t != s && t !in Reach(cfg, s)
    ensures OfState(SetState(cfg, w, s, value, timestamp).log, t) == OfState(w.log, t)
    decreases Reach(cfg, s), 2, 0
  {
    OfStateAppend(w.log, Wrote(s, OldValue(w, s), value), t);
    RunEventsLeave(cfg, Stored(w, s, value, timestamp), s, OldValue(w, s), value, 0, t);
  }

  lemma {:induction false} RunEventsLeave(cfg: Config, w: World, s: string, oldValue: Double, newValue: Double, k: nat,
        t: string)
    requires Acyclic(cfg) && t != s && t !in Reach(cfg, s) && k <= |Events(cfg, s)|
    ensures OfState(RunEvents(cfg, w, s, oldValue, newValue, k).log, t) == OfState(w.log, t)
    decreases Reach(cfg, s), 1, |Events(cfg, s)| - k
  {
    if k < |Events(cfg, s)| {
      if !ShallTrigger(Events(cfg, s)[k].trigger, oldValue, newValue) {
        RunEventsLeave(cfg, w, s, oldValue, newValue, k + 1, t);
      } else {
        var fired := w.(log := w.log + [Fired(s, k)]);
        OfStateAppend(w.log, Fired(s, k), t);
        RunEventLeaves(cfg, fired, s, newValue, k, t);
        var o := RunEvent(cfg, fired, s, newValue, k);
        if !o.threw {
          RunEventsLeave(cfg, o.world, s, oldValue, newValue, k + 1, t);
        }
      }
    }
  }

  /** In particular the events of a state leave no trace of the state itself. */
  lemma {:induction false} RunEventLeaves(cfg: Config, w: World, s: string, newValue: Double, k: nat, t: string)
    requires Acyclic(cfg) && t !in Reach(cfg, s) && k < |Events(cfg, s)|
    ensures OfState(RunEvent(cfg, w, s, newValue, k).world.log, t) == OfState(w.log, t)
    decreases Reach(cfg, s), 0, 0
  {
    var e := Events(cfg, s)[k];
    if Sets(e) {
      RunEventSets(cfg, w, s, newValue, k);
      var arg := Argument(w, s, e.value.value, newValue);
      if arg.result.Ok? {
        EdgeExcludes(cfg, s, e.state.value, t);
        SetStateLeaves(cfg, Prepared(w, s, e, newValue), e.state.value, arg.result.value,
                       cfg.clock(arg.world.stamps), t);
      }
    } else {
      RunEventIssues(cfg, w, s, newValue, k);
      if e.command.Some? {
        IssueLeaves(cfg, w, Bind(cfg, s), e, newValue, t);
      }
    }
  }

  lemma IssueLeaves(cfg: Config, w: World, b: Binding, e: Event, newValue: Double, t: string)
    requires e.command.Some?
    ensures var r := IssueCommand(cfg, w, b, e, newValue).world;
            OfState(r.log, t) == OfState(w.log, t) && WritesTo(r.log, t) == WritesTo(w.log, t)
  {
    var args := Arguments(w, b.subject, e.parameters, |e.parameters|, newValue);
    ArgumentsLog(w, b.subject, e.parameters, |e.parameters|, newValue);
    if args.result.Ok? {
      var issued := Commanded(CommandName(b, e.command.value), args.result.value);
      OfStateAppend(w.log, issued, t);
      WritesToAppend(w.log, issued, t);
    }
  }

  // ------------------------------------------------------------------ answers of a cascade

  /** The writes of a state can be read off its part of the log. */
  lemma {:induction false} WritesOfState(log: seq<Effect>, t: string)
    ensures WritesTo(OfState(log, t), t) == WritesTo(log, t)
  {
    if log != [] {
      var init, e := log[..|log| - 1], log[|log| - 1];
      WritesOfState(init, t);
      assert log == init + [e];
      OfStateAppend(init, e, t);
      if Concerns(e, t) {
        WritesToAppend(OfState(init, t), e, t);
      }
    }
  }

  lemma FiringWritesNothing(events: seq<Event>, log: seq<Effect>, t: string, c: Change, k: nat)
    requires k < |events|
    ensures WritesTo(WithFiring(events, log, t, c, k), t) == WritesTo(log, t)
  {
    WritesToAppend(log, Fired(t, k), t);
  }

  lemma {:induction false} FiringsWriteNothing(events: seq<Event>, log: seq<Effect>, t: string, c: Change, k: nat)
    requires k <= |events|
    ensures WritesTo(log + Firings(events, t, c, k), t) == WritesTo(log, t)
    decreases |events| - k
  {
    FiringsOneByOne(events, log, t, c, k);
    if k < |events| {
      FiringWritesNothing(events, log, t, c, k);
      FiringsWriteNothing(events, WithFiring(events, log, t, c, k), t, c, k + 1);
    }
  }

  /** One triggered event of a written state: what it sets off leaves only the firing in the state's part of the log. */
  lemma OwnEventAnswers(cfg: Config, w: World, t: string, newValue: Double, k: nat)
    requires Acyclic(cfg) && EventsFine(cfg, t) && k < |Events(cfg, t)|
    ensures var o := RunEvent(cfg, w.(log := w.log + [Fired(t, k)]), t, newValue, k);
            !o.threw && OfState(o.world.log, t) == OfState(w.log, t) + [Fired(t, k)]
  {
    var fired := w.(log := w.log + [Fired(t, k)]);
    OfStateAppend(w.log, Fired(t, k), t);
    NotInOwnReach(cfg, t);
    RunEventLeaves(cfg, fired, t, newValue, k, t);
    FineEventRuns(cfg, fired, t, newValue, k);
  }

  /** The events of a written state: whatever they set off, its part of the log grows by just the firings. */
  lemma {:induction false} RunEventsAnswer(cfg: Config, w: World, t: string, c: Change, k: nat)
    requires Acyclic(cfg) && EventsFine(cfg, t) && k <= |Events(cfg, t)|
    ensures OfState(RunEvents(cfg, w, t, c.oldValue, c.newValue, k).log, t)
         == OfState(w.log, t) + Firings(Events(cfg, t), t, c, k)
    decreases |Events(cfg, t)| - k
  {
    FiringsOneByOne(Events(cfg, t), OfState(w.log, t), t, c, k);
    if k < |Events(cfg, t)| {
      if !IsTriggered(Events(cfg, t), c, k) {
        RunEventsAnswer(cfg, w, t, c, k + 1);
      } else {
        OwnEventAnswers(cfg, w, t, c.newValue, k);
        RunEventsAnswer(cfg, RunEvent(cfg, w.(log := w.log + [Fired(t, k)]), t, c.newValue, k).world, t, c, k + 1);
      }
    }
  }

  lemma NotInOwnReach(cfg: Config, t: string)
    requires Acyclic(cfg)
    ensures t !in Reach(cfg, t)
  {
    assert !Reaches(cfg, t, t);
  }

  lemma AnswerWritesOnce(events: seq<Event>, log: seq<Effect>, t: string, c: Change)
    ensures WritesTo(log + Answer(events, t)(c), t) == WritesTo(log, t) + [c]
  {
    var wrote := Wrote(t, c.oldValue, c.newValue);
    AnswerParts(events, log, t, c);
    WritesToAppend(log, wrote, t);
    FiringsWriteNothing(events, log + [wrote], t, c, 0);
  }

  /** A log whose part for t has grown by an answered write is answered if it was before. */
  lemma AnsweredGrows(cfg: Config, log: seq<Effect>, r: seq<Effect>, t: string, c: Change)
    requires AllAnswered(cfg, log, t) && OfState(r, t) == OfState(log, t) + Answer(Events(cfg, t), t)(c)
    ensures AllAnswered(cfg, r, t)
  {
    WritesOfState(log, t);
    WritesOfState(r, t);
    AnswerWritesOnce(Events(cfg, t), OfState(log, t), t, c);
    FlatMapAppend(Answer(Events(cfg, t), t), WritesTo(log, t), [c]);
    FlatMapOne(Answer(Events(cfg, t), t), c);
  }

  /** A log that tells the same of t is answered if the other is. */
  lemma AnsweredStays(cfg: Config, log: seq<Effect>, r: seq<Effect>, t: string)
    requires AllAnswered(cfg, log, t) && OfState(r, t) == OfState(log, t)
    ensures AllAnswered(cfg, r, t)
  {
    WritesOfState(log, t);
    WritesOfState(r, t);
  }

  lemma StoredOfState(w: World, s: string, value: Double, timestamp: nat, t: string)
    ensures OfState(Stored(w, s, value, timestamp).log, t)
         == if s == t then OfState(w.log, t) + [Wrote(t, OldValue(w, t), value)] else OfState(w.log, t)
  {
    OfStateAppend(w.log, Wrote(s, OldValue(w, s), value), t);
  }

  /** A write of t itself is answered by its own events; what they set off does not come back to t. */
  lemma OwnWriteAnswered(cfg: Config, w: World, t: string, value: Double, timestamp: nat)
    requires Acyclic(cfg) && EventsFine(cfg, t)
    ensures OfState(SetState(cfg, w, t, value, timestamp).log, t)
         == OfState(w.log, t) + Answer(Events(cfg, t), t)(Change(OldValue(w, t), value))
  {
    var c := Change(OldValue(w, t), value);
    StoredOfState(w, t, value, timestamp, t);
    RunEventsAnswer(cfg, Stored(w, t, value, timestamp), t, c, 0);
    Associative(OfState(w.log, t), [Wrote(t, c.oldValue, c.newValue)], Firings(Events(cfg, t), t, c, 0));
  }

  /** A write and its whole cascade leave every write of every state answered. */
  lemma {:induction false} SetStateAnswers(cfg: Config, w: World, s: string, value: Double, timestamp: nat, t: string)
    requires Acyclic(cfg) && EventsFine(cfg, t) && AllAnswered(cfg, w.log, t)
    ensures AllAnswered(cfg, SetState(cfg, w, s, value, timestamp).log, t)
    decreases Reach(cfg, s), 2, 0
  {
    if s == t {
      OwnWriteAnswered(cfg, w, t, value, timestamp);
      AnsweredGrows(cfg, w.log, SetState(cfg, w, s, value, timestamp).log, t, Change(OldValue(w, t), value));
    } else {
      var stored := Stored(w, s, value, timestamp);
      StoredOfState(w, s, value, timestamp, t);
      AnsweredStays(cfg, w.log, stored.log, t);
      OthersAnswer(cfg, stored, s, OldValue(w, s), value, 0, t);
    }
  }

  lemma {:induction false} OthersAnswer(cfg: Config, w: World, s: string, oldValue: Double, newValue: Double, k: nat,
        t: string)
    requires Acyclic(cfg) && EventsFine(cfg, t) && AllAnswered(cfg, w.log, t) && s != t && k <= |Events(cfg, s)|
    ensures AllAnswered(cfg, RunEvents(cfg, w, s, oldValue, newValue, k).log, t)
    decreases Reach(cfg, s), 1, |Events(cfg, s)| - k
  {
    if k < |Events(cfg, s)| {
      if !ShallTrigger(Events(cfg, s)[k].trigger, oldValue, newValue) {
        OthersAnswer(cfg, w, s, oldValue, newValue, k + 1, t);
      } else {
        var fired := w.(log := w.log + [Fired(s, k)]);
        OfStateAppend(w.log, Fired(s, k), t);
        AnsweredStays(cfg, w.log, fired.log, t);
        OtherAnswers(cfg, fired, s, newValue, k, t);
        var o := RunEvent(cfg, fired, s, newValue, k);
        if !o.threw {
          OthersAnswer(cfg, o.world, s, oldValue, newValue, k + 1, t);
        }
      }
    }
  }

  lemma {:induction false} OtherAnswers(cfg: Config, w: World, s: string, newValue: Double, k: nat, t: string)
    requires Acyclic(cfg) && EventsFine(cfg, t) && AllAnswered(cfg, w.log, t) && k < |Events(cfg, s)|
    ensures AllAnswered(cfg, RunEvent(cfg, w, s, newValue, k).world.log, t)
    decreases Reach(cfg, s), 0, 0
  {
    var e := Events(cfg, s)[k];
    if Sets(e) {
      RunEventSets(cfg, w, s, newValue, k);
      var arg := Argument(w, s, e.value.value, newValue);
      if arg.result.Ok? {
        SetStateAnswers(cfg, Prepared(w, s, e, newValue), e.state.value, arg.result.value,
                        cfg.clock(arg.world.stamps), t);
      }
    } else {
      OtherIssues(cfg, w, s, newValue, k, t);
    }
  }

  lemma OtherIssues(cfg: Config, w: World, s: string, newValue: Double, k: nat, t: string)
    requires Acyclic(cfg) && AllAnswered(cfg, w.log, t) && k < |Events(cfg, s)| && !Sets(Events(cfg, s)[k])
    ensures AllAnswered(cfg, RunEvent(cfg, w, s, newValue, k).world.log, t)
  {
    var e := Events(cfg, s)[k];
    RunEventIssues(cfg, w, s, newValue, k);
    if e.command.Some? {
      IssueLeaves(cfg, w, Bind(cfg, s), e, newValue, t);
    }
  }

  /** Over any run of SetState calls the log of a state is its writes, each followed by the events it triggers in the
      order of their list, before the state is written again. Only the events of that state must not throw. */
  lemma {:induction false} EveryWriteIsAnswered(cfg: Config, w: World, calls: seq<Call>, t: string)
    requires Acyclic(cfg) && EventsFine(cfg, t) && w.log == []
    ensures var log := RunCalls(cfg, w, calls).log;
            OfState(log, t) == FlatMap(Answer(Events(cfg, t), t), WritesTo(log, t))
  {
    if calls != [] {
      var c, init := calls[|calls| - 1], calls[..|calls| - 1];
      EveryWriteIsAnswered(cfg, w, init, t);
      SetStateAnswers(cfg, RunCalls(cfg, w, init), c.name, c.value, c.timestamp, t);
    }
  }

  // -------------------------------------------------------------------- once per block

  /** The last count plus one. */
  function Counted(counts: seq<nat>): seq<nat> {
    if counts == [] then [] else counts[..|counts| - 1] + [counts[|counts| - 1] + 1]
  }

  /** How often the j-th event of t has fired after each write of t and before the next. */
  function FiringsPerWrite(log: seq<Effect>, t: string, j: nat): seq<nat> {
    if log == [] then []
    else
      var before, e := FiringsPerWrite(log[..|log| - 1], t, j), log[|log| - 1];
      if e.Wrote? && e.name == t then before + [0] else if e == Fired(t, j) then Counted(before) else before
  }

  lemma PerWriteAppend(log: seq<Effect>, e: Effect, t: string, j: nat)
    ensures var before := FiringsPerWrite(log, t, j);
            FiringsPerWrite(log + [e], t, j) ==
              if e.Wrote? && e.name == t then before + [0] else if e == Fired(t, j) then Counted(before) else before
  {
    assert (log + [e])[..|log|] == log;
  }

  lemma {:induction false} PerWriteOfState(log: seq<Effect>, t: string, j: nat)
    ensures FiringsPerWrite(OfState(log, t), t, j) == FiringsPerWrite(log, t, j)
  {
    if log != [] {
      var init, e := log[..|log| - 1], log[|log| - 1];
      PerWriteOfState(init, t, j);
      assert log == init + [e];
      OfStateAppend(init, e, t);
      if Concerns(e, t) {
        PerWriteAppend(OfState(init, t), e, t, j);
      }
    }
  }

  lemma PerWriteFiring(events: seq<Event>, log: seq<Effect>, t: string, c: Change, k: nat, j: nat)
    requires k < |events| && j < |events|
    ensures FiringsPerWrite(WithFiring(events, log, t, c, k), t, j) ==
            if k == j && IsTriggered(events, c, j) then Counted(FiringsPerWrite(log, t, j))
            else FiringsPerWrite(log, t, j)
  {
    PerWriteAppend(log, Fired(t, k), t, j);
  }

  /** The counts after the events from the k-th on have had their turn. */
  function CountedFrom(events: seq<Event>, counts: seq<nat>, c: Change, k: nat, j: nat): seq<nat>
    requires j < |events|
  {
    if k <= j && IsTriggered(events, c, j) then Counted(counts) else counts
  }

  lemma {:induction false} PerWriteFirings(events: seq<Event>, log: seq<Effect>, t: string, c: Change, k: nat, j: nat)
    requires k <= |events| && j < |events|
    ensures FiringsPerWrite(log + Firings(events, t, c, k), t, j)
         == CountedFrom(events, FiringsPerWrite(log, t, j), c, k, j)
    decreases |events| - k
  {
    FiringsOneByOne(events, log, t, c, k);
    if k < |events| {
      var next := WithFiring(events, log, t, c, k);
      PerWriteFiring(events, log, t, c, k, j);
      PerWriteFirings(events, next, t, c, k + 1, j);
      assert CountedFrom(events, FiringsPerWrite(next, t, j), c, k + 1, j)
          == CountedFrom(events, FiringsPerWrite(log, t, j), c, k, j);
    }
  }

  /** What a change owes the j-th event. */
  function Owed(events: seq<Event>, c: Change, j: nat): nat
    requires j < |events|
  {
    if IsTriggered(events, c, j) then 1 else 0
  }

  lemma PerWriteWrote(log: seq<Effect>, t: string, c: Change, j: nat)
    ensures FiringsPerWrite(log + [Wrote(t, c.oldValue, c.newValue)], t, j) == FiringsPerWrite(log, t, j) + [0]
    ensures Counted(FiringsPerWrite(log, t, j) + [0]) == FiringsPerWrite(log, t, j) + [1]
  {
    PerWriteAppend(log, Wrote(t, c.oldValue, c.newValue), t, j);
  }

  lemma PerWriteAnswer(events: seq<Event>, log: seq<Effect>, t: string, c: Change, j: nat)
    requires j < |events|
    ensures FiringsPerWrite(log + Answer(events, t)(c), t, j) == FiringsPerWrite(log, t, j) + [Owed(events, c, j)]
  {
    AnswerParts(events, log, t, c);
    PerWriteWrote(log, t, c, j);
    PerWriteFirings(events, log + [Wrote(t, c.oldValue, c.newValue)], t, c, 0, j);
  }

  lemma {:induction false} PerWriteAnswers(events: seq<Event>, changes: seq<Change>, t: string, j: nat)
    requires j < |events|
    ensures var fired := FiringsPerWrite(FlatMap(Answer(events, t), changes), t, j);
            |fired| == |changes| && forall q | 0 <= q < |changes| :: fired[q] == Owed(events, changes[q], j)
  {
    if changes != [] {
      var init, c := changes[..|changes| - 1], changes[|changes| - 1];
      PerWriteAnswers(events, init, t, j);
      PerWriteAnswer(events, FlatMap(Answer(events, t), init), t, c, j);
      assert FlatMap(Answer(events, t), changes) == FlatMap(Answer(events, t), init) + Answer(events, t)(c);
    }
  }

  /** A write of a number is owed a firing exactly when its value starts a maximal block. */
  lemma OwedIffDue(events: seq<Event>, changes: seq<Change>, j: nat, q: nat)
    requires j < |events| && q < |changes| && IsChain(changes)
    requires events[j].trigger.Some? && Recognised(events[j].trigger.value)
    ensures Owed(events, changes[q], j)
         == if ShouldFire(events[j].trigger.value, Seen(changes), q + 1) then 1 else 0
  {
    ChainIsSeen(changes, q);
    FiresExactly(events[j].trigger.value, Seen(changes), q + 1);
  }

  lemma AnswersAtBlockStarts(events: seq<Event>, changes: seq<Change>, t: string, j: nat)
    requires j < |events| && IsChain(changes)
    requires events[j].trigger.Some? && Recognised(events[j].trigger.value)
    ensures var fired := FiringsPerWrite(FlatMap(Answer(events, t), changes), t, j);
            && |fired| == |changes|
            && forall q | 0 <= q < |fired| ::
                 fired[q] == if ShouldFire(events[j].trigger.value, Seen(changes), q + 1) then 1 else 0
  {
    PerWriteAnswers(events, changes, t, j);
    forall q | 0 <= q < |changes|
      ensures Owed(events, changes[q], j)
           == if ShouldFire(events[j].trigger.value, Seen(changes), q + 1) then 1 else 0
    {
      OwedIffDue(events, changes, j, q);
    }
  }

  /** Write by write: an event with a recognised trigger fires exactly once between a write that starts a maximal block
      in its range and the next write of the state, and not at all after any other write of a number. */
  lemma FiresAtBlockStarts(cfg: Config, w: World, calls: seq<Call>, t: string, j: nat)
    requires Acyclic(cfg) && EventsFine(cfg, t) && w.log == [] && j < |Events(cfg, t)|
    requires Events(cfg, t)[j].trigger.Some? && Recognised(Events(cfg, t)[j].trigger.value)
    ensures var log := RunCalls(cfg, w, calls).log;
            var seen, fired := Seen(WritesTo(log, t)), FiringsPerWrite(log, t, j);
            && |seen| == |fired| + 1
            && forall q | 0 <= q < |fired| ::
                 fired[q] == if ShouldFire(Events(cfg, t)[j].trigger.value, seen, q + 1) then 1 else 0
  {
    var log := RunCalls(cfg, w, calls).log;
    RunCallsChained(cfg, w, calls, t);
    EveryWriteIsAnswered(cfg, w, calls, t);
    PerWriteOfState(log, t, j);
    AnswersAtBlockStarts(Events(cfg, t), WritesTo(log, t), t, j);
  }

  /** An event without a trigger of a recognised type fires once after every write. */
  lemma UntypedFiresAlways(cfg: Config, w: World, calls: seq<Call>, t: string, j: nat)
    requires Acyclic(cfg) && EventsFine(cfg, t) && w.log == [] && j < |Events(cfg, t)|
    requires Events(cfg, t)[j].trigger.None? || !Recognised(Events(cfg, t)[j].trigger.value)
    ensures var log := RunCalls(cfg, w, calls).log;
            var fired := FiringsPerWrite(log, t, j);
            |fired| == |WritesTo(log, t)| && forall q | 0 <= q < |fired| :: fired[q] == 1
  {
    var log := RunCalls(cfg, w, calls).log;
    EveryWriteIsAnswered(cfg, w, calls, t);
    PerWriteOfState(log, t, j);
    PerWriteAnswers(Events(cfg, t), WritesTo(log, t), t, j);
    forall q | 0 <= q < |WritesTo(log, t)| ensures Owed(Events(cfg, t), WritesTo(log, t)[q], j) == 1 {
      UntypedAlwaysTriggers(Events(cfg, t)[j].trigger, WritesTo(log, t)[q].oldValue, WritesTo(log, t)[q].newValue);
    }
  }

  // ------------------------------------------------------------------------ alternation

  function PairBit(t: string, i: nat, j: nat): Effect -> seq<bool> {
    (e: Effect) => if e == Fired(t, i) then [true] else if e == Fired(t, j) then [false] else []
  }

  /** The firings of two events of a state as the log shows them: true for the i-th, false for the j-th. */
  function PairLog(log: seq<Effect>, t: string, i: nat, j: nat): seq<bool> {
    FlatMap(PairBit(t, i, j), log)
  }

  lemma PairLogAppend(log: seq<Effect>, e: Effect, t: string, i: nat, j: nat)
    ensures PairLog(log + [e], t, i, j) == PairLog(log, t, i, j) + PairBit(t, i, j)(e)
  {
    FlatMapAppend(PairBit(t, i, j), log, [e]);
    FlatMapOne(PairBit(t, i, j), e);
  }

  lemma {:induction false} PairLogOfState(log: seq<Effect>, t: string, i: nat, j: nat)
    ensures PairLog(OfState(log, t), t, i, j) == PairLog(log, t, i, j)
  {
    if log != [] {
      var init, e := log[..|log| - 1], log[|log| - 1];
      PairLogOfState(init, t, i, j);
      assert log == init + [e];
      OfStateAppend(init, e, t);
      if Concerns(e, t) {
        PairLogAppend(OfState(init, t), e, t, i, j);
      }
    }
  }

  /** What the events from the k-th on add to the log of a pair of which a change triggers at most one. */
  function PairBits(events: seq<Event>, c: Change, k: nat, i: nat, j: nat): seq<bool>
    requires i < |events| && j < |events|
  {
    if k <= i && IsTriggered(events, c, i) then [true]
    else if k <= j && IsTriggered(events, c, j) then [false]
    else []
  }

  /** What the k-th event itself adds. */
  function OwnBits(events: seq<Event>, t: string, c: Change, k: nat, i: nat, j: nat): seq<bool>
    requires k < |events|
  {
    if IsTriggered(events, c, k) then PairBit(t, i, j)(Fired(t, k)) else []
  }

  lemma PairBitsStep(events: seq<Event>, t: string, c: Change, k: nat, i: nat, j: nat)
    requires k < |events| && i < |events| && j < |events| && i != j
    requires !(IsTriggered(events, c, i) && IsTriggered(events, c, j))
    ensures PairBits(events, c, k, i, j) == OwnBits(events, t, c, k, i, j) + PairBits(events, c, k + 1, i, j)
  {
    FiredBit(t, i, j, k);
    var later := PairBits(events, c, k + 1, i, j);
    if IsTriggered(events, c, k) && (k == i || k == j) {
      assert later == [];
    } else {
      assert later == PairBits(events, c, k, i, j);
    }
  }

  lemma FiredBit(t: string, i: nat, j: nat, k: nat)
    ensures PairBit(t, i, j)(Fired(t, k)) == if k == i then [true] else if k == j then [false] else []
  {
  }

  lemma PairOfFiring(events: seq<Event>, log: seq<Effect>, t: string, c: Change, k: nat, i: nat, j: nat)
    requires k < |events|
    ensures PairLog(WithFiring(events, log, t, c, k), t, i, j) == PairLog(log, t, i, j) + OwnBits(events, t, c, k, i, j)
  {
    PairLogAppend(log, Fired(t, k), t, i, j);
  }

  lemma Extended<T>(before: seq<T>, after: seq<T>, own: seq<T>, later: seq<T>)
    requires after == before + own
    ensures after + later == before + (own + later)
  {
  }

  /** So it is for the firings of a list, wherever the two stand in it. */
  lemma {:induction false} PairOfFirings(events: seq<Event>, log: seq<Effect>, t: string, c: Change, k: nat,
        i: nat, j: nat)
    requires k <= |events| && i < |events| && j < |events| && i != j
    requires !(IsTriggered(events, c, i) && IsTriggered(events, c, j))
    ensures PairLog(log + Firings(events, t, c, k), t, i, j) == PairLog(log, t, i, j) + PairBits(events, c, k, i, j)
    decreases |events| - k
  {
    FiringsOneByOne(events, log, t, c, k);
    if k < |events| {
      var next := WithFiring(events, log, t, c, k);
      PairBitsStep(events, t, c, k, i, j);
      PairOfFiring(events, log, t, c, k, i, j);
      Extended(PairLog(log, t, i, j), PairLog(next, t, i, j), OwnBits(events, t, c, k, i, j),
               PairBits(events, c, k + 1, i, j));
      PairOfFirings(events, next, t, c, k + 1, i, j);
    }
  }

  /** The i-th and the j-th event of t trigger on complementary ranges. */
  predicate Complementary(events: seq<Event>, i: nat, j: nat) {
    && i < |events| && j < |events|
    && events[i].trigger.Some? && Recognised(events[i].trigger.value)
    && events[j].trigger == Some(Opposite(events[i].trigger.value))
  }

  lemma {:induction false} PairOfAnswers(events: seq<Event>, changes: seq<Change>, n: nat, t: string, i: nat, j: nat)
    requires Complementary(events, i, j) && IsChain(changes) && AllNumbers(News(changes)) && n <= |changes|
    ensures PairLog(FlatMap(Answer(events, t), changes[..n]), t, i, j)
         == FiringLog(events[i].trigger.value, Seen(changes), n)
  {
    if n > 0 {
      PairOfAnswers(events, changes, n - 1, t, i, j);
      FlatMapStep(Answer(events, t), changes, n - 1);
      ChainIsSeen(changes, n - 1);
      PairOfChange(events, Seen(changes), n, changes[n - 1], i, j);
      PairOfAnswer(events, FlatMap(Answer(events, t), changes[..n - 1]), t, changes[n - 1], i, j);
    }
  }

  /** What the n-th change adds to the firings of a complementary pair. */
  lemma PairOfChange(events: seq<Event>, seen: seq<Double>, n: nat, c: Change, i: nat, j: nat)
    requires Complementary(events, i, j) && 0 < n < |seen| && seen[n].Fin? && c == Change(seen[n - 1], seen[n])
    ensures i != j && !(IsTriggered(events, c, i) && IsTriggered(events, c, j))
    ensures var trigger := events[i].trigger.value;
            FiringLog(trigger, seen, n) == FiringLog(trigger, seen, n - 1) + PairBits(events, c, 0, i, j)
  {
    var trigger := events[i].trigger.value;
    PairStep(trigger, c.oldValue, c.newValue);
    assert IsTriggered(events, c, i) == Fires(trigger, seen, n);
    assert IsTriggered(events, c, j) == Fires(Opposite(trigger), seen, n);
  }

  lemma PairOfAnswer(events: seq<Event>, log: seq<Effect>, t: string, c: Change, i: nat, j: nat)
    requires i < |events| && j < |events| && i != j
    requires !(IsTriggered(events, c, i) && IsTriggered(events, c, j))
    ensures PairLog(log + Answer(events, t)(c), t, i, j) == PairLog(log, t, i, j) + PairBits(events, c, 0, i, j)
  {
    AnswerParts(events, log, t, c);
    PairWrote(log, t, c, i, j);
    PairOfFirings(events, log + [Wrote(t, c.oldValue, c.newValue)], t, c, 0, i, j);
  }

  lemma PairWrote(log: seq<Effect>, t: string, c: Change, i: nat, j: nat)
    ensures PairLog(log + [Wrote(t, c.oldValue, c.newValue)], t, i, j) == PairLog(log, t, i, j)
  {
    PairLogAppend(log, Wrote(t, c.oldValue, c.newValue), t, i, j);
  }

  lemma AnswersAlternate(events: seq<Event>, changes: seq<Change>, t: string, i: nat, j: nat)
    requires Complementary(events, i, j) && IsChain(changes) && AllNumbers(News(changes))
    ensures var pair := PairLog(FlatMap(Answer(events, t), changes), t, i, j);
            Alternates(pair) && TellsSide(events[i].trigger.value, Seen(changes), pair)
  {
    var seen := Seen(changes);
    PairOfAnswers(events, changes, |changes|, t, i, j);
    assert changes[..|changes|] == changes && seen[1..] == News(changes) && seen[..|changes| + 1] == seen;
    PairAlternates(events[i].trigger.value, seen, |changes|);
  }

  /** Over any run of SetState calls, cascades included, the firings of two events of a state with complementary
      triggers alternate strictly, and tell on which side the value is. */
  lemma PairFiresAlternately(cfg: Config, w: World, calls: seq<Call>, t: string, i: nat, j: nat)
    requires Acyclic(cfg) && EventsFine(cfg, t) && w.log == [] && Complementary(Events(cfg, t), i, j)
    requires AllNumbers(News(WritesTo(RunCalls(cfg, w, calls).log, t)))
    ensures var log := RunCalls(cfg, w, calls).log;
            var pair := PairLog(log, t, i, j);
            Alternates(pair) && TellsSide(Events(cfg, t)[i].trigger.value, Seen(WritesTo(log, t)), pair)
  {
    var log := RunCalls(cfg, w, calls).log;
    RunCallsChained(cfg, w, calls, t);
    EveryWriteIsAnswered(cfg, w, calls, t);
    PairLogOfState(log, t, i, j);
    AnswersAlternate(Events(cfg, t), WritesTo(log, t), t, i, j);
  }
}
