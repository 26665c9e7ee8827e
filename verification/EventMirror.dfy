/** What a client that polls dirty states (GetDirtyStates of src/StateController.cpp) holds while calls of SetState set
    off cascades (src/EventManager.cpp). */
module EventMirror {
  import opened Doubles
  import opened Triggers
  import opened StateControllers
  import opened EventManagers
  import opened EventFirings

  /** Every entry is dirty or as it was; if not all is provided for, some may have been inserted as zero. */
  ghost predicate Marked(a: States, b: States, provided: bool) {
    && a.Keys <= b.Keys
    && forall n | n in b ::
         b[n].dirty || (if n in a then b[n] == a[n] else !provided && b[n] == Entry(ZERO, 0, false))
  }

  lemma MarkedTrans(a: States, b: States, c: States, provided: bool)
    requires Marked(a, b, provided) && Marked(b, c, provided)
    ensures Marked(a, c, provided)
  {
  }

  /** The parameter is no state other than the subject that could be missing. */
  predicate Given(states: States, subject: string, p: Param) {
    p.Named? ==> p.state == subject || p.state in states
  }

  /** No parameter of any event names a missing state. */
  ghost predicate Provided(cfg: Config, states: States) {
    forall s, e | e in Events(cfg, s) ::
      && (e.value.Some? ==> Given(states, s, e.value.value))
      && forall p | p in e.parameters :: Given(states, Bind(cfg, s).subject, p)
  }

  lemma ProvidedStays(cfg: Config, a: States, b: States)
    requires Provided(cfg, a) && a.Keys <= b.Keys
    ensures Provided(cfg, b)
  {
    forall s, e | e in Events(cfg, s)
      ensures e.value.Some? ==> Given(b, s, e.value.value)
      ensures forall p | p in e.parameters :: Given(b, Bind(cfg, s).subject, p)
    {
      forall p | p in e.parameters ensures Given(b, Bind(cfg, s).subject, p) {
        assert Given(a, Bind(cfg, s).subject, p);
      }
      assert e.value.Some? ==> Given(a, s, e.value.value);
    }
  }

  // ------------------------------------------------------------------------- one cascade

  lemma {:induction false} SetStateMarks(cfg: Config, w: World, s: string, value: Double, timestamp: nat,
        provided: bool)
    requires Acyclic(cfg) && (provided ==> Provided(cfg, w.states))
    ensures Marked(w.states, SetState(cfg, w, s, value, timestamp).states, provided)
    decreases Reach(cfg, s), 2, 0
  {
    var stored := Stored(w, s, value, timestamp);
    if provided {
      ProvidedStays(cfg, w.states, stored.states);
    }
    RunEventsMark(cfg, stored, s, OldValue(w, s), value, 0, provided);
    MarkedTrans(w.states, stored.states, SetState(cfg, w, s, value, timestamp).states, provided);
  }

  lemma {:induction false} RunEventsMark(cfg: Config, w: World, s: string, oldValue: Double, newValue: Double, k: nat,
        provided: bool)
    requires Acyclic(cfg) && (provided ==> Provided(cfg, w.states)) && k <= |Events(cfg, s)|
    ensures Marked(w.states, RunEvents(cfg, w, s, oldValue, newValue, k).states, provided)
    decreases Reach(cfg, s), 1, |Events(cfg, s)| - k
  {
    if k < |Events(cfg, s)| {
      if !ShallTrigger(Events(cfg, s)[k].trigger, oldValue, newValue) {
        RunEventsMark(cfg, w, s, oldValue, newValue, k + 1, provided);
      } else {
        var fired := w.(log := w.log + [Fired(s, k)]);
        RunEventMarks(cfg, fired, s, newValue, k, provided);
        var o := RunEvent(cfg, fired, s, newValue, k);
        if !o.threw {
          if provided {
            ProvidedStays(cfg, w.states, o.world.states);
          }
          RunEventsMark(cfg, o.world, s, oldValue, newValue, k + 1, provided);
          MarkedTrans(w.states, o.world.states, RunEvents(cfg, o.world, s, oldValue, newValue, k + 1).states, provided);
        }
      }
    }
  }

  lemma {:induction false} RunEventMarks(cfg: Config, w: World, s: string, newValue: Double, k: nat, provided: bool)
    requires Acyclic(cfg) && (provided ==> Provided(cfg, w.states)) && k < |Events(cfg, s)|
    ensures Marked(w.states, RunEvent(cfg, w, s, newValue, k).world.states, provided)
    decreases Reach(cfg, s), 0, 0
  {
    var e := Events(cfg, s)[k];
    assert e in Events(cfg, s);
    if Sets(e) {
      RunEventSets(cfg, w, s, newValue, k);
      var arg := Argument(w, s, e.value.value, newValue);
      ArgumentMarks(w, s, e.value.value, newValue, provided);
      if arg.result.Ok? {
        if provided {
          ProvidedStays(cfg, w.states, arg.world.states);
        }
        var prepared := Prepared(w, s, e, newValue);
        SetStateMarks(cfg, prepared, e.state.value, arg.result.value, cfg.clock(arg.world.stamps), provided);
        MarkedTrans(w.states, prepared.states, RunEvent(cfg, w, s, newValue, k).world.states, provided);
      }
    } else {
      RunEventIssues(cfg, w, s, newValue, k);
      if e.command.Some? {
        ArgumentsMark(w, Bind(cfg, s).subject, e.parameters, |e.parameters|, newValue, provided);
      }
    }
  }

  lemma ArgumentMarks(w: World, subject: string, p: Param, newValue: Double, provided: bool)
    requires provided ==> Given(w.states, subject, p)
    ensures Marked(w.states, Argument(w, subject, p, newValue).world.states, provided)
  {
  }

  lemma {:induction false} ArgumentsMark(w: World, subject: string, ps: seq<Param>, n: nat, newValue: Double,
        provided: bool)
    requires n <= |ps| && (provided ==> forall p | p in ps :: Given(w.states, subject, p))
    ensures Marked(w.states, Arguments(w, subject, ps, n, newValue).world.states, provided)
  {
    if n > 0 {
      var before := Arguments(w, subject, ps, n - 1, newValue).world;
      ArgumentsMark(w, subject, ps, n - 1, newValue, provided);
      assert provided ==> Given(w.states, subject, ps[n - 1]);
      ArgumentMarks(before, subject, ps[n - 1], newValue, provided);
      MarkedTrans(w.states, before.states, Argument(before, subject, ps[n - 1], newValue).world.states, provided);
    }
  }

  /** A call and its whole cascade keep a mirror in agreement exactly when every state they bring in is also written. */
  lemma CascadeAgreementIff(cfg: Config, w: World, client: Mirror, s: string, value: Double, timestamp: nat)
    requires Acyclic(cfg) && Agrees(Pair(w.states, client))
    ensures var r := SetState(cfg, w, s, value, timestamp).states;
            Agrees(Pair(r, client)) <==> forall n | n in r && n !in w.states :: r[n].dirty
  {
    SetStateMarks(cfg, w, s, value, timestamp, false);
  }

  // -------------------------------------------------------------------------- whole runs

  datatype Step = Write(call: Call) | Poll

  datatype Mirrored = Mirrored(world: World, client: Mirror)

  ghost function StepMirrored(cfg: Config, m: Mirrored, step: Step): Mirrored
    requires Acyclic(cfg)
  {
    match step
    case Write(c) => m.(world := SetState(cfg, m.world, c.name, c.value, c.timestamp))
    case Poll =>
      var p := After(Pair(m.world.states, m.client), Drain);
      Mirrored(m.world.(states := p.server), p.client)
  }

  ghost function RunMirrored(cfg: Config, m: Mirrored, steps: seq<Step>): Mirrored
    requires Acyclic(cfg)
  {
    if steps == [] then m
    else StepMirrored(cfg, RunMirrored(cfg, m, steps[..|steps| - 1]), steps[|steps| - 1])
  }

  lemma StepAgrees(cfg: Config, m: Mirrored, step: Step)
    requires Acyclic(cfg) && Provided(cfg, m.world.states) && Agrees(Pair(m.world.states, m.client))
    ensures var r := StepMirrored(cfg, m, step);
            && Provided(cfg, r.world.states) && Agrees(Pair(r.world.states, r.client))
            && (step.Poll? ==> r.client == Snapshot(r.world.states))
  {
    var r := StepMirrored(cfg, m, step);
    match step
    case Write(c) =>
      SetStateMarks(cfg, m.world, c.name, c.value, c.timestamp, true);
      ProvidedStays(cfg, m.world.states, r.world.states);
      CascadeAgreementIff(cfg, m.world, m.client, c.name, c.value, c.timestamp);
    case Poll =>
      AgreementIff(Pair(m.world.states, m.client), Drain);
      DrainCompletes(Pair(m.world.states, m.client));
      ProvidedStays(cfg, m.world.states, r.world.states);
  }

  /** A client that starts from a snapshot and polls between calls of SetState holds value and time of every state that
      is not dirty, whatever the calls set off, and everything right after each poll, if no parameter names a state that
      is missing at the start. */
  lemma {:induction false} MirrorFollowsCascades(cfg: Config, w: World, steps: seq<Step>)
    requires Acyclic(cfg) && Provided(cfg, w.states)
    ensures var m := RunMirrored(cfg, Mirrored(w, Snapshot(w.states)), steps);
            && Provided(cfg, m.world.states) && Agrees(Pair(m.world.states, m.client))
            && (steps != [] && steps[|steps| - 1].Poll? ==> m.client == Snapshot(m.world.states))
  {
    if steps == [] {
      SnapshotAgrees(w.states);
    } else {
      MirrorFollowsCascades(cfg, w, steps[..|steps| - 1]);
      StepAgrees(cfg, RunMirrored(cfg, Mirrored(w, Snapshot(w.states)), steps[..|steps| - 1]), steps[|steps| - 1]);
    }
  }
}
