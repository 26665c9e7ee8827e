/** What the log of the event system tells of the values of states, and what parameters stand for (GetArgument of
    src/EventManager.cpp). */
module EventValues {
  import opened Doubles
  import opened StateControllers
  import opened EventManagers
  import opened EventCascade

  // --------------------------------------------------------------- values told by the log

  /** The value of a state after some effects: the last one written, at first that of the start, zero if it had none. */
  function Told(start: States, log: seq<Effect>, n: string): Double {
    match Last(WritesTo(log, n))
    case Some(value) => value
    case None => ValueOf(start, n)
  }

  /** The states are as the log tells. */
  ghost predicate Truthful(start: States, w: World) {
    forall n :: ValueOf(w.states, n) == Told(start, w.log, n)
  }

  lemma ToldAppend(start: States, log: seq<Effect>, e: Effect, n: string)
    ensures Told(start, log + [e], n) == if e.Wrote? && e.name == n then e.newValue else Told(start, log, n)
  {
    WritesToAppend(log, e, n);
  }

  lemma LoggedStaysTruthful(start: States, w: World, e: Effect)
    requires Truthful(start, w) && !e.Wrote?
    ensures Truthful(start, w.(log := w.log + [e]))
  {
    forall n ensures ValueOf(w.states, n) == Told(start, w.log + [e], n) {
      ToldAppend(start, w.log, e, n);
    }
  }

  lemma StoredStaysTruthful(start: States, w: World, s: string, value: Double, timestamp: nat)
    requires Truthful(start, w)
    ensures Truthful(start, Stored(w, s, value, timestamp))
  {
    var r := Stored(w, s, value, timestamp);
    forall n ensures ValueOf(r.states, n) == Told(start, r.log, n) {
      ToldAppend(start, w.log, Wrote(s, OldValue(w, s), value), n);
    }
  }

  // -------------------------------------------------------------------------- arguments

  /** What a parameter stands for: the value just written if it names the subject, the present value of another state it
      names, or the number it is. */
  ghost predicate StandsFor(subject: string, p: Param, newValue: Double, present: string -> Double, a: Double) {
    && (p.Named? && p.state == subject ==> a == newValue)
    && (p.Named? && p.state != subject ==> a == present(p.state))
    && (p.Value? ==> a.Fin? && a.x == p.x)
    && !p.Malformed?
  }

  ghost predicate StandFor(subject: string, ps: seq<Param>, newValue: Double, present: string -> Double,
                           args: seq<Double>)
  {
    |args| == |ps| && forall i | 0 <= i < |ps| :: StandsFor(subject, ps[i], newValue, present, args[i])
  }

  function ToldBy(start: States, log: seq<Effect>): string -> Double {
    n => Told(start, log, n)
  }

  lemma ArgumentKeepsTruth(start: States, w: World, subject: string, p: Param, newValue: Double)
    requires Truthful(start, w)
    ensures var r := Argument(w, subject, p, newValue);
            && r.world.log == w.log && Truthful(start, r.world) && (r.result.Ok? <==> !p.Malformed?)
            && (r.result.Ok? ==> StandsFor(subject, p, newValue, ToldBy(start, w.log), r.result.value))
  {
    var r := Argument(w, subject, p, newValue).world;
    forall n ensures ValueOf(r.states, n) == Told(start, r.log, n) {
      assert ValueOf(w.states, n) == Told(start, w.log, n);
    }
  }

  lemma {:induction false} ArgumentsKeepTruth(start: States, w: World, subject: string, ps: seq<Param>, n: nat,
        newValue: Double)
    requires Truthful(start, w) && n <= |ps|
    ensures var r := Arguments(w, subject, ps, n, newValue);
            && r.world.log == w.log && Truthful(start, r.world)
            && (r.result.Ok? <==> forall p | p in ps[..n] :: !p.Malformed?)
            && (r.result.Ok? ==> StandFor(subject, ps[..n], newValue, ToldBy(start, w.log), r.result.value))
  {
    if n > 0 {
      ArgumentsKeepTruth(start, w, subject, ps, n - 1, newValue);
      ArgumentKeepsTruth(start, Arguments(w, subject, ps, n - 1, newValue).world, subject, ps[n - 1], newValue);
      assert ps[..n] == ps[..n - 1] + [ps[n - 1]];
    }
  }

  lemma FiringTellsNothing(start: States, log: seq<Effect>, s: string, k: nat)
    ensures forall n :: ToldBy(start, log + [Fired(s, k)])(n) == ToldBy(start, log)(n)
  {
    forall n ensures ToldBy(start, log + [Fired(s, k)])(n) == ToldBy(start, log)(n) {
      ToldAppend(start, log, Fired(s, k), n);
    }
  }
}
