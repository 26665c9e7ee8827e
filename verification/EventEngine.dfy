/** The event manager and its state controller as they run: methods that write in place, proved against the cascade of
    module EventManagers. */
module EventEngine {
  import opened Common
  import opened Doubles
  import opened Triggers
  import opened StateControllers
  import opened EventManagers

  class EventManager {
    const cfg: Config
    const controller: StateController
    /** Everything the event system does, in order. */
    var log: seq<Effect>
    /** How often the wall clock has been read. */
    var stamps: nat

    constructor (cfg: Config, controller: StateController)
      ensures this.cfg == cfg && this.controller == controller && log == [] && stamps == 0
    {
      this.cfg, this.controller, log, stamps := cfg, controller, [], 0;
    }

    function Current(): World
      reads this, controller
    {
      World(controller.states, log, stamps)
    }

    /** StateController::SetState: stores the value and hands the change to the events. */
    method SetState(s: string, value: Double, timestamp: nat)
      requires Acyclic(cfg)
      modifies this, controller
      ensures Current() == EventManagers.SetState(cfg, old(Current()), s, value, timestamp)
      decreases Reach(cfg, s), 2, 0
    {
      var oldValue := controller.Store(s, value, timestamp);
      log := log + [Wrote(s, oldValue, value)];
      OnStateChange(s, oldValue, value);
    }

    /** Looks the events of the state up; whatever they throw is caught here. */
    method OnStateChange(s: string, oldValue: Double, newValue: Double)
      requires Acyclic(cfg)
      modifies this, controller
      ensures Current() == RunEvents(cfg, old(Current()), s, oldValue, newValue, 0)
      decreases Reach(cfg, s), 1, |Events(cfg, s)| + 1
    {
      var _ := ExecuteCommandOrState(Bind(cfg, s), s, oldValue, newValue);
    }

    method GetArgument(subject: string, p: Param, newValue: Double) returns (r: Result<Double>)
      modifies controller
      ensures Evaluated(Current(), r) == Argument(old(Current()), subject, p, newValue)
      ensures r == match p
                   case Named(n) => Ok(if n == subject then newValue else ValueOf(old(controller.states), n))
                   case Value(x) => Ok(Fin(x))
                   case Malformed => Throws
      ensures unchanged(this)
    {
      match p
      case Named(n) =>
        if n == subject {
          r := Ok(newValue);
        } else {
          var value := controller.GetStateValue(n);
          r := Ok(value);
        }
      case Value(x) => r := Ok(Fin(x));
      case Malformed => r := Throws;
    }

    method GetArgumentList(subject: string, ps: seq<Param>, newValue: Double) returns (r: Result<seq<Double>>)
      modifies controller
      ensures Evaluated(Current(), r) == Arguments(old(Current()), subject, ps, |ps|, newValue)
      ensures unchanged(this)
    {
      var argumentList := [];
      for i := 0 to |ps|
        invariant unchanged(this)
        invariant Evaluated(Current(), Ok(argumentList)) == Arguments(old(Current()), subject, ps, i, newValue)
      {
        var value := GetArgument(subject, ps[i], newValue);
        if value.Throws? {
          ThrowsToTheEnd(old(Current()), subject, ps, i + 1, |ps|, newValue);
          return Throws;
        }
        argumentList := argumentList + [value.value];
      }
      return Ok(argumentList);
    }

    /** Runs the events of a state in order. An exception leaves the remaining ones undone. */
    method ExecuteCommandOrState(b: Binding, s: string, oldValue: Double, newValue: Double) returns (done: Result<()>)
      requires Acyclic(cfg) && b == Bind(cfg, s)
      modifies this, controller
      ensures Current() == RunEvents(cfg, old(Current()), s, oldValue, newValue, 0)
      decreases Reach(cfg, s), 1, |Events(cfg, s)|
    {
      for k := 0 to |b.events|
        invariant RunEvents(cfg, old(Current()), s, oldValue, newValue, 0) ==
                  RunEvents(cfg, Current(), s, oldValue, newValue, k)
      {
        var e := b.events[k];
        if ShallTrigger(e.trigger, oldValue, newValue) {
          ghost var before := Current();
          log := log + [Fired(s, k)];
          done := ExecuteEvent(b, s, k, newValue);
          if done.Throws? {
            return;
          }
        }
      }
      done := Ok(());
    }

    /** Issues the command of an event, if there is such a command. */
    method IssueCommand(b: Binding, e: Event, newValue: Double) returns (done: Result<()>)
      requires e.command.Some?
      modifies this`log, controller
      ensures Outcome(Current(), done.Throws?) == EventManagers.IssueCommand(cfg, old(Current()), b, e, newValue)
    {
      var args := GetArgumentList(b.subject, e.parameters, newValue);
      if args.Throws? {
        return Throws;
      }
      var name := CommandName(b, e.command.value);
      if name !in cfg.commands {
        return Ok(());
      }
      log := log + [Commanded(name, args.value)];
      return if cfg.throws(name, args.value) then Throws else Ok(());
    }

    method ExecuteEvent(b: Binding, s: string, k: nat, newValue: Double) returns (done: Result<()>)
      requires Acyclic(cfg) && b == Bind(cfg, s) && k < |b.events|
      modifies this, controller
      ensures Outcome(Current(), done.Throws?) == RunEvent(cfg, old(Current()), s, newValue, k)
      decreases Reach(cfg, s), 0, 0
    {
      var e := b.events[k];
      if e.state.Some? && e.command.Some? {
        return Throws;
      } else if e.state.Some? {
        if e.value.None? {
          return Throws;
        }
        RunEventSets(cfg, Current(), s, newValue, k);
        var arg := GetArgument(s, e.value.value, newValue);
        if arg.Throws? {
          return Throws;
        }
        var timestamp := cfg.clock(stamps);
        stamps := stamps + 1;
        SetState(e.state.value, arg.value, timestamp);
        return Ok(());
      } else if e.command.Some? {
        RunEventIssues(cfg, Current(), s, newValue, k);
        done := IssueCommand(b, e, newValue);
      } else {
        return Throws;
      }
    }
  }

  lemma {:induction false} ThrowsToTheEnd(w: World, subject: string, ps: seq<Param>, i: nat, n: nat, newValue: Double)
    requires i <= n <= |ps| && Arguments(w, subject, ps, i, newValue).result.Throws?
    ensures Arguments(w, subject, ps, n, newValue) == Arguments(w, subject, ps, i, newValue)
  {
    if i < n {
      ThrowsToTheEnd(w, subject, ps, i, n - 1, newValue);
    }
  }
}
