/** The state controller of src/StateController.cpp, and the mirror a client keeps of it. */
module StateControllers {
  import opened Common
  import opened Doubles

  datatype Entry = Entry(value: Double, timestamp: nat, dirty: bool)

  /** What a client is told about a state. */
  datatype Reported = Reported(value: Double, timestamp: nat)

  type States = map<string, Entry>

  type Mirror = map<string, Reported>

  function Report(e: Entry): Reported {
    Reported(e.value, e.timestamp)
  }

  function Snapshot(s: States): Mirror {
    map n | n in s :: Report(s[n])
  }

  function Written(s: States, name: string, value: Double, timestamp: nat): States {
    s[name := Entry(value, timestamp, true)]
  }

  /** Reading the value of a missing state inserts it as zero. */
  function Touched(s: States, name: string): States {
    if name in s then s else s[name := Entry(ZERO, 0, false)]
  }

  function ValueOf(s: States, name: string): Double {
    if name in s then s[name].value else ZERO
  }

  function Dirties(s: States): Mirror {
    map n | n in s && s[n].dirty :: Report(s[n])
  }

  function Cleaned(s: States): States {
    map n | n in s :: s[n].(dirty := false)
  }

  function Added(s: States, entries: Mirror): States {
    s + map n | n in entries :: Entry(entries[n].value, entries[n].timestamp, false)
  }

  // ---------------------------------------------------------------- the mirror protocol

  /** The calls that reach the controller; Drain is GetDirtyStates, whose batch the client applies. */
  datatype Op =
    | Set(name: string, value: Double, timestamp: nat)
    | Get(name: string)
    | GetValue(name: string)
    | Drain
    | Add(entries: Mirror)

  datatype Pair = Pair(server: States, client: Mirror)

  function After(p: Pair, op: Op): Pair {
    match op
    case Set(name, value, timestamp) => p.(server := Written(p.server, name, value, timestamp))
    case Get(_) => p
    case GetValue(name) => p.(server := Touched(p.server, name))
    case Drain => Pair(Cleaned(p.server), p.client + Dirties(p.server))
    case Add(entries) => p.(server := Added(p.server, entries))
  }

  /** The client holds the server's value and timestamp of every state that is not dirty, and no others. */
  ghost predicate Agrees(p: Pair) {
    && p.client.Keys <= p.server.Keys
    && forall n | n in p.server && !p.server[n].dirty :: n in p.client && p.client[n] == Report(p.server[n])
  }

  /** An operation that changes a state without marking it dirty, to something the client does not hold. */
  ghost predicate Silent(p: Pair, op: Op) {
    match op
    case GetValue(name) => name !in p.server
    case Add(entries) => exists n | n in entries :: n !in p.client || p.client[n] != entries[n]
    case _ => false
  }

  lemma SnapshotAgrees(s: States)
    ensures Agrees(Pair(s, Snapshot(s)))
  {
  }

  /** Agreement survives exactly the operations that are not silent. */
  lemma AgreementIff(p: Pair, op: Op)
    requires Agrees(p)
    ensures Agrees(After(p, op)) <==> !Silent(p, op)
  {
    var r := After(p, op);
    match op
    case GetValue(name) =>
      if name !in p.server {
        assert name in r.server && !r.server[name].dirty && name !in r.client;
      }
    case Add(entries) =>
      forall n | n in entries ensures n in r.server && !r.server[n].dirty && Report(r.server[n]) == entries[n] {
      }
      if !Silent(p, op) {
        forall n | n in r.server && !r.server[n].dirty ensures n in r.client && r.client[n] == Report(r.server[n]) {
        }
      }
    case _ =>
  }

  /** Right after a drain the client holds exactly the whole server map. */
  lemma DrainCompletes(p: Pair)
    requires Agrees(p)
    ensures After(p, Drain).client == Snapshot(After(p, Drain).server)
  {
    var r := After(p, Drain);
    assert r.client.Keys == r.server.Keys;
    forall n | n in r.server ensures r.client[n] == Report(r.server[n]) {
    }
  }

  function Run(p: Pair, ops: seq<Op>): Pair {
    if ops == [] then p else After(Run(p, ops[..|ops| - 1]), ops[|ops| - 1])
  }

  /** A client that starts from a snapshot and applies every batch agrees at every moment of a run of writes, reads
      of present states and drains, and holds the whole map right after each drain. */
  lemma {:induction false} MirrorAgreement(s: States, ops: seq<Op>)
    requires forall k | 0 <= k < |ops| :: !Silent(Run(Pair(s, Snapshot(s)), ops[..k]), ops[k])
    ensures var p := Run(Pair(s, Snapshot(s)), ops);
            Agrees(p) && (ops != [] && ops[|ops| - 1] == Drain ==> p.client == Snapshot(p.server))
  {
    if ops == [] {
      SnapshotAgrees(s);
    } else {
      var init := ops[..|ops| - 1];
      forall k | 0 <= k < |init| ensures !Silent(Run(Pair(s, Snapshot(s)), init[..k]), init[k]) {
        assert init[..k] == ops[..k] && init[k] == ops[k];
      }
      MirrorAgreement(s, init);
      AgreementIff(Run(Pair(s, Snapshot(s)), init), ops[|ops| - 1]);
      DrainCompletes(Run(Pair(s, Snapshot(s)), init));
    }
  }

  // ---------------------------------------------------------------------- the controller

  class StateController {
    var states: States
    /** Number of writes with a timestamp. */
    var count: nat

    constructor ()
      ensures states == map[] && count == 0
    {
      states, count := map[], 0;
    }

    /** The locked part of SetState: stores the value and returns what was there, NaN for a new state. */
    method Store(name: string, value: Double, timestamp: nat) returns (oldValue: Double)
      modifies this
      ensures states == Written(old(states), name, value, timestamp)
      ensures oldValue == if name in old(states) then old(states)[name].value else NaN
      ensures count == old(count) + if timestamp != 0 then 1 else 0
    {
      var firstEntry := name !in states;
      if firstEntry {
        states := states[name := Entry(ZERO, 0, false)];
        oldValue := NaN;
      } else {
        oldValue := states[name].value;
      }
      ghost var before, e := states, states[name];
      states := states[name := states[name].(value := value)];
      states := states[name := states[name].(timestamp := timestamp)];
      LastWriteWins(before, name, e.(value := value), Entry(value, timestamp, e.dirty));
      states := states[name := states[name].(dirty := true)];
      LastWriteWins(before, name, Entry(value, timestamp, e.dirty), Entry(value, timestamp, true));
      LastWriteWins(old(states), name, Entry(ZERO, 0, false), Entry(value, timestamp, true));
      if timestamp != 0 {
        count := count + 1;
      }
    }

    method GetState(name: string) returns (r: Result<Entry>)
      ensures r == if name in states then Ok(states[name]) else Throws
    {
      if name in states {
        return Ok(states[name]);
      }
      return Throws;
    }

    method GetStateValue(name: string) returns (value: Double)
      modifies this`states
      ensures states == Touched(old(states), name) && value == ValueOf(old(states), name)
      ensures name !in old(states) ==> value == Fin(0.0) && states[name] == Entry(Fin(0.0), 0, false)
      ensures name in old(states) ==> value == old(states)[name].value && states == old(states)
    {
      if name !in states {
        states := states[name := Entry(ZERO, 0, false)];
      }
      value := states[name].value;
    }

    method GetDirtyStates() returns (dirties: Mirror)
      modifies this`states
      ensures dirties == Dirties(old(states)) && states == Cleaned(old(states))
    {
      dirties := map[];
      var todo := states.Keys;
      while todo != {}
        invariant todo <= old(states).Keys && states.Keys == old(states).Keys
        invariant forall n | n in states ::
                    states[n] == if n in todo then old(states)[n] else old(states)[n].(dirty := false)
        invariant forall n :: n in dirties <==> n in old(states) && n !in todo && old(states)[n].dirty
        invariant forall n | n in dirties :: dirties[n] == Report(old(states)[n])
      {
        var n :| n in todo;
        if states[n].dirty {
          dirties := dirties[n := Report(states[n])];
          states := states[n := states[n].(dirty := false)];
        }
        todo := todo - {n};
      }
    }

    method GetAllStates() returns (all: States)
      ensures all == states
    {
      all := states;
    }

    /** Adds states without marking them dirty and without triggering events. */
    method AddStates(entries: Mirror)
      modifies this`states
      ensures states == Added(old(states), entries)
    {
      var todo := entries.Keys;
      while todo != {}
        invariant todo <= entries.Keys
        invariant states == old(states) +
                    map n | n in entries && n !in todo :: Entry(entries[n].value, entries[n].timestamp, false)
      {
        var n :| n in todo;
        states := states[n := Entry(entries[n].value, entries[n].timestamp, false)];
        todo := todo - {n};
      }
    }

    method AddUninitializedStates(names: seq<string>)
      modifies this`states
      ensures forall n :: n in states <==> n in old(states) || n in names
      ensures forall n | n in states :: states[n] == if n in names then Entry(ZERO, 0, false) else old(states)[n]
    {
      for i := 0 to |names|
        invariant forall n :: n in states <==> n in old(states) || n in names[..i]
        invariant forall n | n in states ::
                    states[n] == if n in names[..i] then Entry(ZERO, 0, false) else old(states)[n]
      {
        states := states[names[i] := Entry(ZERO, 0, false)];
      }
    }
  }
}
