/** Starting, stopping and aborting sequences as interleaved steps of the controlling thread and the loop
    threads (src/SequenceManager.cpp). Every read or write of a shared flag is one step. */
module SequenceThreads {
  import opened Common

  /** A loop thread: at the loop condition, inside a tick before and after taking the mutex, leaving the loop,
      having reset the stop flag, and gone. */
  datatype LoopPc = Head | Begun | Locked | Reset | Finishing | Exited

  /** The controlling thread: between calls, inside StartSequence, inside AbortSequence and abortSequence. */
  datatype ControlPc =
    | Idle
    | StartJoin | StartReadRunning | StartReadAbort | StartLoad | StartSetRunning | StartSpawn
    | AbortRead | AbortRaise | AbortJoin
    | AbortReadRunning | AbortReadFlag | AbortSetFlag | AbortLock | AbortIssue(next: nat) | AbortClear

  datatype Holder = Free | HeldByLoop | HeldByControl

  /** What can be seen from outside; every event names its run, the index of its loop thread. */
  datatype Event =
    | Started(run: nat, flagUp: bool)
    | TickBegun(run: nat)
    | Command(run: nat)
    | StopSeen(run: nat)
    | FlagRaised(run: nat)
    | FlagReset(run: nat)
    | AbortCommand(run: nat, index: nat)
    | AbortDone(run: nat)

  /** `threads` are all loop threads ever started, `handle` is sequenceThread while it is joinable. */
  datatype State = State(
    running: bool, toStop: bool, abortRunning: bool,
    threads: seq<LoopPc>, handle: Option<nat>, mutex: Holder,
    control: ControlPc, crashed: bool)

  const INITIAL := State(false, false, false, [], None, Free, Idle, false)

  /** A step: the state it leads to and what can be seen of it. */
  datatype Step = Step(next: State, event: Option<Event>)

  /** Start and Abort are calls of the client; Control is the next step of the controlling thread, where the
      sequence to load may be acceptable or not; the others are steps of loop thread i: the step at its program
      point, finding the end time passed, issuing a command, finding a sensor out of range. */
  datatype Act =
    | Start | Abort | Control(acceptable: bool)
    | Loop(i: nat) | PassEnd(i: nat) | Issue(i: nat) | AutoAbort(i: nat)

  function Silent(s: State): Option<Step> {
    Some(Step(s, None))
  }

  function Seen(s: State, e: Event): Option<Step> {
    Some(Step(s, Some(e)))
  }

  function At(s: State, i: nat, pc: LoopPc): State
    requires i < |s.threads|
  {
    s.(threads := s.threads[i := pc])
  }

  /** The run the controlling thread is concerned with. */
  function Current(s: State): nat {
    if s.threads == [] then 0 else |s.threads| - 1
  }

  /** join() of the handle; blocked while the thread lives. */
  function Join(s: State, next: ControlPc): Option<Step> {
    match s.handle
    case None => Silent(s.(crashed := true))
    case Some(i) =>
      if i < |s.threads| && s.threads[i] == Exited then Silent(s.(handle := None, control := next)) else None
  }

  /** One step inside StartSequence. */
  function StartStep(s: State, acceptable: bool): Option<Step> {
    match s.control
    case StartJoin => if s.handle.None? then Silent(s.(control := StartReadRunning)) else Join(s, StartReadRunning)
    case StartReadRunning => Silent(s.(control := if s.running then Idle else StartReadAbort))
    case StartReadAbort => Silent(s.(control := if s.abortRunning then Idle else StartLoad))
    case StartLoad => Silent(s.(control := if acceptable then StartSetRunning else Idle))
    case StartSetRunning => Silent(s.(running := true, control := StartSpawn))
    case StartSpawn =>
      // Assigning to a joinable std::thread ends the process.
      if s.handle.Some? then Silent(s.(crashed := true))
      else Seen(s.(threads := s.threads + [Head], handle := Some(|s.threads|), control := Idle),
                Started(|s.threads|, s.toStop))
    case _ => None
  }

  /** One step inside AbortSequence or abortSequence, with so many abort actions to issue. */
  function AbortStep(actions: nat, s: State): Option<Step> {
    match s.control
    case AbortRead => Silent(s.(control := if s.running then AbortRaise else Idle))
    case AbortRaise => Seen(s.(toStop := true, control := AbortJoin), FlagRaised(Current(s)))
    case AbortJoin => Join(s, AbortReadRunning)
    case AbortReadRunning => Silent(s.(control := if s.running then Idle else AbortReadFlag))
    case AbortReadFlag => Silent(s.(control := if s.abortRunning then Idle else AbortSetFlag))
    case AbortSetFlag => Silent(s.(abortRunning := true, control := AbortLock))
    case AbortLock => if s.mutex == Free then Silent(s.(mutex := HeldByControl, control := AbortIssue(0))) else None
    case AbortIssue(k) =>
      if k < actions then Seen(s.(control := AbortIssue(k + 1)), AbortCommand(Current(s), k))
      else Silent(s.(mutex := Free, control := AbortClear))
    case AbortClear => Seen(s.(abortRunning := false, control := Idle), AbortDone(Current(s)))
    case _ => None
  }

  predicate InStart(c: ControlPc) {
    c == StartJoin || Starting(c)
  }

  predicate Starting(c: ControlPc) {
    c == StartReadRunning || c == StartReadAbort || c == StartLoad || c == StartSetRunning || c == StartSpawn
  }

  function LoopStep(s: State, i: nat): Option<Step>
    requires i < |s.threads|
  {
    match s.threads[i]
    case Head => if s.toStop then Seen(At(s, i, Reset), StopSeen(i)) else Seen(At(s, i, Begun), TickBegun(i))
    case Begun => if s.mutex == Free then Silent(At(s, i, Locked).(mutex := HeldByLoop)) else None
    case Locked => Silent(At(s, i, Head).(mutex := Free))
    case Reset => Seen(At(s, i, Finishing).(toStop := false), FlagReset(i))
    case Finishing => Silent(At(s, i, Exited).(running := false))
    case Exited => None
  }

  /** How many abort actions each run has: every start brings its own list. */
  type Actions = nat -> nat

  /** The step an action takes, None when it cannot happen now. */
  function Do(n: Actions, s: State, a: Act): Option<Step> {
    if s.crashed then None
    else
      match a
      case Start => if s.control == Idle then Silent(s.(control := StartJoin)) else None
      case Abort => if s.control == Idle then Silent(s.(control := AbortRead)) else None
      case Control(acceptable) => if InStart(s.control) then StartStep(s, acceptable) else AbortStep(n(Current(s)), s)
      case Loop(i) => if i < |s.threads| then LoopStep(s, i) else None
      case PassEnd(i) => if i < |s.threads| && s.threads[i] == Begun then Silent(s.(toStop := true)) else None
      case Issue(i) => if i < |s.threads| && s.threads[i] == Locked then Seen(s, Command(i)) else None
      // The loop thread aborts its own sequence: it raises the flag and joins itself, which throws.
      case AutoAbort(i) =>
        if i < |s.threads| && s.threads[i] == Locked then Silent(s.(toStop := true, crashed := true)) else None
  }

  /** A state together with everything seen so far. */
  datatype World = World(state: State, trace: seq<Event>)

  function Advance(n: Actions, w: World, a: Act): Option<World> {
    match Do(n, w.state, a)
    case None => None
    case Some(step) => Some(World(step.next, if step.event.Some? then w.trace + [step.event.value] else w.trace))
  }

  /** The world after a run of actions. */
  function Exec(n: Actions, acts: seq<Act>): Option<World> {
    if acts == [] then Some(World(INITIAL, []))
    else
      match Exec(n, acts[..|acts| - 1])
      case None => None
      case Some(w) => Advance(n, w, acts[|acts| - 1])
  }

  ghost predicate Reachable(n: Actions, w: World) {
    exists acts :: Exec(n, acts) == Some(w)
  }

  lemma ReachableStep(n: Actions, w: World, a: Act)
    requires Reachable(n, w) && Advance(n, w, a).Some?
    ensures Reachable(n, Advance(n, w, a).value)
  {
    var acts :| Exec(n, acts) == Some(w);
    assert (acts + [a])[..|acts|] == acts;
    assert Exec(n, acts + [a]) == Advance(n, w, a);
  }

  // ---------------------------------------------------------------- who may be where

  predicate InTicks(pc: LoopPc) {
    pc == Head || pc == Begun || pc == Locked
  }

  predicate Aborting(c: ControlPc) {
    c == AbortLock || c.AbortIssue? || c == AbortClear
  }

  predicate Joined(c: ControlPc) {
    c == AbortReadRunning || c == AbortReadFlag || c == AbortSetFlag || Aborting(c)
  }

  function LastThread(s: State): LoopPc {
    if s.threads == [] then Exited else s.threads[|s.threads| - 1]
  }

  /** Only the last loop thread can live, and while it lives the handle refers to it. */
  ghost predicate OneLoop(s: State) {
    && (forall i | 0 <= i < |s.threads| - 1 :: s.threads[i] == Exited)
    && (match s.handle case None => LastThread(s) == Exited case Some(i) => i + 1 == |s.threads|)
  }

  /** Flags and mutex are determined by where the threads are. */
  ghost predicate Placed(s: State) {
    && (s.running <==> s.control == StartSpawn || LastThread(s) != Exited)
    && (s.abortRunning <==> Aborting(s.control))
    && s.mutex == (if s.control.AbortIssue? then HeldByControl
                   else if LastThread(s) == Locked then HeldByLoop else Free)
    && (Starting(s.control) || Joined(s.control) ==> s.handle == None)
    && (s.control == AbortRaise || s.control == AbortJoin ==> s.handle.Some?)
    && (Joined(s.control) ==> s.threads != [])
    && (s.crashed ==> LastThread(s) == Locked)
  }

  ghost predicate Settled(s: State) {
    OneLoop(s) && Placed(s)
  }

  /** No more abort actions are issued than the current run has. */
  predicate WithinActions(actions: nat, s: State) {
    s.control.AbortIssue? ==> s.control.next <= actions
  }

  ghost predicate Inv(n: Actions, s: State) {
    Settled(s) && WithinActions(n(Current(s)), s)
  }

  lemma InvStep(n: Actions, s: State, a: Act)
    requires Inv(n, s) && Do(n, s, a).Some?
    ensures Inv(n, Do(n, s, a).value.next)
  {
    if a.Control? && InStart(s.control) {
      StartKeepsInv(s, a.acceptable);
    } else if a.Control? {
      AbortKeepsInv(n(Current(s)), s);
    } else if a.Loop? {
      LoopKeepsInv(s, a.i);
    } else {
      OthersKeepInv(n, s, a);
    }
  }

  lemma OthersKeepInv(n: Actions, s: State, a: Act)
    requires Settled(s) && !a.Control? && !a.Loop? && Do(n, s, a).Some?
    ensures var r := Do(n, s, a).value.next;
            Settled(r) && r.threads == s.threads && (r.control.AbortIssue? ==> r.control == s.control)
  {
    var r := Do(n, s, a).value.next;
    assert r.threads == s.threads && r.handle == s.handle && OneLoop(r);
    if a.Start? || a.Abort? {
      CallKeepsInv(s, r.control);
    } else if a.AutoAbort? {
      assert a.i == |s.threads| - 1;
    }
  }

  lemma CallKeepsInv(s: State, called: ControlPc)
    requires Settled(s) && s.control == Idle && (called == StartJoin || called == AbortRead)
    ensures Settled(s.(control := called))
  {
  }

  lemma SpawnKeepsInv(s: State)
    requires Settled(s) && s.control == StartSpawn
    ensures Settled(s.(threads := s.threads + [Head], handle := Some(|s.threads|), control := Idle))
  {
    var r := s.(threads := s.threads + [Head], handle := Some(|s.threads|), control := Idle);
    assert LastThread(s) == Exited && LastThread(r) == Head;
  }

  lemma StartKeepsInv(s: State, acceptable: bool)
    requires Settled(s) && !s.crashed && InStart(s.control) && StartStep(s, acceptable).Some?
    ensures var r := StartStep(s, acceptable).value.next; Settled(r) && !r.control.AbortIssue?
  {
    if s.control == StartSpawn {
      SpawnKeepsInv(s);
    } else {
      var r := StartStep(s, acceptable).value.next;
      assert r.threads == s.threads;
      assert OneLoop(r);
    }
  }

  lemma AbortKeepsInv(actions: nat, s: State)
    requires Settled(s) && WithinActions(actions, s) && !s.crashed && AbortStep(actions, s).Some?
    ensures var r := AbortStep(actions, s).value.next;
            Settled(r) && WithinActions(actions, r) && r.threads == s.threads
  {
    var r := AbortStep(actions, s).value.next;
    assert r.threads == s.threads && LastThread(r) == LastThread(s);
    assert OneLoop(r);
  }

  lemma LoopKeepsInv(s: State, i: nat)
    requires Settled(s) && !s.crashed && i < |s.threads| && LoopStep(s, i).Some?
    ensures var r := LoopStep(s, i).value.next;
            Settled(r) && |r.threads| == |s.threads| && r.control == s.control
  {
    assert i == |s.threads| - 1;
    var r := LoopStep(s, i).value.next;
    assert |r.threads| == |s.threads| && r.handle == s.handle && r.control == s.control;
    assert OneLoop(r);
  }
}
