/** What every interleaving of starts, stops and aborts guarantees, and the one thing it does not. */
module SequenceSafety {
  import opened Common
  import opened SequenceThreads

  // ------------------------------------------------------------------ order of events

  predicate FromLoop(e: Event) {
    e.TickBegun? || e.Command? || e.StopSeen? || e.FlagReset?
  }

  /** f must not come after e:
      sequence activity after an abort command, after the loop saw the stop flag, or in a run started with
      the flag up; a new tick after an abort raised the flag; activity of a run after a later one started. */
  predicate Clash(e: Event, f: Event) {
    || (e.AbortCommand? && (f.TickBegun? || f.Command?) && f.run <= e.run)
    || (e.StopSeen? && (f.TickBegun? || f.Command?) && f.run <= e.run)
    || (e.FlagRaised? && f.TickBegun? && f.run <= e.run)
    || (e.Started? && e.flagUp && (f.TickBegun? || f.Command?) && f.run == e.run)
    || (e.Started? && FromLoop(f) && f.run < e.run)
  }

  ghost predicate Ordered(trace: seq<Event>) {
    forall i, j | 0 <= i < j < |trace| :: !Clash(trace[i], trace[j])
  }

  /** What the state still shows of an event that happened. */
  predicate Consistent(s: State, e: Event) {
    && e.run < |s.threads|
    && var pc := s.threads[e.run];
       match e
       case Started(_, flagUp) => flagUp && InTicks(pc) ==> pc == Head && s.toStop
       case TickBegun(_) => true
       case Command(_) => true
       case StopSeen(_) => !InTicks(pc)
       case FlagRaised(_) => InTicks(pc) ==> s.toStop
       case FlagReset(_) => pc == Finishing || pc == Exited
       case AbortCommand(_, _) => pc == Exited
       case AbortDone(_) => pc == Exited
  }

  ghost predicate TraceInv(w: World) {
    Ordered(w.trace) && forall e | e in w.trace :: Consistent(w.state, e)
  }

  lemma ControlMovesNoLoop(n: Actions, s: State, acceptable: bool)
    requires Do(n, s, Control(acceptable)).Some?
    ensures var r := Do(n, s, Control(acceptable)).value.next;
            (s.toStop ==> r.toStop) && (r.threads == s.threads || r.threads == s.threads + [Head])
  {
  }

  lemma LoopMovesItself(s: State, i: nat)
    requires OneLoop(s) && i < |s.threads| && LoopStep(s, i).Some?
    ensures var r := LoopStep(s, i).value.next;
            && i == |s.threads| - 1 && r.threads == s.threads[i := r.threads[i]]
            && (s.threads[i] != Reset ==> r.toStop == s.toStop)
            && (InTicks(r.threads[i]) ==> InTicks(s.threads[i]) && (r.threads[i] == Begun ==> !s.toStop))
  {
  }

  lemma ConsistentStays(n: Actions, s: State, a: Act, e: Event)
    requires Inv(n, s) && Do(n, s, a).Some? && Consistent(s, e)
    ensures Consistent(Do(n, s, a).value.next, e)
  {
    var r := Do(n, s, a).value.next;
    if a.Control? {
      ControlMovesNoLoop(n, s, a.acceptable);
      assert r.threads[e.run] == s.threads[e.run];
    } else if a.Loop? {
      LoopMovesItself(s, a.i);
      if e.run != a.i {
        assert r.threads[e.run] == s.threads[e.run] == Exited;
      }
    } else {
      assert r.threads == s.threads;
    }
  }

  lemma NewEventFits(n: Actions, s: State, a: Act, e: Event)
    requires Inv(n, s) && Do(n, s, a).Some? && Do(n, s, a).value.event.Some? && Consistent(s, e)
    ensures !Clash(e, Do(n, s, a).value.event.value)
  {
    var f := Do(n, s, a).value.event.value;
    if f.TickBegun? || f.Command? || FromLoop(f) {
      assert f.run == |s.threads| - 1;
    }
  }

  lemma NewEventConsistent(n: Actions, s: State, a: Act)
    requires Inv(n, s) && Do(n, s, a).Some? && Do(n, s, a).value.event.Some?
    ensures Consistent(Do(n, s, a).value.next, Do(n, s, a).value.event.value)
  {
    if a.Loop? || a.Issue? {
      assert a.i == |s.threads| - 1;
    } else if InStart(s.control) {
      assert Do(n, s, a).value.event == Some(Started(|s.threads|, s.toStop));
    } else {
      assert s.threads != [] && Do(n, s, a).value.next.threads == s.threads;
    }
  }

  lemma TraceInvStep(n: Actions, w: World, a: Act)
    requires Inv(n, w.state) && TraceInv(w) && Advance(n, w, a).Some?
    ensures TraceInv(Advance(n, w, a).value)
  {
    var s, r := w.state, Advance(n, w, a).value;
    forall e | e in w.trace ensures Consistent(r.state, e) {
      ConsistentStays(n, s, a, e);
    }
    if r.trace != w.trace {
      NewEventConsistent(n, s, a);
      forall e | e in w.trace ensures !Clash(e, r.trace[|w.trace|]) {
        NewEventFits(n, s, a, e);
      }
    }
  }

  // --------------------------------------------------------------- abort commands, once each

  /** The abort actions issued in a run, by index and in order. */
  function AbortIndices(trace: seq<Event>, run: nat): seq<nat> {
    if trace == [] then []
    else
      var e := trace[|trace| - 1];
      AbortIndices(trace[..|trace| - 1], run) + if e.AbortCommand? && e.run == run then [e.index] else []
  }

  function FirstNats(k: nat): seq<nat> {
    if k == 0 then [] else FirstNats(k - 1) + [k - 1]
  }

  /** How many abort actions of a run have been issued, read off the state. */
  function Issued(n: Actions, w: World, run: nat): nat {
    if run == Current(w.state) && w.state.control.AbortIssue? then w.state.control.next
    else if (run == Current(w.state) && w.state.control == AbortClear) || AbortDone(run) in w.trace then n(run)
    else 0
  }

  ghost predicate IssuedOnce(n: Actions, w: World) {
    forall run :: AbortIndices(w.trace, run) == FirstNats(Issued(n, w, run))
  }

  /** Before its abort commands start, nothing of the kind has happened in the current run. */
  predicate BeforeIssue(c: ControlPc) {
    c == AbortRaise || c == AbortJoin || c == AbortReadRunning || c == AbortReadFlag || c == AbortSetFlag
        || c == AbortLock
  }

  predicate Busy(c: ControlPc) {
    BeforeIssue(c) || c.AbortIssue? || c == AbortClear
  }

  ghost predicate NotAbortedYet(w: World) {
    Busy(w.state.control) ==> AbortDone(Current(w.state)) !in w.trace
  }

  lemma StartIsNotBusy(s: State, acceptable: bool)
    requires InStart(s.control) && StartStep(s, acceptable).Some?
    ensures !Busy(StartStep(s, acceptable).value.next.control)
  {
  }

  /** An abort gets under way only from a running sequence, and reports only when it is over. */
  lemma BusyFrom(actions: nat, s: State)
    requires AbortStep(actions, s).Some? && Busy(AbortStep(actions, s).value.next.control)
    ensures Busy(s.control) || (s.control == AbortRead && s.running)
    ensures AbortStep(actions, s).value.event != Some(AbortDone(Current(s)))
    ensures AbortStep(actions, s).value.next.threads == s.threads
  {
  }

  /** A run that lives, or whose abort is under way, has not been aborted before. */
  lemma NotAbortedYetStep(n: Actions, w: World, a: Act)
    requires Inv(n, w.state) && TraceInv(w) && NotAbortedYet(w) && Advance(n, w, a).Some?
    ensures NotAbortedYet(Advance(n, w, a).value)
  {
    if a.Control? && InStart(w.state.control) {
      StartIsNotBusy(w.state, a.acceptable);
    } else if a.Control? {
      AbortKeepsNotAborted(n, w, a.acceptable);
    } else {
      OthersKeepNotAborted(n, w, a);
    }
  }

  lemma AbortKeepsNotAborted(n: Actions, w: World, acceptable: bool)
    requires Inv(n, w.state) && TraceInv(w) && NotAbortedYet(w)
    requires !InStart(w.state.control) && Advance(n, w, Control(acceptable)).Some?
    ensures NotAbortedYet(Advance(n, w, Control(acceptable)).value)
  {
    var r := AbortStep(n(Current(w.state)), w.state).value.next;
    if Busy(r.control) {
      BusyFrom(n(Current(w.state)), w.state);
      LiveIsNotAborted(w);
      assert Current(r) == Current(w.state);
      assert AbortDone(Current(w.state)) !in w.trace;
    }
  }

  lemma LoopAbortsNothing(s: State, i: nat)
    requires i < |s.threads| && LoopStep(s, i).Some?
    ensures var step := LoopStep(s, i).value;
            && step.next.control == s.control && |step.next.threads| == |s.threads|
            && (step.event.None? || FromLoop(step.event.value))
  {
  }

  lemma OthersKeepNotAborted(n: Actions, w: World, a: Act)
    requires NotAbortedYet(w) && !a.Control? && Advance(n, w, a).Some?
    ensures NotAbortedYet(Advance(n, w, a).value)
  {
    var s, step := w.state, Do(n, w.state, a).value;
    if a.Loop? {
      LoopAbortsNothing(s, a.i);
    }
    assert Current(step.next) == Current(s);
    assert Busy(step.next.control) ==> Busy(s.control);
    assert step.event.None? || FromLoop(step.event.value);
  }

  lemma LiveIsNotAborted(w: World)
    requires TraceInv(w)
    ensures LastThread(w.state) != Exited ==> AbortDone(Current(w.state)) !in w.trace
  {
    assert forall e | e in w.trace :: Consistent(w.state, e);
  }

  lemma NoDoneBeyond(w: World, run: nat)
    requires TraceInv(w) && run >= |w.state.threads|
    ensures AbortDone(run) !in w.trace
  {
    assert forall e | e in w.trace :: Consistent(w.state, e);
  }

  lemma IssuedOnceStep(n: Actions, w: World, a: Act)
    requires Inv(n, w.state) && TraceInv(w) && NotAbortedYet(w) && IssuedOnce(n, w) && Advance(n, w, a).Some?
    ensures IssuedOnce(n, Advance(n, w, a).value)
  {
    var s, r := w.state, Advance(n, w, a).value;
    NoDoneBeyond(w, |s.threads|);
    forall run ensures AbortIndices(r.trace, run) == FirstNats(Issued(n, r, run)) {
      assert AbortIndices(w.trace, run) == FirstNats(Issued(n, w, run));
      if r.trace != w.trace {
        assert r.trace[..|w.trace|] == w.trace;
      }
      IssuedMoves(n, w, a, run);
    }
  }

  /** Only an abort command changes the count of its run, by one. */
  lemma IssuedMoves(n: Actions, w: World, a: Act, run: nat)
    requires Inv(n, w.state) && NotAbortedYet(w) && Advance(n, w, a).Some?
    requires AbortDone(|w.state.threads|) !in w.trace
    ensures var r, e := Advance(n, w, a).value, Do(n, w.state, a).value.event;
            if e.Some? && e.value.AbortCommand? && e.value.run == run
            then Issued(n, r, run) == Issued(n, w, run) + 1 && e.value.index == Issued(n, w, run)
            else Issued(n, r, run) == Issued(n, w, run)
  {
    if !a.Control? {
      OthersIssueNothing(n, w, a, run);
    } else if InStart(w.state.control) {
      StartIssuesNothing(n, w, a.acceptable, run);
    } else {
      AbortIssues(n, w, a.acceptable, run);
    }
  }

  lemma OthersIssueNothing(n: Actions, w: World, a: Act, run: nat)
    requires Advance(n, w, a).Some? && !a.Control?
    ensures Issued(n, Advance(n, w, a).value, run) == Issued(n, w, run)
    ensures var e := Do(n, w.state, a).value.event; !(e.Some? && e.value.AbortCommand?)
  {
    var s, r := w.state, Advance(n, w, a).value;
    assert r.state.control == s.control || (s.control == Idle
        && (r.state.control == StartJoin || r.state.control == AbortRead));
    assert |r.state.threads| == |s.threads|;
    assert AbortDone(run) in r.trace <==> AbortDone(run) in w.trace;
  }

  lemma StartIssuesNothing(n: Actions, w: World, acceptable: bool, run: nat)
    requires InStart(w.state.control) && Advance(n, w, Control(acceptable)).Some?
    ensures Issued(n, Advance(n, w, Control(acceptable)).value, run) == Issued(n, w, run)
    ensures var e := Do(n, w.state, Control(acceptable)).value.event; !(e.Some? && e.value.AbortCommand?)
  {
    var step := StartStep(w.state, acceptable).value;
    assert !step.next.control.AbortIssue? && step.next.control != AbortClear;
    assert step.event.None? || step.event.value.Started?;
    assert AbortDone(run) in Advance(n, w, Control(acceptable)).value.trace <==> AbortDone(run) in w.trace;
  }

  lemma AbortIssues(n: Actions, w: World, acceptable: bool, run: nat)
    requires Inv(n, w.state) && NotAbortedYet(w)
    requires !InStart(w.state.control) && Advance(n, w, Control(acceptable)).Some?
    ensures var r, e := Advance(n, w, Control(acceptable)).value, Do(n, w.state, Control(acceptable)).value.event;
            if e.Some? && e.value.AbortCommand? && e.value.run == run
            then Issued(n, r, run) == Issued(n, w, run) + 1 && e.value.index == Issued(n, w, run)
            else Issued(n, r, run) == Issued(n, w, run)
  {
    var step, r := AbortStep(n(Current(w.state)), w.state).value, Advance(n, w, Control(acceptable)).value;
    assert step.next.threads == w.state.threads;
    assert AbortDone(run) in r.trace <==> AbortDone(run) in w.trace || step.event == Some(AbortDone(run));
    if w.state.control.AbortIssue? {
      var k := w.state.control.next;
      assert step.event == if k < n(Current(w.state)) then Some(AbortCommand(Current(w.state), k)) else None;
    } else if w.state.control == AbortClear {
      assert step.event == Some(AbortDone(Current(w.state)));
    } else {
      assert step.event.None? || step.event.value.FlagRaised?;
    }
  }

  // ------------------------------------------------------------------------- the stop flag

  /** The last event that set or reset the stop flag from outside the running loop. */
  function LastFlag(trace: seq<Event>): Option<Event> {
    if trace == [] then None
    else
      var e := trace[|trace| - 1];
      if e.FlagRaised? || e.FlagReset? then Some(e) else LastFlag(trace[..|trace| - 1])
  }

  predicate PastLoop(pc: LoopPc) {
    pc == Finishing || pc == Exited
  }

  /** A loop that is past its end has reset the flag. */
  ghost predicate ResetSeen(w: World) {
    forall i | 0 <= i < |w.state.threads| && PastLoop(w.state.threads[i]) :: FlagReset(i) in w.trace
  }

  /** The flag is up after an abort raised it last, and otherwise only while a loop has yet to reset it. */
  predicate FlagUp(s: State, last: Option<Event>) {
    match last
    case None => s.toStop ==> !PastLoop(LastThread(s))
    case Some(e) => (e.FlagRaised? ==> s.toStop) && (e.FlagReset? && s.toStop ==> !PastLoop(LastThread(s)))
  }

  ghost predicate FlagInv(w: World) {
    ResetSeen(w) && FlagUp(w.state, LastFlag(w.trace))
  }

  lemma ResetSeenStep(n: Actions, w: World, a: Act)
    requires Inv(n, w.state) && ResetSeen(w) && Advance(n, w, a).Some?
    ensures ResetSeen(Advance(n, w, a).value)
  {
    var s, r := w.state, Advance(n, w, a).value;
    if a.Control? {
      ControlMovesNoLoop(n, s, a.acceptable);
    } else if a.Loop? {
      LoopMovesItself(s, a.i);
    }
  }

  predicate FlagEvent(e: Option<Event>) {
    e.Some? && (e.value.FlagRaised? || e.value.FlagReset?)
  }

  lemma StartLeavesFlag(s: State, acceptable: bool)
    requires StartStep(s, acceptable).Some?
    ensures var step := StartStep(s, acceptable).value;
            && step.next.toStop == s.toStop && !FlagEvent(step.event)
            && (step.next.threads == s.threads || step.next.threads == s.threads + [Head])
  {
  }

  lemma AbortRaisesFlag(actions: nat, s: State)
    requires AbortStep(actions, s).Some?
    ensures var step := AbortStep(actions, s).value;
            && step.next.threads == s.threads
            && if s.control == AbortRaise then step.next.toStop && step.event == Some(FlagRaised(Current(s)))
               else step.next.toStop == s.toStop && !FlagEvent(step.event)
  {
  }

  lemma LoopResetsFlag(s: State, i: nat)
    requires i < |s.threads| && LoopStep(s, i).Some?
    ensures var step := LoopStep(s, i).value;
            if s.threads[i] == Reset then !step.next.toStop && step.event == Some(FlagReset(i))
            else
              && step.next.toStop == s.toStop && !FlagEvent(step.event)
              && (PastLoop(step.next.threads[i]) ==> PastLoop(s.threads[i]))
  {
  }

  function NewFlag(step: Step, last: Option<Event>): Option<Event> {
    if FlagEvent(step.event) then step.event else last
  }

  lemma FlagUpControl(n: Actions, s: State, last: Option<Event>, acceptable: bool)
    requires FlagUp(s, last) && Do(n, s, Control(acceptable)).Some?
    ensures var step := Do(n, s, Control(acceptable)).value;
            FlagUp(step.next, NewFlag(step, last))
  {
    if InStart(s.control) {
      StartLeavesFlag(s, acceptable);
      var r := StartStep(s, acceptable).value.next;
      assert LastThread(r) == LastThread(s) || LastThread(r) == Head;
    } else {
      AbortRaisesFlag(n(Current(s)), s);
      assert LastThread(AbortStep(n(Current(s)), s).value.next) == LastThread(s);
    }
  }

  lemma FlagUpLoop(n: Actions, s: State, last: Option<Event>, i: nat)
    requires OneLoop(s) && FlagUp(s, last) && Do(n, s, Loop(i)).Some?
    ensures var step := Do(n, s, Loop(i)).value;
            FlagUp(step.next, NewFlag(step, last))
  {
    assert i == |s.threads| - 1;
    LoopResetsFlag(s, i);
    var step := LoopStep(s, i).value;
    assert |step.next.threads| == |s.threads|;
    if s.threads[i] == Reset {
      assert NewFlag(step, last) == Some(FlagReset(i));
    } else {
      assert PastLoop(LastThread(step.next)) ==> PastLoop(LastThread(s));
    }
  }

  lemma FlagUpStep(n: Actions, s: State, last: Option<Event>, a: Act)
    requires Inv(n, s) && FlagUp(s, last) && Do(n, s, a).Some?
    ensures var step := Do(n, s, a).value;
            FlagUp(step.next, NewFlag(step, last))
  {
    if a.Control? {
      FlagUpControl(n, s, last, a.acceptable);
    } else if a.Loop? {
      FlagUpLoop(n, s, last, a.i);
    } else {
      FlagUpOthers(n, s, last, a);
    }
  }

  lemma FlagUpOthers(n: Actions, s: State, last: Option<Event>, a: Act)
    requires Settled(s) && FlagUp(s, last) && !a.Control? && !a.Loop? && Do(n, s, a).Some?
    ensures var step := Do(n, s, a).value;
            FlagUp(step.next, NewFlag(step, last))
  {
    OthersRaiseInTicks(n, s, a);
  }

  lemma OthersRaiseInTicks(n: Actions, s: State, a: Act)
    requires OneLoop(s) && !a.Control? && !a.Loop? && Do(n, s, a).Some?
    ensures var step := Do(n, s, a).value;
            && step.next.threads == s.threads && !FlagEvent(step.event)
            && (step.next.toStop == s.toStop || (step.next.toStop && InTicks(LastThread(s))))
  {
    if a.PassEnd? || a.AutoAbort? {
      assert a.i == |s.threads| - 1;
    }
  }

  lemma FlagInvStep(n: Actions, w: World, a: Act)
    requires Inv(n, w.state) && FlagInv(w) && Advance(n, w, a).Some?
    ensures FlagInv(Advance(n, w, a).value)
  {
    var r := Advance(n, w, a).value;
    ResetSeenStep(n, w, a);
    FlagUpStep(n, w.state, LastFlag(w.trace), a);
    if r.trace != w.trace {
      assert r.trace[..|w.trace|] == w.trace;
    }
  }

  /** An abort raised the flag after the run it was meant for had already reset it. */
  ghost predicate RaisedLate(trace: seq<Event>) {
    exists r: nat :: LastFlag(trace) == Some(FlagRaised(r)) && FlagReset(r) in trace
  }

  // ------------------------------------------------------------------------- every reachable world

  ghost predicate Safe(n: Actions, w: World) {
    Inv(n, w.state) && TraceInv(w) && NotAbortedYet(w) && IssuedOnce(n, w) && FlagInv(w)
  }

  lemma {:induction false} ReachableIsSafe(n: Actions, acts: seq<Act>)
    requires Exec(n, acts).Some?
    ensures Safe(n, Exec(n, acts).value)
  {
    if acts != [] {
      var a, w := acts[|acts| - 1], Exec(n, acts[..|acts| - 1]).value;
      ReachableIsSafe(n, acts[..|acts| - 1]);
      InvStep(n, w.state, a);
      TraceInvStep(n, w, a);
      NotAbortedYetStep(n, w, a);
      IssuedOnceStep(n, w, a);
      FlagInvStep(n, w, a);
    }
  }

  lemma ReachableWorldIsSafe(n: Actions, w: World)
    requires Reachable(n, w)
    ensures Safe(n, w)
  {
    var acts :| Exec(n, acts) == Some(w);
    ReachableIsSafe(n, acts);
  }

  lemma ReachableInv(n: Actions, w: World)
    requires Reachable(n, w)
    ensures Inv(n, w.state)
  {
    ReachableWorldIsSafe(n, w);
  }

  /** At most one loop thread is ever live. */
  lemma AtMostOneLoop(n: Actions, w: World, i: nat, j: nat)
    requires Reachable(n, w) && i < |w.state.threads| && j < |w.state.threads|
    requires w.state.threads[i] != Exited && w.state.threads[j] != Exited
    ensures i == j
  {
    ReachableInv(n, w);
  }

  /** No tick begins and no command follows once the stop flag is seen raised; after an abort raised the flag no
      tick begins; every command of a run precedes every abort command of that run and of the later ones; and the
      runs do not overlap. */
  lemma EventsAreOrdered(n: Actions, w: World, i: nat, j: nat)
    requires Reachable(n, w) && i < j < |w.trace|
    ensures !Clash(w.trace[i], w.trace[j])
  {
    ReachableWorldIsSafe(n, w);
  }

  /** The abort actions of a run are issued in order, none twice, and all of them once the abort is done. */
  lemma AbortActionsOnce(n: Actions, w: World, run: nat)
    requires Reachable(n, w)
    ensures exists k: nat :: k <= n(run) && AbortIndices(w.trace, run) == FirstNats(k)
    ensures AbortDone(run) in w.trace ==> AbortIndices(w.trace, run) == FirstNats(n(run))
  {
    ReachableWorldIsSafe(n, w);
    assert AbortIndices(w.trace, run) == FirstNats(Issued(n, w, run));
  }

  /** With no loop thread live the stop flag is up exactly when an abort raised it too late. */
  lemma FlagBetweenRuns(n: Actions, w: World)
    requires Reachable(n, w) && LastThread(w.state) == Exited
    ensures w.state.toStop <==> RaisedLate(w.trace)
  {
    ReachableWorldIsSafe(n, w);
    FlagWhenExited(w);
  }

  lemma FlagWhenExited(w: World)
    requires OneLoop(w.state) && TraceInv(w) && FlagInv(w) && LastThread(w.state) == Exited
    ensures w.state.toStop <==> RaisedLate(w.trace)
  {
    var s, last := w.state, LastFlag(w.trace);
    LastFlagHappened(w.trace);
    if last.Some? && last.value.FlagRaised? {
      assert Consistent(s, last.value);
      assert s.threads[last.value.run] == Exited;
      assert last == Some(FlagRaised(last.value.run)) && FlagReset(last.value.run) in w.trace;
    }
  }

  lemma {:induction false} LastFlagHappened(trace: seq<Event>)
    ensures LastFlag(trace).Some? ==>
              LastFlag(trace).value in trace && (LastFlag(trace).value.FlagRaised? || LastFlag(trace).value.FlagReset?)
  {
    if trace != [] {
      LastFlagHappened(trace[..|trace| - 1]);
    }
  }

  /** An abort that has raised the flag and is not done. */
  predicate Committed(c: ControlPc) {
    c == AbortJoin || Joined(c)
  }

  /** Every abort that raised the flag is done or on its way. */
  ghost predicate Carried(w: World) {
    forall r: nat :: FlagRaised(r) in w.trace ==>
      AbortDone(r) in w.trace || (r == Current(w.state) && Committed(w.state.control))
  }

  lemma CommittedGoesOn(n: Actions, s: State)
    requires Inv(n, s) && !s.crashed && AbortStep(n(Current(s)), s).Some?
    ensures var step := AbortStep(n(Current(s)), s).value;
            && step.next.threads == s.threads
            && (Committed(s.control) ==> Committed(step.next.control) || step.event == Some(AbortDone(Current(s))))
            && (step.event.Some? && step.event.value.FlagRaised? ==>
                  step.event.value.run == Current(s) && Committed(step.next.control))
  {
  }

  lemma StartCommitsNothing(s: State, acceptable: bool)
    requires InStart(s.control) && StartStep(s, acceptable).Some?
    ensures !Committed(s.control)
    ensures var e := StartStep(s, acceptable).value.event; e.None? || e.value.Started?
  {
  }

  lemma OthersCommitNothing(n: Actions, s: State, a: Act)
    requires !a.Control? && Do(n, s, a).Some?
    ensures var step := Do(n, s, a).value;
            && Current(step.next) == Current(s) && (Committed(s.control) ==> step.next.control == s.control)
            && (step.event.None? || FromLoop(step.event.value))
  {
    if a.Loop? {
      LoopAbortsNothing(s, a.i);
    }
  }

  lemma CarriedStep(n: Actions, w: World, a: Act)
    requires Inv(n, w.state) && Carried(w) && Advance(n, w, a).Some?
    ensures Carried(Advance(n, w, a).value)
  {
    if a.Control? && InStart(w.state.control) {
      StartCommitsNothing(w.state, a.acceptable);
    } else if a.Control? {
      CommittedGoesOn(n, w.state);
    } else {
      OthersCommitNothing(n, w.state, a);
    }
  }

  lemma {:induction false} EveryAbortIsCarried(n: Actions, acts: seq<Act>)
    requires Exec(n, acts).Some?
    ensures Carried(Exec(n, acts).value)
  {
    if acts != [] {
      var init := acts[..|acts| - 1];
      EveryAbortIsCarried(n, init);
      ReachableIsSafe(n, init);
      CarriedStep(n, Exec(n, init).value, acts[|acts| - 1]);
    }
  }

  /** A started abort is not dropped: when the controlling thread is back from it, every abort action of the run whose
      flag it raised has been issued, in order and each once. */
  lemma AbortIsCarriedOut(n: Actions, w: World, r: nat)
    requires Reachable(n, w) && w.state.control == Idle
    ensures FlagRaised(r) in w.trace ==> AbortDone(r) in w.trace && AbortIndices(w.trace, r) == FirstNats(n(r))
  {
    var acts :| Exec(n, acts) == Some(w);
    EveryAbortIsCarried(n, acts);
    AbortActionsOnce(n, w, r);
  }

  /** On the way the abort never stops, whatever the loop does; and joining or starting a thread never ends the
      process. */
  lemma AbortGoesOn(n: Actions, w: World, acceptable: bool)
    requires Reachable(n, w)
    ensures var step := Do(n, w.state, Control(acceptable));
            step.Some? ==>
              && !step.value.next.crashed
              && (w.state.control == AbortRaise ==> step.value.next.control == AbortJoin)
              && (w.state.control == AbortJoin ==> step.value.next.control == AbortReadRunning)
              && (w.state.control == AbortReadRunning ==> step.value.next.control == AbortReadFlag)
              && (w.state.control == AbortReadFlag ==> step.value.next.control == AbortSetFlag)
  {
    ReachableInv(n, w);
    if Do(n, w.state, Control(acceptable)).Some? {
      CarriedOut(n, w.state, acceptable);
    }
  }

  lemma CarriedOut(n: Actions, s: State, acceptable: bool)
    requires Inv(n, s) && !s.crashed && Do(n, s, Control(acceptable)).Some?
    ensures var r := Do(n, s, Control(acceptable)).value.next;
            && !r.crashed
            && (s.control == AbortRaise ==> r.control == AbortJoin)
            && (s.control == AbortJoin ==> r.control == AbortReadRunning)
            && (s.control == AbortReadRunning ==> r.control == AbortReadFlag)
            && (s.control == AbortReadFlag ==> r.control == AbortSetFlag)
  {
  }

  /** The controlling thread waits only to join a live loop and to get the mutex a loop holds. */
  lemma ControlWaits(n: Actions, s: State)
    requires Inv(n, s) && !s.crashed && s.control != Idle && Do(n, s, Control(true)).None?
    ensures s.threads != [] && LastThread(s) != Exited
    ensures s.mutex != HeldByControl
  {
    if InStart(s.control) {
      assert s.control == StartJoin && s.handle.Some?;
    } else {
      assert s.control == AbortJoin || (s.control == AbortLock && s.mutex != Free);
    }
  }

  /** A live loop waits only for the controlling thread to release the mutex. */
  lemma LoopMoves(n: Actions, s: State)
    requires Inv(n, s) && !s.crashed && s.threads != [] && LastThread(s) != Exited && s.mutex != HeldByControl
    ensures Do(n, s, Loop(|s.threads| - 1)).Some?
  {
    assert LastThread(s) == Begun ==> s.mutex == Free;
  }

  /** Nobody waits forever for nothing: inside a call either the controlling thread or the live loop thread can
      make its next step. */
  lemma NoDeadlock(n: Actions, w: World)
    requires Reachable(n, w) && !w.state.crashed && w.state.control != Idle
    ensures Do(n, w.state, Control(true)).Some? || (w.state.threads != []
        && Do(n, w.state, Loop(|w.state.threads| - 1)).Some?)
  {
    ReachableInv(n, w);
    if Do(n, w.state, Control(true)).None? {
      ControlWaits(n, w.state);
      LoopMoves(n, w.state);
    }
  }

  /** Nobody ever has to wait for the mutex: a loop about to take it and an abort about to take it find it free. */
  lemma MutexIsFree(n: Actions, w: World)
    requires Reachable(n, w)
    requires w.state.control == AbortLock || LastThread(w.state) == Begun
    ensures w.state.mutex == Free
  {
    ReachableInv(n, w);
  }

  /** A sequence that is rejected is not started: the call ends with nothing running. */
  lemma RejectedIsNotStarted(n: Actions, w: World)
    requires Reachable(n, w) && !w.state.crashed && w.state.control == StartLoad
    ensures Do(n, w.state, Control(false)) == Some(Step(w.state.(control := Idle), None))
    ensures !w.state.running && LastThread(w.state) == Exited
  {
    ReachableInv(n, w);
  }

  /** An accepted one is: in three steps of the controlling thread its run is announced and its loop thread lives. */
  lemma AcceptedIsStarted(n: Actions, w: World) returns (r: World)
    requires Reachable(n, w) && !w.state.crashed && w.state.control == StartLoad
    ensures Reachable(n, r) && r.trace == w.trace + [Started(|w.state.threads|, w.state.toStop)]
    ensures r.state.running && r.state.control == Idle && r.state.threads == w.state.threads + [Head]
  {
    var s := w.state;
    ReachableInv(n, w);
    var accepted, spawn := s.(control := StartSetRunning), s.(running := true, control := StartSpawn);
    var run := spawn.(threads := s.threads + [Head], handle := Some(|s.threads|), control := Idle);
    Quietly(n, s, Control(true), accepted, w.trace);
    Quietly(n, accepted, Control(true), spawn, w.trace);
    Visibly(n, spawn, Control(true), run, Started(|s.threads|, s.toStop), w.trace);
    r := World(run, w.trace + [Started(|s.threads|, s.toStop)]);
  }

  /** An automatic abort never gets to its abort actions: the process ends with none issued for that run. */
  lemma AutoAbortIssuesNothing(n: Actions, w: World)
    requires Reachable(n, w) && w.state.crashed
    ensures AbortIndices(w.trace, Current(w.state)) == [] && forall a :: Advance(n, w, a) == None
  {
    ReachableWorldIsSafe(n, w);
    assert AbortIndices(w.trace, Current(w.state)) == FirstNats(Issued(n, w, Current(w.state)));
    assert forall e | e in w.trace :: Consistent(w.state, e);
  }

  // ------------------------------------------------------------------------- the late abort

  /** A state in which no loop thread lives or waits to be joined. */
  function AtRest(running: bool, toStop: bool, threads: seq<LoopPc>, control: ControlPc): State {
    State(running, toStop, false, threads, None, Free, control, false)
  }

  /** Starting an accepted sequence from rest, with the flag as it happens to be. */
  lemma StartFromRest(n: Actions, toStop: bool, threads: seq<LoopPc>, trace: seq<Event>)
    requires Reachable(n, World(AtRest(false, toStop, threads, Idle), trace))
    ensures Reachable(n, World(State(true, toStop, false, threads + [Head], Some(|threads|), Free, Idle, false),
                               trace + [Started(|threads|, toStop)]))
  {
    StartUpToLoad(n, toStop, threads, trace);
    Quietly(n, AtRest(false, toStop, threads, StartLoad), Control(true),
            AtRest(false, toStop, threads, StartSetRunning), trace);
    Quietly(n, AtRest(false, toStop, threads, StartSetRunning), Control(true),
            AtRest(true, toStop, threads, StartSpawn), trace);
    Visibly(n, AtRest(true, toStop, threads, StartSpawn), Control(true),
            State(true, toStop, false, threads + [Head], Some(|threads|), Free, Idle, false),
            Started(|threads|, toStop), trace);
  }

  lemma StartUpToLoad(n: Actions, toStop: bool, threads: seq<LoopPc>, trace: seq<Event>)
    requires Reachable(n, World(AtRest(false, toStop, threads, Idle), trace))
    ensures Reachable(n, World(AtRest(false, toStop, threads, StartLoad), trace))
  {
    Quietly(n, AtRest(false, toStop, threads, Idle), Start, AtRest(false, toStop, threads, StartJoin), trace);
    Quietly(n, AtRest(false, toStop, threads, StartJoin), Control(true),
            AtRest(false, toStop, threads, StartReadRunning), trace);
    Quietly(n, AtRest(false, toStop, threads, StartReadRunning), Control(true),
            AtRest(false, toStop, threads, StartReadAbort), trace);
    Quietly(n, AtRest(false, toStop, threads, StartReadAbort), Control(true),
            AtRest(false, toStop, threads, StartLoad), trace);
  }

  /** A state with a single loop thread, at pc, that has not been joined yet. */
  function Single(pc: LoopPc, toStop: bool, running: bool, mutex: Holder, control: ControlPc): State {
    State(running, toStop, false, [pc], Some(0), mutex, control, false)
  }

  /** A state whose only loop thread is gone and joined. */
  function Gone(abortRunning: bool, mutex: Holder, control: ControlPc): State {
    State(false, true, abortRunning, [Exited], None, mutex, control, false)
  }

  lemma OnlyThread(pc: LoopPc, to: LoopPc)
    ensures [pc][0 := to] == [to]
  {
  }

  lemma Quietly(n: Actions, s: State, a: Act, r: State, trace: seq<Event>)
    requires Reachable(n, World(s, trace)) && Do(n, s, a) == Some(Step(r, None))
    ensures Reachable(n, World(r, trace))
  {
    ReachableStep(n, World(s, trace), a);
  }

  lemma Visibly(n: Actions, s: State, a: Act, r: State, e: Event, trace: seq<Event>)
    requires Reachable(n, World(s, trace)) && Do(n, s, a) == Some(Step(r, Some(e)))
    ensures Reachable(n, World(r, trace + [e]))
  {
    ReachableStep(n, World(s, trace), a);
  }

  /** A run that passes its end in its first tick reaches the reset of the flag ... */
  lemma FirstTickIsLast(n: Actions, trace: seq<Event>)
    requires Reachable(n, World(Single(Head, false, true, Free, Idle), trace))
    ensures Reachable(n, World(Single(Reset, true, true, Free, Idle), trace + [TickBegun(0)] + [StopSeen(0)]))
  {
    var t := trace + [TickBegun(0)];
    OnlyThread(Head, Begun);
    Visibly(n, Single(Head, false, true, Free, Idle), Loop(0), Single(Begun, false, true, Free, Idle),
            TickBegun(0), trace);
    Quietly(n, Single(Begun, false, true, Free, Idle), PassEnd(0), Single(Begun, true, true, Free, Idle), t);
    OnlyThread(Begun, Locked);
    Quietly(n, Single(Begun, true, true, Free, Idle), Loop(0), Single(Locked, true, true, HeldByLoop, Idle), t);
    OnlyThread(Locked, Head);
    Quietly(n, Single(Locked, true, true, HeldByLoop, Idle), Loop(0), Single(Head, true, true, Free, Idle), t);
    OnlyThread(Head, Reset);
    Visibly(n, Single(Head, true, true, Free, Idle), Loop(0), Single(Reset, true, true, Free, Idle), StopSeen(0), t);
  }

  /** ... an abort sees it running, but raises the flag just after that reset ... */
  lemma RaiseAfterReset(n: Actions, trace: seq<Event>)
    requires Reachable(n, World(Single(Reset, true, true, Free, Idle), trace))
    ensures Reachable(n, World(Single(Finishing, true, true, Free, AbortJoin),
                               trace + [FlagReset(0)] + [FlagRaised(0)]))
  {
    LateAbortSteps(n);
    Quietly(n, Single(Reset, true, true, Free, Idle), Abort, Single(Reset, true, true, Free, AbortRead), trace);
    Quietly(n, Single(Reset, true, true, Free, AbortRead), Control(true),
            Single(Reset, true, true, Free, AbortRaise), trace);
    Visibly(n, Single(Reset, true, true, Free, AbortRaise), Loop(0),
            Single(Finishing, false, true, Free, AbortRaise), FlagReset(0), trace);
    Visibly(n, Single(Finishing, false, true, Free, AbortRaise), Control(true),
            Single(Finishing, true, true, Free, AbortJoin), FlagRaised(0), trace + [FlagReset(0)]);
  }

  lemma LateAbortSteps(n: Actions)
    ensures var asked, found := Single(Reset, true, true, Free, AbortRead), Single(Reset, true, true, Free, AbortRaise);
            var reset := Single(Finishing, false, true, Free, AbortRaise);
            && Do(n, Single(Reset, true, true, Free, Idle), Abort) == Some(Step(asked, None))
            && Do(n, asked, Control(true)) == Some(Step(found, None))
            && Do(n, found, Loop(0)) == Some(Step(reset, Some(FlagReset(0))))
            && Do(n, reset, Control(true))
                 == Some(Step(Single(Finishing, true, true, Free, AbortJoin), Some(FlagRaised(0))))
  {
    OnlyThread(Reset, Finishing);
    assert !InStart(AbortRead) && !InStart(AbortRaise);
  }

  /** ... waits for the loop thread to end ... */
  lemma JoinFinished(n: Actions, trace: seq<Event>)
    requires Reachable(n, World(Single(Finishing, true, true, Free, AbortJoin), trace))
    ensures Reachable(n, World(Gone(false, Free, AbortReadRunning), trace))
  {
    OnlyThread(Finishing, Exited);
    Quietly(n, Single(Finishing, true, true, Free, AbortJoin), Loop(0),
            Single(Exited, true, false, Free, AbortJoin), trace);
    Quietly(n, Single(Exited, true, false, Free, AbortJoin), Control(true), Gone(false, Free, AbortReadRunning), trace);
  }

  lemma BeginAbort(n: Actions, trace: seq<Event>)
    requires Reachable(n, World(Gone(false, Free, AbortReadRunning), trace))
    ensures Reachable(n, World(Gone(true, Free, AbortLock), trace))
  {
    Quietly(n, Gone(false, Free, AbortReadRunning), Control(true), Gone(false, Free, AbortReadFlag), trace);
    Quietly(n, Gone(false, Free, AbortReadFlag), Control(true), Gone(false, Free, AbortSetFlag), trace);
    Quietly(n, Gone(false, Free, AbortSetFlag), Control(true), Gone(true, Free, AbortLock), trace);
  }

  /** ... and carries out its empty list of actions, leaving the flag up. */
  lemma FinishAbort(n: Actions, trace: seq<Event>)
    requires n(0) == 0 && Reachable(n, World(Gone(true, Free, AbortLock), trace))
    ensures Reachable(n, World(Gone(false, Free, Idle), trace + [AbortDone(0)]))
  {
    LockStep(n);
    NothingToIssueStep(n);
    ClearStep(n);
    Quietly(n, Gone(true, Free, AbortLock), Control(true), Gone(true, HeldByControl, AbortIssue(0)), trace);
    Quietly(n, Gone(true, HeldByControl, AbortIssue(0)), Control(true), Gone(true, Free, AbortClear), trace);
    Visibly(n, Gone(true, Free, AbortClear), Control(true), Gone(false, Free, Idle), AbortDone(0), trace);
  }

  lemma LockStep(n: Actions)
    ensures Do(n, Gone(true, Free, AbortLock), Control(true))
         == Some(Step(Gone(true, HeldByControl, AbortIssue(0)), None))
  {
    assert !InStart(AbortLock);
  }

  lemma NothingToIssueStep(n: Actions)
    requires n(0) == 0
    ensures Do(n, Gone(true, HeldByControl, AbortIssue(0)), Control(true))
         == Some(Step(Gone(true, Free, AbortClear), None))
  {
    assert !InStart(AbortIssue(0));
    assert Current(Gone(true, HeldByControl, AbortIssue(0))) == 0;
  }

  lemma ClearStep(n: Actions)
    ensures Do(n, Gone(true, Free, AbortClear), Control(true))
         == Some(Step(Gone(false, Free, Idle), Some(AbortDone(0))))
  {
    assert !InStart(AbortClear);
    assert Current(Gone(true, Free, AbortClear)) == 0;
  }

  /** The run started with the flag up goes straight to its exit. */
  lemma SwallowedRun(n: Actions, trace: seq<Event>)
    requires Reachable(n, World(State(true, true, false, [Exited, Head], Some(1), Free, Idle, false), trace))
    ensures Reachable(n, World(State(false, false, false, [Exited, Exited], Some(1), Free, Idle, false),
                               trace + [StopSeen(1)] + [FlagReset(1)]))
  {
    var a := State(true, true, false, [Exited, Reset], Some(1), Free, Idle, false);
    var b := State(true, false, false, [Exited, Finishing], Some(1), Free, Idle, false);
    assert [Exited, Head][1 := Reset] == [Exited, Reset];
    Visibly(n, State(true, true, false, [Exited, Head], Some(1), Free, Idle, false), Loop(1), a, StopSeen(1), trace);
    assert [Exited, Reset][1 := Finishing] == [Exited, Finishing];
    Visibly(n, a, Loop(1), b, FlagReset(1), trace + [StopSeen(1)]);
    assert [Exited, Finishing][1 := Exited] == [Exited, Exited];
    Quietly(n, b, Loop(1),
            State(false, false, false, [Exited, Exited], Some(1), Free, Idle, false),
            trace + [StopSeen(1)] + [FlagReset(1)]);
  }

  /** What is seen of a run that ends with its first tick and is aborted too late. */
  const ABORTED_LATE: seq<Event> :=
    [Started(0, false)] + [TickBegun(0)] + [StopSeen(0)] + [FlagReset(0)] + [FlagRaised(0)] + [AbortDone(0)]

  lemma FirstRunAndLateAbort(n: Actions)
    requires n(0) == 0
    ensures Reachable(n, World(Gone(false, Free, Idle), ABORTED_LATE))
  {
    assert Exec(n, []) == Some(World(INITIAL, []));
    StartFromRest(n, false, [], []);
    assert [] + [Head] == [Head] && [] + [Started(0, false)] == [Started(0, false)];
    var started := [Started(0, false)];
    FirstTickIsLast(n, started);
    var ended := started + [TickBegun(0)] + [StopSeen(0)];
    RaiseAfterReset(n, ended);
    var raised := ended + [FlagReset(0)] + [FlagRaised(0)];
    JoinFinished(n, raised);
    BeginAbort(n, raised);
    FinishAbort(n, raised);
  }

  /** What is seen when the next run is started after that. */
  const SWALLOWED: seq<Event> := ABORTED_LATE + [Started(1, true)] + [StopSeen(1)] + [FlagReset(1)]

  lemma SwallowedHasNoTick()
    ensures Started(1, true) in SWALLOWED && StopSeen(1) in SWALLOWED && TickBegun(1) !in SWALLOWED
  {
    var n := |ABORTED_LATE|;
    assert SWALLOWED[n] == Started(1, true) && SWALLOWED[n + 1] == StopSeen(1) && SWALLOWED[n + 2] == FlagReset(1);
    assert forall e | e in ABORTED_LATE :: e.run == 0;
  }

  /** The flag is not always down between runs: an abort that finds the sequence running, but raises the flag after
      the loop has reset it, leaves it up, and the run started next ends without a single tick. */
  lemma LateAbortSwallowsNextRun(n: Actions) returns (w: World)
    requires n(0) == 0
    ensures Reachable(n, w) && Started(1, true) in w.trace && StopSeen(1) in w.trace
    ensures LastThread(w.state) == Exited && TickBegun(1) !in w.trace
  {
    FirstRunAndLateAbort(n);
    StartFromRest(n, true, [Exited], ABORTED_LATE);
    assert [Exited] + [Head] == [Exited, Head];
    SwallowedRun(n, ABORTED_LATE + [Started(1, true)]);
    w := World(State(false, false, false, [Exited, Exited], Some(1), Free, Idle, false), SWALLOWED);
    SwallowedHasNoTick();
  }

  /** What an automatic abort in the first tick leaves: the loop holds the mutex and joins itself. */
  const CRASHED := State(true, true, false, [Locked], Some(0), HeldByLoop, Idle, true)

  lemma IntoTick(n: Actions, trace: seq<Event>)
    requires Reachable(n, World(Single(Head, false, true, Free, Idle), trace))
    ensures Reachable(n, World(Single(Locked, false, true, HeldByLoop, Idle), trace + [TickBegun(0)]))
  {
    OnlyThread(Head, Begun);
    Visibly(n, Single(Head, false, true, Free, Idle), Loop(0), Single(Begun, false, true, Free, Idle),
            TickBegun(0), trace);
    OnlyThread(Begun, Locked);
    Quietly(n, Single(Begun, false, true, Free, Idle), Loop(0), Single(Locked, false, true, HeldByLoop, Idle),
            trace + [TickBegun(0)]);
  }

  lemma CrashStep(n: Actions, trace: seq<Event>)
    requires Reachable(n, World(Single(Locked, false, true, HeldByLoop, Idle), trace))
    ensures Reachable(n, World(CRASHED, trace))
  {
    Quietly(n, Single(Locked, false, true, HeldByLoop, Idle), AutoAbort(0), CRASHED, trace);
  }

  /** Such an end can come: in the first tick of the first run. */
  lemma AutoAbortHappens(n: Actions) returns (w: World)
    ensures Reachable(n, w) && w.state.crashed
  {
    assert Exec(n, []) == Some(World(INITIAL, []));
    StartFromRest(n, false, [], []);
    assert [] + [Head] == [Head];
    var started := [] + [Started(0, false)];
    IntoTick(n, started);
    CrashStep(n, started + [TickBegun(0)]);
    w := World(CRASHED, started + [TickBegun(0)]);
  }
}
