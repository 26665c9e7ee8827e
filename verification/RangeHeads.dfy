/** Which range heads the sequence loop can rely on (src/SequenceManager.cpp): it reads the head of every per-sensor
    table at the beginning of every tick, and at its end if automatic aborts are enabled, but retires entries without
    looking whether another one follows for the sensor. */
module RangeHeads {
  import opened Timeline
  import opened LoopTimers
  import opened Backlog
  import opened SequenceTables
  import opened SequenceRanges

  // --------------------------------------------------------------- what can be retired

  function AtStart(due: seq<int>, start: int): nat {
    if due != [] && due[0] <= start then 1 else 0
  }

  /** Ticks of a run after which the heads are read: all but the last tick, and the last one too if its end is checked.
      No tick but the last lies past the end time. */
  ghost predicate HeadsRead(ticks: seq<int>, start: int, end: int, interval: nat, checked: bool) {
    RunSoFar(ticks, start, end, interval) && (checked || Within(ticks, end))
  }

  /** What can be checked before a run: point i can be served in such ticks if those up to the end time can serve it,
      or the points before it; the tick past the end may come as late as it likes. */
  predicate CanServe(due: seq<int>, start: int, end: int, interval: nat, checked: bool, i: nat)
    requires i < |due| && 0 < interval
  {
    if !checked then start <= end && due[i] <= end && i < (end - start) / interval + AtStart(due, start)
    else if end < start then i < AtStart(due, start)
    else (i == 0 || due[i - 1] <= end) && i <= (end - start) / interval + AtStart(due, start)
  }

  /** No run serves a point that cannot be served. */
  lemma ServedCan(due: seq<int>, ticks: seq<int>, start: int, end: int, interval: nat, checked: bool, i: nat)
    requires Increasing(due) && 0 < interval && HeadsRead(ticks, start, end, interval, checked)
    requires i < Served(due, ticks)
    ensures CanServe(due, start, end, interval, checked, i)
  {
    var init := ticks[..|ticks| - 1];
    assert NonDecreasing(ticks) && NonDecreasing(init);
    if !checked {
      ServedWithin(due, ticks, start, end, interval);
      DueIsPrefix(due, end);
    } else if init != [] {
      ServedWithin(due, init, start, end, interval);
      DueIsPrefix(due, end);
    } else {
      assert Served(due, init) == 0;
    }
  }

  /** Ticks within the end time serve only what is due by then, one point each, and the first tick is at the start. */
  lemma ServedWithin(due: seq<int>, ticks: seq<int>, start: int, end: int, interval: nat)
    requires Increasing(due) && 0 < interval && OnGrid(ticks, start, interval) && Within(ticks, end) && ticks != []
    ensures start <= end && Served(due, ticks) <= Due(due, end)
    ensures Served(due, ticks) <= (end - start) / interval + AtStart(due, start)
  {
    var n := |ticks| - 1;
    WithinIff(ticks, end);
    assert NonDecreasing(ticks);
    ServedStep(due, ticks);
    DueMonotone(due, ticks[n], end);
    BacklogLaw(due, ticks);
    DueIsPrefix(due, start);
    assert Served(due, ticks) <= Due(due, ticks[0]) + n;
    assert start + n * interval <= ticks[n];
    MultipleFits(n, end - start, interval);
  }

  /** The ticks of a run that is late at once: after the start every tick comes at the end time. */
  function LateTicks(start: int, end: int, k: nat): seq<int> {
    if k == 0 then [start] else LateTicks(start, end, k - 1) + [end]
  }

  lemma {:induction false} LateTicksAt(start: int, end: int, k: nat)
    ensures |LateTicks(start, end, k)| == k + 1
    ensures forall j | 0 <= j <= k :: LateTicks(start, end, k)[j] == if j == 0 then start else end
  {
    if k > 0 {
      LateTicksAt(start, end, k - 1);
    }
  }

  lemma {:induction false} LateTicksServe(due: seq<int>, start: int, end: int, k: nat, i: nat)
    requires Increasing(due) && i <= |due| && (i == 0 || due[i - 1] <= end)
    requires i <= k + AtStart(due, start)
    ensures Served(due, LateTicks(start, end, k)) >= i
  {
    if k == 0 {
      assert LateTicks(start, end, 0) == [] + [start];
      OneMoreServed(due, [], start);
    } else if i > 0 {
      var before := LateTicks(start, end, k - 1);
      assert LateTicks(start, end, k) == before + [end] && (i > 1 ==> due[i - 2] < due[i - 1]);
      LateTicksServe(due, start, end, k - 1, i - 1);
      OneMoreServed(due, before, end);
    }
  }

  lemma OneMoreServed(due: seq<int>, ticks: seq<int>, now: int)
    ensures var n := Served(due, ticks);
            Served(due, ticks + [now]) == if n < |due| && due[n] <= now then n + 1 else n
  {
    assert (ticks + [now])[..|ticks|] == ticks;
  }

  lemma LateTicksAreARun(start: int, end: int, interval: nat, k: nat)
    requires start <= end && 0 < interval && k <= (end - start) / interval
    ensures OnGrid(LateTicks(start, end, k), start, interval) && Within(LateTicks(start, end, k), end)
  {
    var ticks := LateTicks(start, end, k);
    LateTicksAt(start, end, k);
    assert (end - start) / interval * interval <= end - start;
    forall j | 0 <= j <= k ensures start + j * interval <= ticks[j] {
      TimesMonotone(j, (end - start) / interval, interval);
    }
    WithinIff(ticks, end);
  }

  /** A point that can be served is served in some run. */
  lemma CanBeServed(due: seq<int>, start: int, end: int, interval: nat, checked: bool, i: nat) returns (ticks: seq<int>)
    requires Increasing(due) && 0 < interval && i < |due| && CanServe(due, start, end, interval, checked, i)
    ensures HeadsRead(ticks, start, end, interval, checked) && i < Served(due, ticks)
  {
    if end < start {
      ticks := [start];
      assert [start][..0] == [];
    } else {
      var q := (end - start) / interval;
      LateTicksAreARun(start, end, interval, q);
      ticks := LateTicks(start, end, q);
      LateTicksAt(start, end, q);
      if checked {
        LateTicksServe(due, start, end, q, i);
        ticks := LastTick(due, ticks, start, end, interval, i);
      } else {
        LateTicksServe(due, start, end, q, i + 1);
      }
    }
  }

  /** A last tick that is late enough serves one more. */
  lemma LastTick(due: seq<int>, init: seq<int>, start: int, end: int, interval: nat, i: nat) returns (ticks: seq<int>)
    requires OnGrid(init, start, interval) && Within(init, end) && init != []
    requires i < |due| && i <= Served(due, init)
    ensures RunSoFar(ticks, start, end, interval) && i < Served(due, ticks)
  {
    var next := start + |init| * interval;
    var late := if due[i] <= next && end <= next then next else if due[i] <= end then end else due[i];
    ticks := init + [late];
    WithinIff(init, end);
    assert ticks[..|init|] == init;
    OneMoreServed(due, init, late);
  }

  // ---------------------------------------------------------------------------- heads

  /** A later entry names the sensor. */
  ghost predicate NamedFrom(t: Tables, s: string, i: nat) {
    exists j | i <= j < |t.rangeTimes| :: s in t.rangeTimes[j].value
  }

  /** What can be checked before a run: whoever is named by an entry that can be retired is named by a later one. */
  ghost predicate HeadsSafe(t: Tables, start: int, end: int, interval: nat, checked: bool)
    requires 0 < interval
  {
    forall i, s | 0 <= i < |RetireTimes(t)| && s in t.rangeTimes[i].value ::
      CanServe(RetireTimes(t), start, end, interval, checked, i) ==> NamedFrom(t, s, i + 1)
  }

  /** What a sensor has left are its entries that are not retired. */
  lemma HeadIff(t: Tables, ticks: seq<int>, s: string)
    requires Valid(t) && Dual(t) && s in t.ranges
    ensures var r := RangePlay(t, ticks);
            s in r.ranges && (r.ranges[s] != [] <==> NamedFrom(t, s, Served(RetireTimes(t), ticks)))
  {
    RangePlayInStep(t, ticks);
    var r := RangePlay(t, ticks);
    NamedShift(t, r, s, Served(RetireTimes(t), ticks));
    if r.ranges[s] != [] {
      var j := HeadIsNamed(r, s);
    }
    if NamedFrom(r, s, 0) {
      var j :| 0 <= j < |r.rangeTimes| && s in r.rangeTimes[j].value;
      NamedHasHead(r, s, j);
    }
  }

  lemma NamedShift(t: Tables, r: Tables, s: string, k: nat)
    requires k <= |t.rangeTimes| && r.rangeTimes == t.rangeTimes[k..]
    ensures NamedFrom(r, s, 0) <==> NamedFrom(t, s, k)
  {
    assert forall j | 0 <= j < |r.rangeTimes| :: r.rangeTimes[j] == t.rangeTimes[k + j];
    if NamedFrom(t, s, k) {
      var j :| k <= j < |t.rangeTimes| && s in t.rangeTimes[j].value;
      assert r.rangeTimes[j - k] == t.rangeTimes[j];
    }
  }

  lemma HeadIsNamed(r: Tables, s: string) returns (j: nat)
    requires InStep(r) && s in r.ranges && r.ranges[s] != []
    ensures j < |r.rangeTimes| && s in r.rangeTimes[j].value
  {
    var x := r.ranges[s][0].time;
    assert RangeAt(r, s, x) == RangeAtTime(r, s, x);
    var m := SlotAt(r.rangeTimes, x);
    AtIffEntry(r.rangeTimes, x, m);
    j :| 0 <= j < |r.rangeTimes| && r.rangeTimes[j] == Entry(x, m);
  }

  lemma NamedHasHead(r: Tables, s: string, j: nat)
    requires InStep(r) && j < |r.rangeTimes| && s in r.rangeTimes[j].value
    ensures s in r.ranges && r.ranges[s] != []
  {
    var e := r.rangeTimes[j];
    AtIffEntry(r.rangeTimes, e.time, e.value);
    assert RangeAt(r, s, e.time) == RangeAtTime(r, s, e.time);
  }

  /** Every sensor with a table is named somewhere. */
  lemma NamedSomewhere(t: Tables, s: string)
    requires Valid(t) && Dual(t) && s in t.ranges
    ensures NamedFrom(t, s, 0)
  {
    HeadIff(t, [], s);
  }

  /** Going from one entry to a later one that names the sensor leads past what is retired. */
  lemma {:induction false} NamedPast(t: Tables, start: int, end: int, interval: nat, checked: bool, ticks: seq<int>,
        s: string, i: nat)
    requires Valid(t) && Dual(t) && 0 < interval && HeadsSafe(t, start, end, interval, checked)
    requires HeadsRead(ticks, start, end, interval, checked) && NamedFrom(t, s, i)
    ensures NamedFrom(t, s, Served(RetireTimes(t), ticks))
    decreases |t.rangeTimes| - i
  {
    var k := Served(RetireTimes(t), ticks);
    var j :| i <= j < |t.rangeTimes| && s in t.rangeTimes[j].value;
    if j < k {
      assert Increasing(RetireTimes(t));
      ServedCan(RetireTimes(t), ticks, start, end, interval, checked, j);
      NamedPast(t, start, end, interval, checked, ticks, s, j + 1);
    }
  }

  lemma SafeHeadsAreReadable(t: Tables, start: int, end: int, interval: nat, checked: bool, ticks: seq<int>)
    requires Valid(t) && Dual(t) && 0 < interval && HeadsSafe(t, start, end, interval, checked)
    requires HeadsRead(ticks, start, end, interval, checked)
    ensures HeadsReadable(RangePlay(t, ticks))
  {
    RangePlayInStep(t, ticks);
    forall s | s in t.ranges ensures RangePlay(t, ticks).ranges[s] != [] {
      NamedSomewhere(t, s);
      NamedPast(t, start, end, interval, checked, ticks, s, 0);
      HeadIff(t, ticks, s);
    }
  }

  /** Whenever heads are read in a run with these times, each sensor has one, exactly when whoever is named by an
      entry that can be retired is named by a later one. */
  lemma HeadsReadableIff(t: Tables, start: int, end: int, interval: nat, checked: bool)
    requires Valid(t) && Dual(t) && 0 < interval
    ensures HeadsSafe(t, start, end, interval, checked)
        <==> forall ticks | HeadsRead(ticks, start, end, interval, checked) :: HeadsReadable(RangePlay(t, ticks))
  {
    if HeadsSafe(t, start, end, interval, checked) {
      forall ticks | HeadsRead(ticks, start, end, interval, checked) ensures HeadsReadable(RangePlay(t, ticks)) {
        SafeHeadsAreReadable(t, start, end, interval, checked, ticks);
      }
    } else {
      var due := RetireTimes(t);
      var i, s :| 0 <= i < |due| && s in t.rangeTimes[i].value && CanServe(due, start, end, interval, checked, i)
                  && !NamedFrom(t, s, i + 1);
      assert Increasing(due);
      var ticks := CanBeServed(due, start, end, interval, checked, i);
      assert !NamedFrom(t, s, Served(due, ticks));
      Ranged(t, s, i);
      HeadIff(t, ticks, s);
      assert !HeadsReadable(RangePlay(t, ticks));
    }
  }

  lemma Ranged(t: Tables, s: string, i: nat)
    requires Valid(t) && Dual(t) && i < |t.rangeTimes| && s in t.rangeTimes[i].value
    ensures s in t.ranges
  {
    AtIffEntry(t.rangeTimes, t.rangeTimes[i].time, t.rangeTimes[i].value);
    assert RangeAt(t, s, t.rangeTimes[i].time) == RangeAtTime(t, s, t.rangeTimes[i].time);
  }

  // ------------------------------------------------------------------ whatever the times

  predicate LastNamesAll(t: Tables) {
    t.ranges.Keys == {} || (t.rangeTimes != [] && t.ranges.Keys <= t.rangeTimes[|t.rangeTimes| - 1].value.Keys)
  }

  /** Heads are safe whatever the times of the run exactly when the last entry names every ranged sensor. */
  lemma LastNamesAllIff(t: Tables)
    requires Valid(t) && Dual(t)
    ensures LastNamesAll(t)
        <==> forall start, end, interval: nat, checked | 0 < interval ::
               HeadsSafe(t, start, end, interval, checked)
  {
    var due := RetireTimes(t);
    if LastNamesAll(t) {
      forall start, end, interval: nat, checked | 0 < interval ensures HeadsSafe(t, start, end, interval, checked) {
        LastNamesAllIsSafe(t, start, end, interval, checked);
      }
    } else {
      var s :| s in t.ranges && (t.rangeTimes == [] || s !in t.rangeTimes[|t.rangeTimes| - 1].value);
      NamedSomewhere(t, s);
      var i := LastNaming(t, s, 0);
      var start, end := due[i], due[i] + i;
      assert Increasing(due);
      assert CanServe(due, start, end, 1, true, i);
      assert !HeadsSafe(t, start, end, 1, true);
    }
  }

  lemma LastNamesAllIsSafe(t: Tables, start: int, end: int, interval: nat, checked: bool)
    requires Valid(t) && Dual(t) && LastNamesAll(t) && 0 < interval
    ensures HeadsSafe(t, start, end, interval, checked)
  {
    forall i, s | 0 <= i < |RetireTimes(t)| && s in t.rangeTimes[i].value
      ensures NamedFrom(t, s, i + 1)
    {
      Ranged(t, s, i);
      assert s in t.rangeTimes[|t.rangeTimes| - 1].value;
    }
  }

  lemma {:induction false} LastNaming(t: Tables, s: string, i: nat) returns (j: nat)
    requires NamedFrom(t, s, i)
    ensures i <= j < |t.rangeTimes| && s in t.rangeTimes[j].value && !NamedFrom(t, s, j + 1)
    decreases |t.rangeTimes| - i
  {
    j :| i <= j < |t.rangeTimes| && s in t.rangeTimes[j].value;
    if NamedFrom(t, s, j + 1) {
      j := LastNaming(t, s, j + 1);
    }
  }
}
