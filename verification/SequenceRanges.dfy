/** How the sequence loop retires nominal ranges, one time entry per tick, and which range is in
    force meanwhile (src/SequenceManager.cpp:522-537). */
module SequenceRanges {
  import opened Common
  import opened Timeline
  import opened Backlog
  import opened Interpolation
  import opened SequenceTables
  import opened SequenceTrace

  /** Entries are retired only while another one follows, when their own time is reached. */
  predicate Retires(t: Tables, now: int) {
    |t.rangeTimes| > 1 && now >= t.rangeTimes[0].time
  }

  /** No table is read or shortened while empty. */
  ghost predicate HeadsReadable(t: Tables) {
    forall s | s in t.ranges :: t.ranges[s] != []
  }

  /** The tables after the range step of one tick. */
  function RangeTick(t: Tables, now: int): Tables {
    if !Retires(t, now) then t
    else
      t.(rangeTimes := t.rangeTimes[1..],
         ranges := map s | s in t.ranges :: if s in t.rangeTimes[0].value then Tail(t.ranges[s]) else t.ranges[s])
  }

  ghost predicate InStep(t: Tables) {
    && (forall s | s in t.ranges :: Sorted(t.ranges[s]))
    && Sorted(t.rangeTimes)
    && Dual(t)
  }

  /** The head of a table named by the head time entry is that very entry. */
  lemma HeadsMatch(t: Tables, s: string)
    requires InStep(t) && t.rangeTimes != [] && s in t.rangeTimes[0].value
    ensures s in t.ranges && t.ranges[s] != [] && t.ranges[s][0].time == t.rangeTimes[0].time
  {
    var h := t.rangeTimes[0].time;
    assert RangeAt(t, s, h) == RangeAtTime(t, s, h);
    var first := t.ranges[s][0].time;
    assert RangeAt(t, s, first) == RangeAtTime(t, s, first);
    if first < h {
      AbsentBelow(t.rangeTimes, first);
    } else if h < first {
      AbsentBelow(t.ranges[s], h);
    }
  }

  lemma RangeTickKeepsInStep(t: Tables, now: int)
    requires InStep(t)
    ensures InStep(RangeTick(t, now)) && RangeTick(t, now).ranges.Keys == t.ranges.Keys
  {
    if Retires(t, now) {
      var r, h := RangeTick(t, now), t.rangeTimes[0];
      forall s, x ensures RangeAt(r, s, x) == RangeAtTime(r, s, x) {
        assert RangeAt(t, s, x) == RangeAtTime(t, s, x);
        DropFirst(t.rangeTimes, x);
        if s in h.value {
          HeadsMatch(t, s);
          DropFirst(t.ranges[s], x);
        }
      }
    }
  }

  /** The tables after the range steps of a run. */
  function RangePlay(t: Tables, ticks: seq<int>): Tables {
    if ticks == [] then t else RangeTick(RangePlay(t, ticks[..|ticks| - 1]), ticks[|ticks| - 1])
  }

  /** Devices and ranges do not interfere. */
  lemma RangePlayStep(t: Tables, ticks: seq<int>, now: int, devices: map<string, Schedule>)
    ensures RangeTick(RangePlay(t, ticks).(devices := devices), now) == RangePlay(t, ticks + [now]).(devices := devices)
  {
    assert (ticks + [now])[..|ticks|] == ticks;
  }

  /** The times at which entries may be retired: all but the last. */
  function RetireTimes(t: Tables): (ts: seq<int>)
    ensures |ts| == if t.rangeTimes == [] then 0 else |t.rangeTimes| - 1
    ensures forall i | 0 <= i < |ts| :: ts[i] == t.rangeTimes[i].time
  {
    seq(if t.rangeTimes == [] then 0 else |t.rangeTimes| - 1,
        i requires 0 <= i < |t.rangeTimes| => t.rangeTimes[i].time)
  }

  /** At every tick the two tables are in step, and what is left is the loaded table without as many
      leading entries as the one-per-tick server has served. */
  lemma {:induction false} RangePlayInStep(t: Tables, ticks: seq<int>)
    requires InStep(t)
    ensures InStep(RangePlay(t, ticks)) && RangePlay(t, ticks).ranges.Keys == t.ranges.Keys
    ensures RangePlay(t, ticks).rangeTimes == t.rangeTimes[Served(RetireTimes(t), ticks)..]
  {
    if ticks != [] {
      RangePlayInStep(t, ticks[..|ticks| - 1]);
      RangeTickKeepsInStep(RangePlay(t, ticks[..|ticks| - 1]), ticks[|ticks| - 1]);
    }
  }

  /** All the loop body needs to know about the range tables beside its devices. */
  lemma RangeStep(t: Tables, ticks: seq<int>, now: int, devices: map<string, Schedule>)
    requires Valid(t) && Dual(t)
    ensures var before, after := RangePlay(t, ticks).(devices := devices),
                                 RangePlay(t, ticks + [now]).(devices := devices);
            InStep(before) && RangeTick(before, now) == after
  {
    RangePlayInStep(t, ticks);
    RangePlayStep(t, ticks, now, devices);
    var r := RangePlay(t, ticks);
    forall s, x ensures RangeAt(r.(devices := devices), s, x) == RangeAtTime(r.(devices := devices), s, x) {
      assert RangeAt(r, s, x) == RangeAtTime(r, s, x);
    }
  }

  // ------------------------------------------------------------ the range in force

  /** The first entry later than a time, or the last entry. */
  ghost predicate FirstLaterOrLast<V>(s: seq<Entry<V>>, now: int, e: Entry<V>) {
    && e in s
    && (e.time > now || forall x | x in s :: x.time <= e.time)
    && forall x | x in s && now < x.time :: e.time <= x.time
  }

  /** With well-spaced entries the head in force for a sensor after the tick at time t, if there is one, is its first
      entry later than t, or its last entry: a range takes over when its predecessor's own time is reached. */
  lemma HeadInForce(t: Tables, ticks: seq<int>, s: string)
    requires Valid(t) && Dual(t) && s in t.ranges
    requires NonDecreasing(ticks) && ticks != [] && WellSpaced(RetireTimes(t), ticks)
    ensures var r := RangePlay(t, ticks);
            s in r.ranges && (r.ranges[s] != [] ==> FirstLaterOrLast(t.ranges[s], ticks[|ticks| - 1], r.ranges[s][0]))
  {
    RangePlayInStep(t, ticks);
    var first := t.ranges[s][0].time;
    assert RangeAt(t, s, first) == RangeAtTime(t, s, first);
    var k := RetiredCount(t, ticks);
    if RangePlay(t, ticks).ranges[s] != [] {
      HeadAfterRetiring(t, RangePlay(t, ticks), k, ticks[|ticks| - 1], s);
    }
  }

  lemma RetiredCount(t: Tables, ticks: seq<int>) returns (k: nat)
    requires InStep(t) && t.rangeTimes != []
    requires NonDecreasing(ticks) && ticks != [] && WellSpaced(RetireTimes(t), ticks)
    ensures k < |t.rangeTimes| && RangePlay(t, ticks).rangeTimes == t.rangeTimes[k..]
    ensures forall i | 0 <= i < |t.rangeTimes| - 1 :: t.rangeTimes[i].time <= ticks[|ticks| - 1] <==> i < k
  {
    var due, n := RetireTimes(t), |ticks|;
    RangePlayInStep(t, ticks);
    WellSpacedHasNoBacklog(due, ticks);
    assert CaughtUp(due, ticks, n - 1) && ticks[..n] == ticks;
    DueIsPrefix(due, ticks[n - 1]);
    k := Due(due, ticks[n - 1]);
    assert forall i | 0 <= i < |due| :: t.rangeTimes[i].time == due[i];
  }

  /** Once exactly the due entries are retired, the head is the first later entry or the last one. */
  lemma HeadAfterRetiring(t: Tables, r: Tables, k: nat, now: int, s: string)
    requires InStep(t) && InStep(r) && s in t.ranges && s in r.ranges && r.ranges[s] != []
    requires k < |t.rangeTimes| && r.rangeTimes == t.rangeTimes[k..]
    requires forall i | 0 <= i < |t.rangeTimes| - 1 :: t.rangeTimes[i].time <= now <==> i < k
    ensures FirstLaterOrLast(t.ranges[s], now, r.ranges[s][0])
  {
    RemainingEntries(t, r, k, s);
    var e, edge := r.ranges[s][0], t.rangeTimes[k].time;
    assert e in r.ranges[s];
    forall x | x in t.ranges[s] && edge <= x.time ensures e.time <= x.time {
      assert x in r.ranges[s];
    }
    forall x | x in t.ranges[s] && now < x.time ensures edge <= x.time {
      var i := EntryIsKnown(t, s, x);
    }
    if e.time <= now {
      var j := EntryIsKnown(t, s, e);
      forall x | x in t.ranges[s] ensures x.time <= e.time {
        var i := EntryIsKnown(t, s, x);
      }
    }
  }

  lemma EntryIsKnown(t: Tables, s: string, e: Entry<Range>) returns (i: nat)
    requires InStep(t) && s in t.ranges && e in t.ranges[s]
    ensures i < |t.rangeTimes| && t.rangeTimes[i].time == e.time
  {
    AtIffEntry(t.ranges[s], e.time, e.value);
    assert RangeAt(t, s, e.time) == RangeAtTime(t, s, e.time);
    var m := SlotAt(t.rangeTimes, e.time);
    AtIffEntry(t.rangeTimes, e.time, m);
    i :| 0 <= i < |t.rangeTimes| && t.rangeTimes[i] == Entry(e.time, m);
  }

  /** After k retirements a sensor's table holds its entries from the k-th time on. */
  lemma RemainingEntries(t: Tables, r: Tables, k: nat, s: string)
    requires InStep(t) && InStep(r) && s in t.ranges && s in r.ranges
    requires k < |t.rangeTimes| && r.rangeTimes == t.rangeTimes[k..]
    ensures forall e :: e in r.ranges[s] <==> e in t.ranges[s] && t.rangeTimes[k].time <= e.time
  {
    forall e ensures e in r.ranges[s] <==> e in t.ranges[s] && t.rangeTimes[k].time <= e.time {
      var x := e.time;
      AtIffEntry(t.ranges[s], x, e.value);
      AtIffEntry(r.ranges[s], x, e.value);
      assert RangeAt(t, s, x) == RangeAtTime(t, s, x);
      assert RangeAt(r, s, x) == RangeAtTime(r, s, x);
      AtSuffix(t.rangeTimes, k, x);
    }
  }

  lemma {:induction false} AtSuffix<V>(s: seq<Entry<V>>, k: nat, x: int)
    requires Sorted(s) && k < |s|
    ensures At(s[k..], x) == if x < s[k].time then None else At(s, x)
  {
    if x < s[k].time {
      AbsentBelow(s[k..], x);
    } else if k > 0 {
      assert s[1..][k - 1..] == s[k..];
      AtSuffix(s[1..], k - 1, x);
    }
  }

  /** The documented range at a time: the latest entry not after it. */
  ghost predicate LatestNotAfter<V>(s: seq<Entry<V>>, now: int, e: Entry<V>) {
    e in s && e.time <= now && forall x | x in s && x.time <= now :: x.time <= e.time
  }

  /** The range in force is the documented one exactly from the last entry's time on: before that the loop
      already checks the next range. */
  lemma InForceIsDocumentedIff(s: seq<Entry<Range>>, now: int, e: Entry<Range>)
    requires Sorted(s) && FirstLaterOrLast(s, now, e)
    ensures LatestNotAfter(s, now, e) <==> s[|s| - 1].time <= now
  {
    var k :| 0 <= k < |s| && s[k] == e;
    var last := s[|s| - 1];
    assert last in s;
    assert forall x | x in s :: x.time <= last.time;
  }
}
