/** The periodic timer of src/utility/LoopTimer.cpp. Clock readings are nanoseconds of the
    steady clock and enter as parameters; intervals are microseconds. */
module LoopTimers {
  const NANOS_PER_MICRO := 1000
  const UINT32_RANGE := 0x1_0000_0000

  /** The interval arrives as a 64-bit value and is narrowed to 32 unsigned bits. */
  function Narrowed(intervalUs: int): nat {
    intervalUs % UINT32_RANGE
  }

  /** Intervals that fit are kept, and others are taken modulo 2 to the 32. */
  lemma NarrowedKeeps(intervalUs: int)
    ensures 0 <= intervalUs < 4294967296 ==> Narrowed(intervalUs) == intervalUs
    ensures Narrowed(intervalUs + 4294967296) == Narrowed(intervalUs)
  {
  }

  /** A sequence of tick times as the loop reads them: no tick is earlier than its deadline on the
      fixed grid start, start + interval, start + 2 * interval, ... and time never runs back. */
  ghost predicate OnGrid(ticks: seq<int>, start: int, interval: nat) {
    && (ticks != [] ==> ticks[0] == start)
    && (forall k | 0 <= k < |ticks| :: start + k * interval <= ticks[k])
    && (forall j, k | 0 <= j <= k < |ticks| :: ticks[j] <= ticks[k])
  }

  /** The same, built up tick by tick. */
  ghost predicate Gridded(ticks: seq<int>, start: int, interval: nat) {
    ticks == [] ||
    var n := |ticks| - 1;
    && Gridded(ticks[..n], start, interval)
    && start + n * interval <= ticks[n]
    && if n == 0 then ticks[n] == start else ticks[n - 1] <= ticks[n]
  }

  lemma {:induction false} GriddedIsOnGrid(ticks: seq<int>, start: int, interval: nat)
    requires Gridded(ticks, start, interval)
    ensures OnGrid(ticks, start, interval)
  {
    if ticks != [] {
      var n := |ticks| - 1;
      GriddedIsOnGrid(ticks[..n], start, interval);
      forall k | 0 <= k < |ticks| ensures start + k * interval <= ticks[k] {
        if k < n {
          assert ticks[..n][k] == ticks[k];
        }
      }
    }
  }

  lemma GriddedStep(ticks: seq<int>, now: int, start: int, interval: nat)
    requires Gridded(ticks, start, interval)
    requires if ticks == [] then now == start else ticks[|ticks| - 1] <= now && start + |ticks| * interval <= now
    ensures Gridded(ticks + [now], start, interval)
  {
    assert (ticks + [now])[..|ticks|] == ticks;
  }

  predicate Within(ticks: seq<int>, end: int) {
    ticks == [] || (Within(ticks[..|ticks| - 1], end) && ticks[|ticks| - 1] <= end)
  }

  lemma {:induction false} WithinIff(ticks: seq<int>, end: int)
    ensures Within(ticks, end) <==> forall k | 0 <= k < |ticks| :: ticks[k] <= end
  {
    if ticks != [] {
      WithinIff(ticks[..|ticks| - 1], end);
      assert forall k | 0 <= k < |ticks| - 1 :: ticks[k] == ticks[..|ticks| - 1][k];
    }
  }

  /** A run that is not over, or just over: only its last tick may lie past the end time. */
  ghost predicate RunSoFar(ticks: seq<int>, start: int, end: int, interval: nat) {
    OnGrid(ticks, start, interval) && (ticks != [] ==> Within(ticks[..|ticks| - 1], end))
  }

  /** A finished run: the loop stops after the first tick past the end time. */
  ghost predicate RanToEnd(ticks: seq<int>, end: int) {
    && ticks != []
    && ticks[|ticks| - 1] > end
    && forall k | 0 <= k < |ticks| - 1 :: ticks[k] <= end
  }

  lemma RunLength(ticks: seq<int>, start: int, end: int, interval: nat)
    requires 0 < interval && OnGrid(ticks, start, interval) && RanToEnd(ticks, end)
    ensures |set k | 0 <= k < |ticks| && ticks[k] > end| == 1
    ensures end < start ==> |ticks| == 1
    ensures start <= end ==> 2 <= |ticks| <= (end - start) / interval + 2
  {
    var n := |ticks|;
    assert (set k | 0 <= k < n && ticks[k] > end) == {n - 1};
    if 2 <= n {
      assert start + (n - 2) * interval <= ticks[n - 2] <= end;
      MultipleFits(n - 2, end - start, interval);
    }
  }

  lemma TimesMonotone(j: nat, k: nat, d: nat)
    requires j <= k
    ensures j * d <= k * d
  {
  }

  lemma MultipleFits(k: nat, x: nat, d: nat)
    requires 0 < d && k * d <= x
    ensures k <= x / d
  {
    if x / d < k {
      TimesMonotone(x / d + 1, k, d);
    }
  }

  /** The bound is attained: a run that wakes exactly on every deadline has that many ticks. */
  lemma PunctualRunLength(ticks: seq<int>, start: int, end: int, interval: nat)
    requires 0 < interval && start <= end && RanToEnd(ticks, end)
    requires forall k | 0 <= k < |ticks| :: ticks[k] == start + k * interval
    ensures |ticks| == (end - start) / interval + 2
  {
    var n, q := |ticks|, (end - start) / interval;
    assert q * interval <= end - start;
    assert ticks[n - 1] == start + (n - 1) * interval > end;
    assert !(n - 1 <= q) by {
      forall k: nat | k <= q ensures k * interval <= q * interval {
        TimesMonotone(k, q, interval);
      }
    }
    if 2 <= n {
      assert ticks[n - 2] == start + (n - 2) * interval <= end;
      MultipleFits(n - 2, end - start, interval);
    }
  }

  class LoopTimer {
    const interval: nat
    const maxInterval: int
    var startTime: int
    var nextTime: int
    var time: int
    var lastTime: int
    ghost var waits: nat
    /** The deadline of the last wait, in microseconds from the start. */
    ghost var grid: nat

    /** Deadlines stay on the grid: no lateness is ever carried over into a later deadline. */
    ghost predicate Valid()
      reads this
    {
      && grid == waits * interval
      && nextTime == startTime + grid * NANOS_PER_MICRO
      && nextTime <= time == lastTime
    }

    constructor (intervalUs: int)
      ensures interval == Narrowed(intervalUs)
      ensures 10 * maxInterval <= 11 * interval + 5 < 10 * maxInterval + 10
    {
      interval := Narrowed(intervalUs);
      maxInterval := (Narrowed(intervalUs) as real * 1.1 + 0.5).Floor;
      startTime, nextTime, time, lastTime, waits, grid := 0, 0, 0, 0, 0, 0;
    }

    method Init(now: int)
      modifies this
      ensures Valid() && startTime == time == now && waits == grid == 0
      ensures ElapsedMicros() == 0
    {
      startTime := now;
      lastTime := startTime;
      nextTime := startTime;
      time := startTime;
      waits, grid := 0, 0;
    }

    /** Sleeps until the next deadline; `now` is the reading after waking. The result is EXIT_SUCCESS. */
    method Wait(now: int) returns (inTime: bool)
      requires Valid()
      requires nextTime + interval * NANOS_PER_MICRO <= now && time <= now
      modifies this
      ensures Valid() && startTime == old(startTime) && waits == old(waits) + 1 && time == now
      ensures nextTime == old(nextTime) + 1000 * interval
      ensures old(ElapsedMicros()) <= ElapsedMicros() && grid == old(grid) + interval <= ElapsedMicros()
      ensures inTime <==> (now - old(time)) / 1000 % 4294967296 <= maxInterval
    {
      nextTime := nextTime + interval * NANOS_PER_MICRO;
      time := now;
      var measured := (time - lastTime) / NANOS_PER_MICRO % UINT32_RANGE;
      lastTime := time;
      waits := waits + 1;
      grid := grid + interval;
      inTime := measured <= maxInterval;
    }

    function ElapsedMicros(): (us: int)
      reads this
      ensures 1000 * us <= time - startTime < 1000 * us + 1000
    {
      (time - startTime) / NANOS_PER_MICRO
    }
  }
}
