/** interpolateNone and interpolateLinear of src/SequenceManager.cpp, and what a device receives
    when its schedule is consumed by them tick after tick. */
module Interpolation {
  import opened Common
  import opened Timeline
  import opened Backlog

  type Values = seq<real>
  type Schedule = seq<Entry<Values>>

  datatype Mode = Step | Linear

  /** The value to issue now, if any, and whether the schedule moves on. */
  datatype Sample = Sample(value: Option<Values>, advance: bool)

  function BlendOne(a: real, b: real, scale: real): real {
    a + scale * (b - a)
  }

  function Blend(a: Values, b: Values, scale: real): Values
    requires |a| <= |b|
  {
    seq(|a|, i requires 0 <= i < |a| => BlendOne(a[i], b[i], scale))
  }

  /** How far now lies between two times. */
  function Scale(from: int, to: int, now: int): real
    requires from < to
  {
    (now - from) as real / (to - from) as real
  }

  function SampleNone(start: Entry<Values>, now: int): Sample {
    if now < start.time then Sample(None, false) else Sample(Some(start.value), true)
  }

  function SampleLinear(start: Entry<Values>, end: Option<Entry<Values>>, now: int): Sample
    requires end.Some? ==> start.time < end.value.time && |start.value| <= |end.value.value|
  {
    if now < start.time then Sample(None, false)
    else if end.None? then Sample(Some(start.value), true)
    else if now >= end.value.time then Sample(Some(end.value.value), true)
    else Sample(Some(Blend(start.value, end.value.value, Scale(start.time, end.value.time, now))), false)
  }

  /** At time x component c of a value lies on the straight line between two knots: rise is to rise as run to run. */
  predicate Straight(a: Entry<Values>, b: Entry<Values>, x: int, c: nat, v: real)
    requires c < |a.value| <= |b.value|
  {
    (v - a.value[c]) * (b.time - a.time) as real == (b.value[c] - a.value[c]) * (x - a.time) as real
  }

  lemma BlendIsStraight(a: Entry<Values>, b: Entry<Values>, x: int, c: nat, v: real)
    requires a.time < b.time && c < |a.value| <= |b.value|
    ensures Straight(a, b, x, c, v) <==> v == BlendOne(a.value[c], b.value[c], Scale(a.time, b.time, x))
  {
    SlopeOfRatio(v - a.value[c], b.value[c] - a.value[c], (x - a.time) as real, (b.time - a.time) as real);
  }

  lemma SlopeOfRatio(rise: real, height: real, run: real, width: real)
    requires width > 0.0
    ensures rise * width == height * run <==> rise == run / width * height
  {
    var ratio := run / width;
    assert ratio * width == run;
    assert height * run == (ratio * height) * width;
    if rise * width == (ratio * height) * width {
      assert (rise - ratio * height) * width == 0.0;
    }
  }

  method InterpolateLinear(start: Entry<Values>, end: Option<Entry<Values>>, now: int) returns (r: Sample)
    requires end.Some? ==> start.time < end.value.time && |start.value| <= |end.value.value|
    ensures r == SampleLinear(start, end, now)
    ensures now < start.time ==> r == Sample(None, false)
    ensures start.time <= now && end.None? ==> r == Sample(Some(start.value), true)
    ensures end.Some? && end.value.time <= now ==> r == Sample(Some(end.value.value), true)
    ensures end.Some? && start.time <= now < end.value.time ==>
              && r.value.Some? && !r.advance && |r.value.value| == |start.value|
              && forall c | 0 <= c < |start.value| :: Straight(start, end.value, now, c, r.value.value[c])
  {
    if now < start.time {
      return Sample(None, false);
    }
    if end.None? {
      return Sample(Some(start.value), true);
    }
    if now >= end.value.time {
      return Sample(Some(end.value.value), true);
    }
    var from, to := start.value, end.value.value;
    var scale := Scale(start.time, end.value.time, now);
    var values: Values := [];
    for i := 0 to |from|
      invariant |values| == i
      invariant forall j | 0 <= j < i :: values[j] == BlendOne(from[j], to[j], scale)
    {
      values := values + [from[i] + scale * (to[i] - from[i])];
    }
    assert values == Blend(from, to, scale);
    forall c | 0 <= c < |from| ensures Straight(start, end.value, now, c, values[c]) {
      BlendIsStraight(start, end.value, now, c, values[c]);
    }
    return Sample(Some(values), false);
  }

  /** No vector of a device is shorter than an earlier one. */
  predicate Widening(s: Schedule) {
    forall i, j | 0 <= i <= j < |s| :: |s[i].value| <= |s[j].value|
  }

  /** A schedule the loop can run: blending reads the later vector as far as the earlier one goes. */
  predicate Playable(mode: Mode, s: Schedule) {
    Sorted(s) && (mode == Linear ==> Widening(s))
  }

  /** One tick of one device whose schedule has moved on to point p. */
  function SampleAt(mode: Mode, s: Schedule, p: nat, now: int): Sample
    requires Playable(mode, s) && p <= |s|
  {
    if p == |s| then Sample(None, false)
    else if mode == Step then SampleNone(s[p], now)
    else SampleLinear(s[p], if p + 1 < |s| then Some(s[p + 1]) else None, now)
  }

  /** A value issued to a device, with the time of the tick that issued it. */
  datatype Emission = Emission(at: int, value: Values)

  datatype Run = Run(emitted: seq<Emission>, next: nat)

  /** What a device has received and how far its schedule has moved on after some ticks. */
  function Play(mode: Mode, s: Schedule, ticks: seq<int>): (r: Run)
    requires Playable(mode, s)
    ensures r.next <= |s|
  {
    if ticks == [] then Run([], 0)
    else
      var before, now := Play(mode, s, ticks[..|ticks| - 1]), ticks[|ticks| - 1];
      var sample := SampleAt(mode, s, before.next, now);
      Run(before.emitted + (if sample.value.Some? then [Emission(now, sample.value.value)] else []),
          before.next + if sample.advance then 1 else 0)
  }

  // ---------------------------------------------------------------- step devices

  function Times(s: Schedule): (ts: seq<int>)
    ensures |ts| == |s| && forall i | 0 <= i < |s| :: ts[i] == s[i].time
  {
    seq(|s|, i requires 0 <= i < |s| => s[i].time)
  }

  /** A step device receives its sorted schedule in order, one point per tick and only when due: the
      count is the one-per-tick server's, so the backlog law bounds and attains it. */
  lemma {:induction false} StepEmitsPrefix(s: Schedule, ticks: seq<int>)
    requires Sorted(s)
    ensures var r, n := Play(Step, s, ticks), Served(Times(s), ticks);
            && |r.emitted| == r.next == n
            && forall i | 0 <= i < n :: r.emitted[i].value == s[i].value
  {
    if ticks != [] {
      StepEmitsPrefix(s, ticks[..|ticks| - 1]);
    }
  }

  lemma StepBacklogLaw(s: Schedule, ticks: seq<int>)
    requires Sorted(s) && NonDecreasing(ticks) && ticks != []
    ensures var n, count := |ticks| - 1, |Play(Step, s, ticks).emitted|;
            && count <= n + 1
            && (forall k | 0 <= k <= n :: count <= Due(Times(s), ticks[k]) + (n - k))
            && (count == n + 1 || exists k :: 0 <= k <= n && count == Due(Times(s), ticks[k]) + (n - k))
  {
    StepEmitsPrefix(s, ticks);
    BacklogLaw(Times(s), ticks);
  }

  /** Completeness: when points are spaced by at least the largest tick gap and none precedes the first
      tick, every point up to the end time has been issued by the tick that passes the end, and point i
      is issued exactly at the first tick at which it is due. */
  lemma {:induction false} StepCompleteness(s: Schedule, ticks: seq<int>, end: int, i: nat)
    requires Sorted(s) && NonDecreasing(ticks) && WellSpaced(Times(s), ticks)
    requires ticks != [] && end < ticks[|ticks| - 1]
    requires i < |s| && s[i].time <= end
    ensures i < |Play(Step, s, ticks).emitted|
    ensures var e := Play(Step, s, ticks).emitted[i];
            e.value == s[i].value && IssuedWhenDue(s[i].time, e.at, ticks)
  {
    WellSpacedHasNoBacklog(Times(s), ticks);
    var n := |ticks|;
    assert CaughtUp(Times(s), ticks, n - 1) && ticks[..n] == ticks;
    DueIsPrefix(Times(s), ticks[n - 1]);
    FirstDueTick(s, ticks, n, i);
  }

  /** Emission i happens at the tick whose service it is. */
  lemma {:induction false} FirstDueTick(s: Schedule, ticks: seq<int>, m: nat, i: nat)
    requires Sorted(s) && NonDecreasing(ticks) && NoBacklog(Times(s), ticks)
    requires m <= |ticks| && i < Served(Times(s), ticks[..m])
    ensures i < |s| && i < |Play(Step, s, ticks[..m]).emitted|
    ensures var e := Play(Step, s, ticks[..m]).emitted[i];
            e.value == s[i].value && IssuedWhenDue(s[i].time, e.at, ticks)
  {
    var init := ticks[..m - 1];
    assert ticks[..m][..m - 1] == init;
    StepEmitsPrefix(s, ticks[..m]);
    StepEmitsPrefix(s, init);
    if i < Served(Times(s), init) {
      FirstDueTick(s, ticks, m - 1, i);
    } else {
      ServedWhenDue(Times(s), ticks, i, m - 1);
      assert Play(Step, s, ticks[..m]).emitted[i].at == ticks[m - 1];
    }
  }

  /** `at` is the first tick not before the due time. */
  ghost predicate IssuedWhenDue(due: int, at: int, ticks: seq<int>) {
    due <= at && at in ticks && forall t | t in ticks && t < at :: t < due
  }

  // -------------------------------------------------------------- linear devices

  /** The piecewise-linear function through the points, constant after the last one. */
  function Interpolant(s: Schedule, x: int): Values
    requires s != [] && Sorted(s) && Widening(s) && s[0].time <= x
  {
    if |s| == 1 then s[0].value
    else if x < s[1].time then Blend(s[0].value, s[1].value, Scale(s[0].time, s[1].time, x))
    else Interpolant(s[1..], x)
  }

  lemma BlendEnds(a: Entry<Values>, b: Entry<Values>)
    requires a.time < b.time && |a.value| <= |b.value|
    ensures Blend(a.value, b.value, Scale(a.time, b.time, a.time)) == a.value
    ensures Blend(a.value, b.value, Scale(a.time, b.time, b.time)) == b.value[..|a.value|]
  {
    assert Scale(a.time, b.time, a.time) == 0.0;
    assert Scale(a.time, b.time, b.time) == 1.0;
    assert forall x, y :: BlendOne(x, y, 0.0) == x && BlendOne(x, y, 1.0) == y;
  }

  /** On each segment it is the straight line between the two knots, up to and including the second one if its vector is
      no longer, and after the last knot it keeps that knot's value. */
  lemma {:induction false} InterpolantOnSegment(s: Schedule, i: nat, x: int)
    requires i < |s| && Sorted(s) && Widening(s) && s[i].time <= x
    requires i + 1 < |s| ==>
               x < s[i + 1].time || (x == s[i + 1].time && |s[i].value| == |s[i + 1].value|)
    ensures s[0].time <= x
    ensures Interpolant(s, x)
         == if i + 1 == |s| then s[i].value
            else Blend(s[i].value, s[i + 1].value, Scale(s[i].time, s[i + 1].time, x))
  {
    assert s[0].time <= s[i].time;
    if i == 0 {
      if |s| > 1 && x == s[1].time {
        InterpolantAtKnot(s[1..], 0);
        BlendEnds(s[0], s[1]);
      }
    } else {
      assert s[1].time <= s[i].time;
      InterpolantOnSegment(s[1..], i - 1, x);
    }
  }

  lemma {:induction false} InterpolantAtKnot(s: Schedule, i: nat)
    requires i < |s| && Sorted(s) && Widening(s)
    ensures s[0].time <= s[i].time
    ensures Interpolant(s, s[i].time) == s[i].value
  {
    if i > 0 {
      assert s[1].time <= s[i].time;
      InterpolantAtKnot(s[1..], i - 1);
    } else if |s| > 1 {
      BlendEnds(s[0], s[1]);
    }
  }

  /** Told from the knots alone: a value lies on the broken line through the knots, straight from knot i to the next and
      constant after the last. */
  predicate OnSegment(s: Schedule, i: nat, x: int, v: Values)
    requires i < |s| && Widening(s)
  {
    && s[i].time <= x
    && if i + 1 == |s| then v == s[i].value
       else
         && x < s[i + 1].time && |v| == |s[i].value|
         && forall c | 0 <= c < |v| :: Straight(s[i], s[i + 1], x, c, v[c])
  }

  ghost predicate OnBrokenLine(s: Schedule, x: int, v: Values)
    requires Widening(s)
  {
    exists i | 0 <= i < |s| :: OnSegment(s, i, x, v)
  }

  lemma SegmentIsBlend(s: Schedule, i: nat, x: int, v: Values)
    requires i + 1 < |s| && Sorted(s) && Widening(s) && s[i].time <= x < s[i + 1].time
    ensures OnSegment(s, i, x, v) <==> v == Blend(s[i].value, s[i + 1].value, Scale(s[i].time, s[i + 1].time, x))
  {
    var blend := Blend(s[i].value, s[i + 1].value, Scale(s[i].time, s[i + 1].time, x));
    if |v| == |s[i].value| {
      forall c | 0 <= c < |v| ensures Straight(s[i], s[i + 1], x, c, v[c]) <==> v[c] == blend[c] {
        BlendIsStraight(s[i], s[i + 1], x, c, v[c]);
      }
    }
  }

  lemma {:induction false} SegmentOf(s: Schedule, x: int) returns (i: nat)
    requires s != [] && s[0].time <= x
    ensures i < |s| && s[i].time <= x && (i + 1 < |s| ==> x < s[i + 1].time)
  {
    i := 0;
    while i + 1 < |s| && s[i + 1].time <= x
      invariant i < |s| && s[i].time <= x
    {
      i := i + 1;
    }
  }

  lemma {:induction false} OnSegmentIff(s: Schedule, i: nat, x: int, v: Values)
    requires i < |s| && Sorted(s) && Widening(s) && s[i].time <= x && (i + 1 < |s| ==> x < s[i + 1].time)
    ensures s[0].time <= x && (OnSegment(s, i, x, v) <==> v == Interpolant(s, x))
  {
    InterpolantOnSegment(s, i, x);
    if i + 1 < |s| {
      SegmentIsBlend(s, i, x, v);
    }
  }

  /** The interpolant is the one value on the broken line. */
  lemma {:induction false} InterpolantIsBrokenLine(s: Schedule, x: int, v: Values)
    requires s != [] && Sorted(s) && Widening(s) && s[0].time <= x
    ensures OnBrokenLine(s, x, v) <==> v == Interpolant(s, x)
  {
    var i := SegmentOf(s, x);
    OnSegmentIff(s, i, x, v);
    if OnBrokenLine(s, x, v) {
      var j :| 0 <= j < |s| && OnSegment(s, j, x, v);
      OnSegmentIff(s, j, x, v);
    }
  }

  /** Between two knots every component lies between the two knot values. */
  lemma InterpolantIsBracketed(s: Schedule, i: nat, x: int, c: nat)
    requires i + 1 < |s| && Sorted(s) && Widening(s) && s[i].time <= x <= s[i + 1].time
    requires c < |s[i].value|
    ensures s[0].time <= x && |Interpolant(s, x)| == |s[if x < s[i + 1].time then i else i + 1].value| > c
    ensures var a, b, v := s[i].value[c], s[i + 1].value[c], Interpolant(s, x)[c];
            a <= v <= b || b <= v <= a
  {
    if x < s[i + 1].time {
      InterpolantOnSegment(s, i, x);
      FractionInUnit((x - s[i].time) as real, (s[i + 1].time - s[i].time) as real);
      Weighted(s[i].value[c], s[i + 1].value[c], Scale(s[i].time, s[i + 1].time, x));
    } else {
      InterpolantAtKnot(s, i + 1);
    }
  }

  lemma FractionInUnit(p: real, q: real)
    requires 0.0 <= p <= q && 0.0 < q
    ensures 0.0 <= p / q <= 1.0
  {
  }

  lemma TimesUnit(k: real, d: real)
    requires 0.0 <= k <= 1.0 && 0.0 <= d
    ensures 0.0 <= k * d <= d
  {
  }

  lemma Weighted(a: real, b: real, k: real)
    requires 0.0 <= k <= 1.0
    ensures var v := BlendOne(a, b, k); a <= v <= b || b <= v <= a
  {
    var d := b - a;
    if d >= 0.0 {
      TimesUnit(k, d);
    } else {
      TimesUnit(k, -d);
      assert k * -d == -(k * d);
    }
    assert 0.0 <= k * d <= d || d <= k * d <= 0.0;
    assert BlendOne(a, b, k) == a + k * d;
  }

  /** The schedule time whose interpolant a tick issues at point p: the tick time inside the segment, the
      next knot's time when the tick is at or past that knot, the last knot's time at the end. */
  function SampleTime(s: Schedule, p: nat, now: int): int
    requires p < |s|
  {
    if p + 1 == |s| then s[p].time
    else if now >= s[p + 1].time then s[p + 1].time
    else now
  }

  /** The sample times of a whole run, one per emission. */
  function SampleTimes(s: Schedule, ticks: seq<int>): (taus: seq<int>)
    requires Playable(Linear, s)
    ensures |taus| == |Play(Linear, s, ticks).emitted|
  {
    if ticks == [] then []
    else
      var init, now := ticks[..|ticks| - 1], ticks[|ticks| - 1];
      var p := Play(Linear, s, init).next;
      SampleTimes(s, init) + if p == |s| || now < s[p].time then [] else [SampleTime(s, p, now)]
  }

  /** Emission j is on the broken line at sample time j, which is the time of its tick or of a knot the tick has passed,
      and the sample times never decrease; no sample from point run.next on can lie before the last one. */
  ghost predicate Sampled(s: Schedule, run: Run, taus: seq<int>, now: int)
    requires Playable(Linear, s) && run.next <= |s| && |run.emitted| == |taus|
  {
    && NonDecreasing(taus)
    && (forall j | 0 <= j < |taus| :: SampleOf(s, run.emitted[j], taus[j]))
    && (taus != [] ==> taus[|taus| - 1] <= now && Behind(s, run.next, taus[|taus| - 1]))
  }

  ghost predicate SampleOf(s: Schedule, e: Emission, tau: int)
    requires Playable(Linear, s)
  {
    s != [] && s[0].time <= tau <= e.at && OnBrokenLine(s, tau, e.value) && (tau == e.at || IsKnot(s, tau))
  }

  ghost predicate IsKnot(s: Schedule, tau: int) {
    exists i | 0 <= i < |s| :: s[i].time == tau
  }

  ghost predicate Behind(s: Schedule, p: nat, tau: int)
    requires p <= |s|
  {
    && (p + 1 == |s| ==> tau <= s[p].time)
    && (p + 1 < |s| ==> tau <= s[p + 1].time)
  }

  /** One tick at or past the current knot issues the value at the sample time. */
  lemma LinearStep(s: Schedule, p: nat, now: int)
    requires Playable(Linear, s) && p < |s| && s[p].time <= now
    ensures var tau, sample := SampleTime(s, p, now), SampleAt(Linear, s, p, now);
            && sample.value.Some?
            && SampleOf(s, Emission(now, sample.value.value), tau)
            && Behind(s, if sample.advance then p + 1 else p, tau)
  {
    var tau := SampleTime(s, p, now);
    assert s[0].time <= s[p].time;
    if p + 1 < |s| && tau == s[p + 1].time {
      InterpolantAtKnot(s, p + 1);
    } else {
      InterpolantOnSegment(s, p, tau);
    }
    InterpolantIsBrokenLine(s, tau, SampleAt(Linear, s, p, now).value.value);
  }

  lemma LinearStepKeeps(s: Schedule, run: Run, taus: seq<int>, before: int, now: int)
    requires Playable(Linear, s) && run.next < |s| && |run.emitted| == |taus|
    requires Sampled(s, run, taus, before) && before <= now && s[run.next].time <= now
    ensures var p := run.next;
            var tau, sample := SampleTime(s, p, now), SampleAt(Linear, s, p, now);
            && sample.value.Some?
            && Sampled(s, Run(run.emitted + [Emission(now, sample.value.value)], if sample.advance then p + 1 else p),
                       taus + [tau], now)
  {
    LinearStep(s, run.next, now);
  }

  lemma LinearIdleKeeps(s: Schedule, run: Run, taus: seq<int>, before: int, now: int)
    requires Playable(Linear, s) && run.next <= |s| && |run.emitted| == |taus|
    requires Sampled(s, run, taus, before) && before <= now
    requires run.next == |s| || now < s[run.next].time
    ensures SampleAt(Linear, s, run.next, now) == Sample(None, false)
    ensures Sampled(s, run, taus, now)
  {
  }

  /** A linear device samples the broken line through its knots: emission j lies on the line of the original schedule
      at the time of its tick, or at a knot the tick has passed, and these times never decrease over the run. */
  lemma {:induction false} LinearSamplesInterpolant(s: Schedule, ticks: seq<int>)
    requires Playable(Linear, s) && NonDecreasing(ticks) && ticks != []
    ensures Sampled(s, Play(Linear, s, ticks), SampleTimes(s, ticks), ticks[|ticks| - 1])
  {
    var init, now := ticks[..|ticks| - 1], ticks[|ticks| - 1];
    var before := if init == [] then now else init[|init| - 1];
    if init != [] {
      LinearSamplesInterpolant(s, init);
    }
    var run, taus := Play(Linear, s, init), SampleTimes(s, init);
    if run.next < |s| && s[run.next].time <= now {
      LinearStepKeeps(s, run, taus, before, now);
      var sample := SampleAt(Linear, s, run.next, now);
      assert Play(Linear, s, ticks) ==
             Run(run.emitted + [Emission(now, sample.value.value)], if sample.advance then run.next + 1 else run.next);
      assert SampleTimes(s, ticks) == taus + [SampleTime(s, run.next, now)];
    } else {
      LinearIdleKeeps(s, run, taus, before, now);
      assert Play(Linear, s, ticks) == run && SampleTimes(s, ticks) == taus;
    }
  }

  // ------------------------------------------------------------- knots of linear devices

  /** A linear device goes past its later knots one per tick when due; at the last one it takes one more tick. */
  lemma {:induction false} LinearServes(s: Schedule, ticks: seq<int>)
    requires Playable(Linear, s) && s != []
    ensures var next, n := Play(Linear, s, ticks).next, Served(Times(s)[1..], ticks);
            next == n || (next == n + 1 && n == |s| - 1)
  {
    if ticks != [] {
      LinearServes(s, ticks[..|ticks| - 1]);
    }
  }

  /** The tick that goes past a later knot issues its vector. */
  lemma {:induction false} KnotIsIssued(s: Schedule, ticks: seq<int>, now: int)
    requires Playable(Linear, s) && s != [] && Served(Times(s)[1..], ticks) < |s| - 1
    requires s[Served(Times(s)[1..], ticks) + 1].time <= now
    ensures Play(Linear, s, ticks + [now]).emitted
         == Play(Linear, s, ticks).emitted + [Emission(now, s[Served(Times(s)[1..], ticks) + 1].value)]
  {
    assert (ticks + [now])[..|ticks|] == ticks;
    LinearServes(s, ticks);
  }

  lemma {:induction false} EmissionsStay(mode: Mode, s: Schedule, ticks: seq<int>, m: nat)
    requires Playable(mode, s) && m <= |ticks|
    ensures Play(mode, s, ticks[..m]).emitted <= Play(mode, s, ticks).emitted
  {
    if m == |ticks| {
      assert ticks[..m] == ticks;
    } else {
      EmissionsStay(mode, s, ticks[..|ticks| - 1], m);
      assert ticks[..|ticks| - 1][..m] == ticks[..m];
    }
  }

  lemma FirstIsWhenDue(due: int, ticks: seq<int>, k: nat)
    requires NonDecreasing(ticks) && k < |ticks| && due <= ticks[k] && (k > 0 ==> ticks[k - 1] < due)
    ensures IssuedWhenDue(due, ticks[k], ticks)
  {
  }

  /** In a run past the end, with later knots spaced like the ticks, every later knot up to the end time is issued, with
      its own vector and at the first tick at which it is due. */
  lemma {:induction false} LinearCompleteness(s: Schedule, ticks: seq<int>, end: int, i: nat)
    requires Playable(Linear, s) && NonDecreasing(ticks) && ticks != [] && end < ticks[|ticks| - 1]
    requires 0 < i < |s| && s[i].time <= end && WellSpaced(Times(s)[1..], ticks)
    ensures exists e :: e in Play(Linear, s, ticks).emitted
              && e.value == s[i].value && IssuedWhenDue(s[i].time, e.at, ticks)
  {
    assert Times(s)[1..][i - 1] == s[i].time;
    var k := ServedByEnd(Times(s)[1..], ticks, end, i - 1);
    FirstIsWhenDue(s[i].time, ticks, k);
    KnotInRun(s, ticks, k, i);
    assert Emission(ticks[k], s[i].value) in Play(Linear, s, ticks).emitted;
  }

  lemma {:induction false} KnotInRun(s: Schedule, ticks: seq<int>, k: nat, i: nat)
    requires Playable(Linear, s) && 0 < i < |s| && k < |ticks|
    requires Served(Times(s)[1..], ticks[..k]) == i - 1 && s[i].time <= ticks[k]
    ensures Emission(ticks[k], s[i].value) in Play(Linear, s, ticks).emitted
  {
    assert ticks[..k + 1] == ticks[..k] + [ticks[k]];
    KnotIsIssued(s, ticks[..k], ticks[k]);
    EmissionsStay(Linear, s, ticks, k + 1);
    var emitted := Play(Linear, s, ticks[..k + 1]).emitted;
    assert emitted[|emitted| - 1] == Emission(ticks[k], s[i].value);
  }

  /** Tick k on its own. */
  lemma PlayStep(mode: Mode, s: Schedule, ticks: seq<int>, k: nat)
    requires Playable(mode, s) && k < |ticks|
    ensures var sample := SampleAt(mode, s, Play(mode, s, ticks[..k]).next, ticks[k]);
            Play(mode, s, ticks[..k + 1]).emitted == Play(mode, s, ticks[..k]).emitted
              + if sample.value.Some? then [Emission(ticks[k], sample.value.value)] else []
  {
    assert ticks[..k + 1][..k] == ticks[..k];
  }

  /** With later knots spaced like the ticks the device keeps up: every tick from the first knot on issues one value,
      until one has come at or past the last knot; the value lies on the line at the time of the tick, or of a knot
      after the tick before. */
  lemma {:induction false} LinearKeepsUp(s: Schedule, ticks: seq<int>, k: nat) returns (tau: int, v: Values)
    requires Playable(Linear, s) && NonDecreasing(ticks) && |s| > 1 && WellSpaced(Times(s)[1..], ticks)
    requires k < |ticks| && s[0].time <= ticks[k] && (k > 0 ==> ticks[k - 1] < s[|s| - 1].time)
    ensures Play(Linear, s, ticks[..k + 1]).emitted == Play(Linear, s, ticks[..k]).emitted + [Emission(ticks[k], v)]
    ensures OnBrokenLine(s, tau, v) && tau <= ticks[k] && (tau == ticks[k] || k == 0 || ticks[k - 1] < tau)
  {
    var p := Reached(s, ticks, k);
    LinearStep(s, p, ticks[k]);
    tau, v := SampleTime(s, p, ticks[k]), SampleAt(Linear, s, p, ticks[k]).value.value;
    PlayStep(Linear, s, ticks, k);
  }

  /** Where the schedule stands when tick k comes: at the last knot that is due by the tick before. */
  lemma {:induction false} Reached(s: Schedule, ticks: seq<int>, k: nat) returns (p: nat)
    requires Playable(Linear, s) && NonDecreasing(ticks) && |s| > 1 && WellSpaced(Times(s)[1..], ticks)
    requires k < |ticks| && s[0].time <= ticks[k] && (k > 0 ==> ticks[k - 1] < s[|s| - 1].time)
    ensures p == Play(Linear, s, ticks[..k]).next && p + 1 < |s| && s[p].time <= ticks[k]
    ensures k > 0 ==> ticks[k - 1] < s[p + 1].time
  {
    var due := Times(s)[1..];
    p := Served(due, ticks[..k]);
    LinearServes(s, ticks[..k]);
    if k > 0 {
      ServedBefore(due, ticks, k);
      assert due[|due| - 1] == s[|s| - 1].time;
      assert due[p] == s[p + 1].time && (p > 0 ==> due[p - 1] == s[p].time);
    }
  }

  /** The first tick at or past the last knot after all knots are passed issues it once more and takes it off ... */
  lemma {:induction false} LastKnotIsTakenOff(s: Schedule, ticks: seq<int>, k: nat)
    requires Playable(Linear, s) && s != [] && k < |ticks|
    requires Served(Times(s)[1..], ticks[..k]) == |s| - 1 && s[|s| - 1].time <= ticks[k]
    ensures Play(Linear, s, ticks[..k + 1]).next == |s|
  {
    LinearServes(s, ticks[..k]);
    assert ticks[..k + 1][..k] == ticks[..k];
  }

  /** ... and then the device, of whatever mode, receives nothing more. */
  lemma {:induction false} NothingAfterEnd(mode: Mode, s: Schedule, ticks: seq<int>, m: nat)
    requires Playable(mode, s) && m <= |ticks| && Play(mode, s, ticks[..m]).next == |s|
    ensures Play(mode, s, ticks) == Play(mode, s, ticks[..m])
  {
    if m == |ticks| {
      assert ticks[..m] == ticks;
    } else {
      assert ticks[..|ticks| - 1][..m] == ticks[..m];
      NothingAfterEnd(mode, s, ticks[..|ticks| - 1], m);
    }
  }

  // ------------------------------------------------------------------------ the first point

  /** A first point at the time of the first tick is issued by it, whatever the mode. */
  lemma {:induction false} FirstPointAtOnce(mode: Mode, s: Schedule, ticks: seq<int>)
    requires Playable(mode, s) && s != [] && ticks != [] && s[0].time == ticks[0]
    ensures Play(mode, s, ticks).emitted != [] && Play(mode, s, ticks).emitted[0] == Emission(ticks[0], s[0].value)
  {
    assert ticks[..0] == [];
    PlayStep(mode, s, ticks, 0);
    if mode == Linear && |s| > 1 {
      BlendEnds(s[0], s[1]);
    }
    EmissionsStay(mode, s, ticks, 1);
  }
}
