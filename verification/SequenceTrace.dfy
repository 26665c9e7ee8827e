/** The commands a run of the sequence loop issues, tick by tick and device by device. */
module SequenceTrace {
  import opened Common
  import opened Backlog
  import opened Interpolation

  /** A command handed to the event manager during the tick at a time. */
  datatype Call<D> = Call(device: D, at: int, values: Values)

  /** Devices without an entry fall back to no interpolation. */
  function ModeOf<D(==)>(modes: map<D, Mode>, d: D): Mode {
    if d in modes then modes[d] else Step
  }

  predicate PlayableAll<D(==)>(modes: map<D, Mode>, devices: map<D, Schedule>) {
    forall d | d in devices :: Playable(ModeOf(modes, d), devices[d])
  }

  /** std::map visits every device once; the order is the order of the names. */
  predicate Enumerates<D(==)>(order: seq<D>, devices: set<D>) {
    if order == [] then devices == {}
    else
      var last := order[|order| - 1];
      last in devices && Enumerates(order[..|order| - 1], devices - {last})
  }

  lemma {:induction false} EnumeratesIff<D(!new)>(order: seq<D>, devices: set<D>)
    ensures Enumerates(order, devices) <==>
              && (forall d :: d in order <==> d in devices)
              && forall i, j | 0 <= i < j < |order| :: order[i] != order[j]
  {
    if order != [] {
      var n := |order| - 1;
      EnumeratesIff(order[..n], devices - {order[n]});
      assert forall d :: d in order <==> d in order[..n] || d == order[n];
      assert order[n] in order[..n] <==> exists i | 0 <= i < n :: order[i] == order[n];
      assert forall i, j | 0 <= i < j < n :: order[i] == order[..n][i] && order[j] == order[..n][j];
      if Enumerates(order, devices) {
        assert order[n] !in order[..n];
      }
    }
  }

  /** A table whose first n devices in the order have been replaced. */
  function Replaced<D, V>(from: map<D, V>, to: map<D, V>, order: seq<D>, n: nat): map<D, V>
    requires n <= |order|
  {
    if n == 0 then from
    else
      var d, before := order[n - 1], Replaced(from, to, order, n - 1);
      if d in to then before[d := to[d]] else before
  }

  lemma {:induction false} ReplacedAt<D(!new), V>(from: map<D, V>, to: map<D, V>, order: seq<D>, n: nat)
    requires n <= |order| && from.Keys == to.Keys && Enumerates(order, to.Keys)
    ensures Replaced(from, to, order, n).Keys == to.Keys
    ensures forall k | 0 <= k < |order| ::
              order[k] in to && Replaced(from, to, order, n)[order[k]] == if k < n then to[order[k]] else from[order[k]]
  {
    EnumeratesIff(order, to.Keys);
    if n > 0 {
      ReplacedAt(from, to, order, n - 1);
    }
  }

  lemma AllReplaced<D(!new), V>(from: map<D, V>, to: map<D, V>, order: seq<D>)
    requires from.Keys == to.Keys && Enumerates(order, to.Keys)
    ensures Replaced(from, to, order, |order|) == to
  {
    EnumeratesIff(order, to.Keys);
    ReplacedAt(from, to, order, |order|);
  }

  /** The command a sample stands for. */
  function CallOf<D>(d: D, now: int, sample: Sample): seq<Call<D>> {
    if sample.value.Some? then [Call(d, now, sample.value.value)] else []
  }

  /** The command of each device in the tick after some earlier ones. */
  function Caller<D(==)>(modes: map<D, Mode>, devices: map<D, Schedule>, before: seq<int>, now: int): D -> seq<Call<D>>
    requires PlayableAll(modes, devices)
  {
    d =>
      if d in devices then
        CallOf(d, now, SampleAt(ModeOf(modes, d), devices[d], Play(ModeOf(modes, d), devices[d], before).next, now))
      else []
  }

  /** The commands of the first n devices of the order in one tick. */
  function TickCalls<D>(caller: D -> seq<Call<D>>, order: seq<D>, n: nat): seq<Call<D>>
    requires n <= |order|
  {
    if n == 0 then [] else TickCalls(caller, order, n - 1) + caller(order[n - 1])
  }

  function Trace<D(==)>(modes: map<D, Mode>, devices: map<D, Schedule>, order: seq<D>, ticks: seq<int>): seq<Call<D>>
    requires PlayableAll(modes, devices)
  {
    if ticks == [] then []
    else
      var init, now := ticks[..|ticks| - 1], ticks[|ticks| - 1];
      Trace(modes, devices, order, init) + TickCalls(Caller(modes, devices, init, now), order, |order|)
  }

  /** Within a tick commands come in the order of the devices and at the time of the tick ... */
  lemma {:induction false} TickInOrder<D>(caller: D -> seq<Call<D>>, order: seq<D>, n: nat, i: nat, j: nat, now: int)
      returns (a: nat, b: nat)
    requires n <= |order| && i < j < |TickCalls(caller, order, n)|
    requires forall d: D :: |caller(d)| <= 1 && forall c | c in caller(d) :: c.device == d && c.at == now
    ensures a < b < n
    ensures var calls := TickCalls(caller, order, n);
            calls[i].device == order[a] && calls[j].device == order[b] && calls[i].at == calls[j].at == now
  {
    var before, last := TickCalls(caller, order, n - 1), caller(order[n - 1]);
    if j < |before| {
      a, b := TickInOrder(caller, order, n - 1, i, j, now);
    } else {
      assert j == |before| && TickCalls(caller, order, n)[j] == last[0] && last[0] in last;
      a := TurnOf(caller, order, n - 1, i, now);
      b := n - 1;
    }
  }

  lemma {:induction false} TurnOf<D>(caller: D -> seq<Call<D>>, order: seq<D>, n: nat, i: nat, now: int)
      returns (a: nat)
    requires n <= |order| && i < |TickCalls(caller, order, n)|
    requires forall d: D :: |caller(d)| <= 1 && forall c | c in caller(d) :: c.device == d && c.at == now
    ensures a < n && TickCalls(caller, order, n)[i].device == order[a] && TickCalls(caller, order, n)[i].at == now
  {
    var before, last := TickCalls(caller, order, n - 1), caller(order[n - 1]);
    if i < |before| {
      a := TurnOf(caller, order, n - 1, i, now);
    } else {
      assert last[0] in last;
      a := n - 1;
    }
  }

  predicate NotAfter<D(==)>(calls: seq<Call<D>>, now: int) {
    forall c | c in calls :: c.at <= now
  }

  predicate Chronological<D>(calls: seq<Call<D>>) {
    forall i, j | 0 <= i <= j < |calls| :: calls[i].at <= calls[j].at
  }

  /** ... and over a run no command is earlier than one before it. */
  lemma {:induction false} TraceInOrder<D(!new)>(modes: map<D, Mode>, devices: map<D, Schedule>, order: seq<D>,
        ticks: seq<int>)
    requires PlayableAll(modes, devices) && NonDecreasing(ticks)
    ensures Chronological(Trace(modes, devices, order, ticks))
    ensures ticks != [] ==> NotAfter(Trace(modes, devices, order, ticks), ticks[|ticks| - 1])
  {
    if ticks != [] {
      var init, now := ticks[..|ticks| - 1], ticks[|ticks| - 1];
      TraceInOrder(modes, devices, order, init);
      var caller := Caller(modes, devices, init, now);
      var calls, more := Trace(modes, devices, order, init), TickCalls(caller, order, |order|);
      forall i | 0 <= i < |more| ensures more[i].at == now {
        var _ := TurnOf(caller, order, |order|, i, now);
      }
      assert NotAfter(calls, now) by {
        assert init != [] ==> init[|init| - 1] <= now;
      }
      forall i, j | 0 <= i <= j < |calls + more| ensures (calls + more)[i].at <= (calls + more)[j].at {
        assert i < |calls| ==> calls[i] in calls;
      }
    }
  }

  /** The commands of a trace that went to one device. */
  function IssuedTo<D(==)>(calls: seq<Call<D>>, d: D): seq<Emission> {
    if calls == [] then []
    else
      var c := calls[|calls| - 1];
      IssuedTo(calls[..|calls| - 1], d) + if c.device == d then [Emission(c.at, c.values)] else []
  }

  lemma {:induction false} IssuedToAppend<D>(a: seq<Call<D>>, b: seq<Call<D>>, d: D)
    ensures IssuedTo(a + b, d) == IssuedTo(a, d) + IssuedTo(b, d)
  {
    if b == [] {
      assert a + b == a;
    } else {
      assert (a + b)[..|a + b| - 1] == a + b[..|b| - 1];
      IssuedToAppend(a, b[..|b| - 1], d);
    }
  }

  /** Each device is commanded only in its own turn. */
  ghost predicate Separate<D(!new)>(caller: D -> seq<Call<D>>) {
    forall d :: CallsOnly(caller(d), d)
  }

  predicate CallsOnly<D(==)>(calls: seq<Call<D>>, d: D) {
    forall i | 0 <= i < |calls| :: calls[i].device == d
  }

  lemma {:induction false} NothingIssued<D>(calls: seq<Call<D>>, d: D, e: D)
    requires CallsOnly(calls, e) && d != e
    ensures IssuedTo(calls, d) == []
  {
    if calls != [] {
      NothingIssued(calls[..|calls| - 1], d, e);
    }
  }

  lemma {:induction false} NotYetIssued<D(!new)>(caller: D -> seq<Call<D>>, order: seq<D>, n: nat, d: D)
    requires Separate(caller) && n <= |order| && forall i | 0 <= i < n :: order[i] != d
    ensures IssuedTo(TickCalls(caller, order, n), d) == []
  {
    if n > 0 {
      NotYetIssued(caller, order, n - 1, d);
      IssuedToAppend(TickCalls(caller, order, n - 1), caller(order[n - 1]), d);
      NothingIssued(caller(order[n - 1]), d, order[n - 1]);
    }
  }

  lemma {:induction false} TickProjects<D(!new)>(caller: D -> seq<Call<D>>, order: seq<D>, n: nat, k: nat)
    requires Separate(caller) && k < n <= |order|
    requires forall i | 0 <= i < |order| && i != k :: order[i] != order[k]
    ensures IssuedTo(TickCalls(caller, order, n), order[k]) == IssuedTo(caller(order[k]), order[k])
  {
    IssuedToAppend(TickCalls(caller, order, n - 1), caller(order[n - 1]), order[k]);
    if n - 1 == k {
      NotYetIssued(caller, order, k, order[k]);
    } else {
      TickProjects(caller, order, n - 1, k);
      NothingIssued(caller(order[n - 1]), order[k], order[n - 1]);
    }
  }

  lemma OneCall<D>(calls: seq<Call<D>>, d: D)
    requires |calls| <= 1 && CallsOnly(calls, d)
    ensures IssuedTo(calls, d) == if calls != [] then [Emission(calls[0].at, calls[0].values)] else []
  {
    if calls != [] {
      assert calls[..0] == [];
    }
  }

  /** One tick more gives a device what its own schedule gives it in that tick. */
  lemma TraceStepProjects<D(!new)>(modes: map<D, Mode>, devices: map<D, Schedule>, order: seq<D>, before: seq<int>,
        now: int, k: nat)
    requires PlayableAll(modes, devices) && k < |order| && order[k] in devices
    requires forall i | 0 <= i < |order| && i != k :: order[i] != order[k]
    ensures var d, caller := order[k], Caller(modes, devices, before, now);
            IssuedTo(Trace(modes, devices, order, before) + TickCalls(caller, order, |order|), d) ==
            IssuedTo(Trace(modes, devices, order, before), d) +
            if caller(d) != [] then [Emission(caller(d)[0].at, caller(d)[0].values)] else []
  {
    var d, caller := order[k], Caller(modes, devices, before, now);
    TickProjects(caller, order, |order|, k);
    OneCall(caller(d), d);
    IssuedToAppend(Trace(modes, devices, order, before), TickCalls(caller, order, |order|), d);
  }

  lemma {:induction false} TraceProjectsAt<D(!new)>(modes: map<D, Mode>, devices: map<D, Schedule>, order: seq<D>,
                                                    ticks: seq<int>, k: nat)
    requires PlayableAll(modes, devices) && k < |order| && order[k] in devices
    requires forall i | 0 <= i < |order| && i != k :: order[i] != order[k]
    ensures IssuedTo(Trace(modes, devices, order, ticks), order[k])
         == Play(ModeOf(modes, order[k]), devices[order[k]], ticks).emitted
  {
    if ticks != [] {
      var init, now := ticks[..|ticks| - 1], ticks[|ticks| - 1];
      TraceProjectsAt(modes, devices, order, init, k);
      TraceStepProjects(modes, devices, order, init, now, k);
    }
  }

  /** Whatever the devices beside it, each device receives exactly what playing its own schedule gives. */
  lemma TraceProjects<D(!new)>(modes: map<D, Mode>, devices: map<D, Schedule>, order: seq<D>, ticks: seq<int>, d: D)
    requires PlayableAll(modes, devices) && Enumerates(order, devices.Keys) && d in devices
    ensures IssuedTo(Trace(modes, devices, order, ticks), d) == Play(ModeOf(modes, d), devices[d], ticks).emitted
  {
    EnumeratesIff(order, devices.Keys);
    var k :| 0 <= k < |order| && order[k] == d;
    TraceProjectsAt(modes, devices, order, ticks, k);
  }

  /** In a whole run a step device receives the first points of its schedule, in order, as many as the
      one-per-tick server has served. */
  lemma StepDeviceReceives<D(!new)>(modes: map<D, Mode>, devices: map<D, Schedule>, order: seq<D>, ticks: seq<int>,
        d: D)
    requires PlayableAll(modes, devices) && Enumerates(order, devices.Keys)
    requires d in devices && ModeOf(modes, d) == Step
    ensures var s, received := devices[d], IssuedTo(Trace(modes, devices, order, ticks), d);
            && |received| == Served(Times(s), ticks)
            && forall i | 0 <= i < |received| :: received[i].value == s[i].value
  {
    TraceProjects(modes, devices, order, ticks, d);
    StepEmitsPrefix(devices[d], ticks);
  }

  /** In a whole run a linear device receives samples of its interpolant at times that never decrease and
      never run ahead of the tick. */
  lemma LinearDeviceReceives<D(!new)>(modes: map<D, Mode>, devices: map<D, Schedule>, order: seq<D>, ticks: seq<int>,
        d: D)
    requires PlayableAll(modes, devices) && Enumerates(order, devices.Keys)
    requires d in devices && ModeOf(modes, d) == Linear && NonDecreasing(ticks) && ticks != []
    ensures var s, received := devices[d], IssuedTo(Trace(modes, devices, order, ticks), d);
            exists taus: seq<int> ::
              && |taus| == |received| && NonDecreasing(taus)
              && forall j | 0 <= j < |taus| :: SampleOf(s, received[j], taus[j])
  {
    TraceProjects(modes, devices, order, ticks, d);
    var s := devices[d];
    LinearSamplesInterpolant(s, ticks);
    var taus := SampleTimes(s, ticks);
    assert |taus| == |IssuedTo(Trace(modes, devices, order, ticks), d)|;
  }

  /** What is left of a schedule after some ticks. */
  function Left(mode: Mode, s: Schedule, ticks: seq<int>): Schedule
    requires Playable(mode, s)
  {
    s[Play(mode, s, ticks).next..]
  }

  /** Ticking what is left is ticking the whole schedule at its current point. */
  lemma TickOfLeft(mode: Mode, s: Schedule, ticks: seq<int>, now: int)
    requires Playable(mode, s)
    ensures Playable(mode, Left(mode, s, ticks))
    ensures SampleAt(mode, Left(mode, s, ticks), 0, now) == SampleAt(mode, s, Play(mode, s, ticks).next, now)
    ensures SampleAt(mode, Left(mode, s, ticks), 0, now).advance ==> Left(mode, s, ticks) != []
  {
  }

  lemma LeftAfterTick(mode: Mode, s: Schedule, ticks: seq<int>, now: int)
    requires Playable(mode, s)
    ensures Left(mode, s, ticks + [now])
         == if SampleAt(mode, s, Play(mode, s, ticks).next, now).advance
            then Tail(Left(mode, s, ticks)) else Left(mode, s, ticks)
  {
    assert (ticks + [now])[..|ticks|] == ticks;
  }

  /** What is left of every schedule after some ticks. */
  function AllLeft<D(==)>(modes: map<D, Mode>, devices: map<D, Schedule>, ticks: seq<int>): (left: map<D, Schedule>)
    requires PlayableAll(modes, devices)
    ensures left.Keys == devices.Keys
  {
    map d | d in devices :: Left(ModeOf(modes, d), devices[d], ticks)
  }

  lemma AllLeftAtFirst<D>(modes: map<D, Mode>, devices: map<D, Schedule>)
    requires PlayableAll(modes, devices)
    ensures AllLeft(modes, devices, []) == devices
  {
    forall d | d in devices ensures Left(ModeOf(modes, d), devices[d], []) == devices[d] {
    }
  }

  function Tail<T>(s: seq<T>): seq<T> {
    if s == [] then [] else s[1..]
  }

  /** One tick takes what is left of a device's schedule from one state to the next and issues these calls. */
  predicate Advances<D(==)>(mode: Mode, d: D, now: int, from: Schedule, to: Schedule, calls: seq<Call<D>>) {
    && Playable(mode, from)
    && var sample := SampleAt(mode, from, 0, now);
       calls == CallOf(d, now, sample) && to == if sample.advance then Tail(from) else from
  }

  lemma AllAdvance<D(!new)>(modes: map<D, Mode>, devices: map<D, Schedule>, before: seq<int>, now: int, d: D)
    requires PlayableAll(modes, devices) && d in devices
    ensures Advances(ModeOf(modes, d), d, now, AllLeft(modes, devices, before)[d],
                     AllLeft(modes, devices, before + [now])[d], Caller(modes, devices, before, now)(d))
  {
    TickOfLeft(ModeOf(modes, d), devices[d], before, now);
    LeftAfterTick(ModeOf(modes, d), devices[d], before, now);
  }

  /** Device i of the order can be taken from one state to the next when its turn comes. */
  predicate Turn<D(==)>(modes: map<D, Mode>, now: int, from: map<D, Schedule>, to: map<D, Schedule>, order: seq<D>,
                        caller: D -> seq<Call<D>>, i: nat)
    requires i < |order|
  {
    var d, table := order[i], Replaced(from, to, order, i);
    d in to && d in table && Advances(ModeOf(modes, d), d, now, table[d], to[d], caller(d))
  }

  /** Its schedule is then still as the earlier ticks left it. */
  lemma DeviceAdvances<D(!new)>(modes: map<D, Mode>, devices: map<D, Schedule>, before: seq<int>, now: int,
        order: seq<D>, i: nat)
    requires PlayableAll(modes, devices) && Enumerates(order, devices.Keys) && i < |order|
    ensures Turn(modes, now, AllLeft(modes, devices, before), AllLeft(modes, devices, before + [now]), order,
                 Caller(modes, devices, before, now), i)
  {
    ReplacedAt(AllLeft(modes, devices, before), AllLeft(modes, devices, before + [now]), order, i);
    AllAdvance(modes, devices, before, now, order[i]);
  }

  lemma TraceAppend<D>(modes: map<D, Mode>, devices: map<D, Schedule>, order: seq<D>, ticks: seq<int>, now: int)
    requires PlayableAll(modes, devices)
    ensures Trace(modes, devices, order, ticks + [now])
         == Trace(modes, devices, order, ticks) + TickCalls(Caller(modes, devices, ticks, now), order, |order|)
  {
    assert (ticks + [now])[..|ticks|] == ticks;
  }

  /** One tick more, behind whatever was issued before the run. */
  lemma TraceStep<D>(earlier: seq<Call<D>>, modes: map<D, Mode>, devices: map<D, Schedule>, order: seq<D>,
        ticks: seq<int>, now: int)
    requires PlayableAll(modes, devices)
    ensures earlier + Trace(modes, devices, order, ticks + [now])
         == (earlier + Trace(modes, devices, order, ticks)) + TickCalls(Caller(modes, devices, ticks, now), order,
             |order|)
  {
    TraceAppend(modes, devices, order, ticks, now);
    Associative(earlier, Trace(modes, devices, order, ticks), TickCalls(Caller(modes, devices, ticks, now), order,
        |order|));
  }
}
