/** A queue of points sorted by due time that is served at most one point per tick: the discipline
    of the sequence loop for step devices and for range changes. */
module Backlog {
  ghost predicate Increasing(s: seq<int>) {
    forall i, j | 0 <= i < j < |s| :: s[i] < s[j]
  }

  ghost predicate NonDecreasing(s: seq<int>) {
    forall i, j | 0 <= i <= j < |s| :: s[i] <= s[j]
  }

  /** How many points have been served after the given ticks. */
  function Served(due: seq<int>, ticks: seq<int>): (n: nat)
    ensures n <= |due|
  {
    if ticks == [] then 0
    else
      var n := Served(due, ticks[..|ticks| - 1]);
      if n < |due| && due[n] <= ticks[|ticks| - 1] then n + 1 else n
  }

  /** How many points are due at a time. */
  function Due(due: seq<int>, t: int): (n: nat)
    ensures n <= |due|
  {
    if due == [] then 0
    else Due(due[..|due| - 1], t) + if due[|due| - 1] <= t then 1 else 0
  }

  lemma {:induction false} DueIsPrefix(due: seq<int>, t: int)
    requires Increasing(due)
    ensures forall i | 0 <= i < |due| :: due[i] <= t <==> i < Due(due, t)
  {
    if due != [] {
      var init := due[..|due| - 1];
      DueIsPrefix(init, t);
      assert forall i | 0 <= i < |init| :: due[i] == init[i] < due[|due| - 1];
      assert Due(init, t) < |init| ==> init[Due(init, t)] > t;
    }
  }

  lemma DueMonotone(due: seq<int>, t: int, u: int)
    requires Increasing(due) && t <= u
    ensures Due(due, t) <= Due(due, u)
  {
    DueIsPrefix(due, t);
    DueIsPrefix(due, u);
    if Due(due, t) > 0 {
      assert due[Due(due, t) - 1] <= u;
    }
  }

  /** One tick serves one point exactly when some due point is left. */
  lemma {:induction false} ServedStep(due: seq<int>, ticks: seq<int>)
    requires Increasing(due) && NonDecreasing(ticks) && ticks != []
    ensures var before, now := Served(due, ticks[..|ticks| - 1]), Due(due, ticks[|ticks| - 1]);
            Served(due, ticks) == if before < now then before + 1 else before
    ensures Served(due, ticks) <= Due(due, ticks[|ticks| - 1])
    ensures |ticks| == 1 ==> Served(due, ticks[..0]) == 0
  {
    var init, t := ticks[..|ticks| - 1], ticks[|ticks| - 1];
    DueIsPrefix(due, t);
    if init != [] {
      ServedStep(due, init);
      DueMonotone(due, init[|init| - 1], t);
    }
  }

  /** The backlog law: after tick n the count is the minimum over all earlier ticks k of what was due
      at k plus one per tick since, capped by one per tick. The two clauses say lower bound of every
      candidate, and attained by one. */
  lemma {:induction false} BacklogLaw(due: seq<int>, ticks: seq<int>)
    requires Increasing(due) && NonDecreasing(ticks) && ticks != []
    ensures var n := |ticks| - 1;
            && Served(due, ticks) <= n + 1
            && forall k | 0 <= k <= n :: Served(due, ticks) <= Due(due, ticks[k]) + (n - k)
    ensures var n := |ticks| - 1;
            || Served(due, ticks) == n + 1
            || exists k :: 0 <= k <= n && Served(due, ticks) == Due(due, ticks[k]) + (n - k)
  {
    var n := |ticks| - 1;
    var init := ticks[..n];
    ServedStep(due, ticks);
    if n > 0 {
      BacklogLaw(due, init);
      assert forall k | 0 <= k < n :: init[k] == ticks[k];
      assert forall k | 0 <= k < n :: Served(due, init) <= Due(due, init[k]) + (n - 1 - k);
      if Served(due, ticks) == Served(due, init) + 1 {
        if Served(due, init) != n {
          var k :| 0 <= k <= n - 1 && Served(due, init) == Due(due, init[k]) + (n - 1 - k);
          assert Served(due, ticks) == Due(due, ticks[k]) + (n - k);
        }
      } else {
        assert Served(due, ticks) == Due(due, ticks[n]) + (n - n);
      }
    } else if Served(due, ticks) == 0 {
      assert Served(due, ticks) == Due(due, ticks[n]) + (n - n);
    }
  }

  /** After tick k nothing due is left. */
  predicate CaughtUp(due: seq<int>, ticks: seq<int>, k: nat)
    requires k < |ticks|
  {
    Served(due, ticks[..k + 1]) == Due(due, ticks[k])
  }

  ghost predicate NoBacklog(due: seq<int>, ticks: seq<int>) {
    forall k | 0 <= k < |ticks| :: CaughtUp(due, ticks, k)
  }

  /** At most one point has become due since the tick before. */
  predicate OneNewlyDue(due: seq<int>, ticks: seq<int>, k: nat)
    requires k < |ticks|
  {
    Due(due, ticks[k]) <= (if k == 0 then 0 else Due(due, ticks[k - 1])) + 1
  }

  lemma {:induction false} CaughtUpStep(due: seq<int>, ticks: seq<int>, k: nat)
    requires Increasing(due) && NonDecreasing(ticks) && k < |ticks|
    requires k > 0 ==> CaughtUp(due, ticks, k - 1)
    ensures CaughtUp(due, ticks, k) <==> OneNewlyDue(due, ticks, k)
  {
    assert ticks[..k + 1][..k] == ticks[..k];
    ServedStep(due, ticks[..k + 1]);
    if k > 0 {
      DueMonotone(due, ticks[k - 1], ticks[k]);
    }
  }

  /** Nothing is ever late exactly when never more than one point becomes due between two ticks. */
  lemma {:induction false} NoBacklogIff(due: seq<int>, ticks: seq<int>)
    requires Increasing(due) && NonDecreasing(ticks)
    ensures NoBacklog(due, ticks) <==> forall k | 0 <= k < |ticks| :: OneNewlyDue(due, ticks, k)
  {
    var k := 0;
    while k < |ticks|
      invariant 0 <= k <= |ticks|
      invariant (forall j | 0 <= j < k :: CaughtUp(due, ticks, j)) <==> (forall j | 0 <= j < k :: OneNewlyDue(due,
          ticks, j))
    {
      if forall j | 0 <= j < k :: CaughtUp(due, ticks, j) {
        CaughtUpStep(due, ticks, k);
      }
      k := k + 1;
    }
  }

  /** What an author of a sequence can check beforehand: points at least as far apart as the
      largest tick gap, and none before the first tick. */
  ghost predicate WellSpaced(due: seq<int>, ticks: seq<int>) {
    && (forall i, k | 0 < i < |due| && 0 < k < |ticks| :: ticks[k] - ticks[k - 1] <= due[i] - due[i - 1])
    && (due != [] && ticks != [] ==> ticks[0] <= due[0])
  }

  lemma WellSpacedHasNoBacklog(due: seq<int>, ticks: seq<int>)
    requires Increasing(due) && NonDecreasing(ticks) && WellSpaced(due, ticks)
    ensures NoBacklog(due, ticks)
  {
    forall k | 0 <= k < |ticks| ensures OneNewlyDue(due, ticks, k) {
      var n := Due(due, ticks[k]);
      DueIsPrefix(due, ticks[k]);
      if n >= 2 {
        assert due[0] < due[n - 1] <= ticks[k];
        if k > 0 {
          DueIsPrefix(due, ticks[k - 1]);
          assert ticks[k] - ticks[k - 1] <= due[n - 1] - due[n - 2];
        }
      }
    }
    NoBacklogIff(due, ticks);
  }

  /** Without backlog every point is served at the first tick at which it is due. */
  lemma ServedWhenDue(due: seq<int>, ticks: seq<int>, i: nat, k: nat)
    requires Increasing(due) && NonDecreasing(ticks) && NoBacklog(due, ticks)
    requires i < |due| && k < |ticks|
    ensures Served(due, ticks[..k]) <= i < Served(due, ticks[..k + 1])
        <==> due[i] <= ticks[k] && (k > 0 ==> ticks[k - 1] < due[i])
  {
    DueIsPrefix(due, ticks[k]);
    assert CaughtUp(due, ticks, k);
    if k > 0 {
      DueIsPrefix(due, ticks[k - 1]);
      assert CaughtUp(due, ticks, k - 1);
    }
  }

  /** The tick that serves a point. */
  lemma {:induction false} ServingTick(due: seq<int>, ticks: seq<int>, i: nat) returns (k: nat)
    requires i < Served(due, ticks)
    ensures k < |ticks| && Served(due, ticks[..k]) == i && Served(due, ticks[..k + 1]) == i + 1
  {
    k := |ticks| - 1;
    if i < Served(due, ticks[..k]) {
      var n := k;
      k := ServingTick(due, ticks[..n], i);
      assert ticks[..n][..k] == ticks[..k] && ticks[..n][..k + 1] == ticks[..k + 1];
    } else {
      assert ticks[..k + 1] == ticks;
    }
  }

  /** In a run past the end, points spaced like the ticks are served up to the end, each at its first due tick. */
  lemma ServedByEnd(due: seq<int>, ticks: seq<int>, end: int, i: nat) returns (k: nat)
    requires Increasing(due) && NonDecreasing(ticks) && WellSpaced(due, ticks)
    requires ticks != [] && end < ticks[|ticks| - 1] && i < |due| && due[i] <= end
    ensures k < |ticks| && Served(due, ticks[..k]) == i
    ensures due[i] <= ticks[k] && (k > 0 ==> ticks[k - 1] < due[i])
  {
    WellSpacedHasNoBacklog(due, ticks);
    assert CaughtUp(due, ticks, |ticks| - 1) && ticks[..|ticks|] == ticks;
    DueIsPrefix(due, ticks[|ticks| - 1]);
    k := ServingTick(due, ticks, i);
    ServedWhenDue(due, ticks, i, k);
  }

  /** Before tick k exactly the points due by the tick before have been served. */
  lemma ServedBefore(due: seq<int>, ticks: seq<int>, k: nat)
    requires Increasing(due) && NonDecreasing(ticks) && WellSpaced(due, ticks) && 0 < k <= |ticks|
    ensures var n := Served(due, ticks[..k]);
            (n > 0 ==> due[n - 1] <= ticks[k - 1]) && (n < |due| ==> ticks[k - 1] < due[n])
  {
    WellSpacedHasNoBacklog(due, ticks);
    assert CaughtUp(due, ticks, k - 1);
    DueIsPrefix(due, ticks[k - 1]);
  }
}
