/** ShallTrigger of src/EventManager.cpp, and what it means over the whole run of a state's values. */
module Triggers {
  import opened Common
  import opened Doubles

  datatype Kind = IsEqual | IsNotEqual | IsAtLeast | IsAtMost | IsGreater | IsLess | Unrecognised

  datatype Trigger = Trigger(kind: Kind, value: real)

  /** The decision as the code takes it: first whether the new value lies outside the range, then whether the
      old one lay inside. An unrecognised type, like a missing one, always triggers. */
  predicate ShallTrigger(trigger: Option<Trigger>, oldValue: Double, newValue: Double) {
    match trigger
    case None => true
    case Some(t) =>
      var v := Fin(t.value);
      match t.kind
      case IsEqual => if !Equal(newValue, v) then false else !Equal(oldValue, v)
      case IsNotEqual => if Equal(newValue, v) then false else !(!Equal(oldValue, v) && !oldValue.NaN?)
      case IsAtLeast => if Less(newValue, v) then false else !AtMost(v, oldValue)
      case IsAtMost => if Less(v, newValue) then false else !AtMost(oldValue, v)
      case IsGreater => if AtMost(newValue, v) then false else !Less(v, oldValue)
      case IsLess => if AtMost(v, newValue) then false else !Less(oldValue, v)
      case Unrecognised => true
  }

  /** The trigger range of a value; NaN is in none. */
  predicate InRange(t: Trigger, a: Double) {
    a.Fin? &&
    match t.kind
    case IsEqual => a.x == t.value
    case IsNotEqual => a.x != t.value
    case IsAtLeast => a.x >= t.value
    case IsAtMost => a.x <= t.value
    case IsGreater => a.x > t.value
    case IsLess => a.x < t.value
    case Unrecognised => true
  }

  predicate Recognised(t: Trigger) {
    t.kind != Unrecognised
  }

  /** Triggering is entering the range exactly when the new value is a number, or the type is ==, or the old
      value lay inside: a NaN counts as new in the range for the other five types. */
  lemma TriggersOnEntryIff(t: Trigger, oldValue: Double, newValue: Double)
    requires Recognised(t)
    ensures (ShallTrigger(Some(t), oldValue, newValue) <==> InRange(t, newValue) && !InRange(t, oldValue))
        <==> newValue.Fin? || t.kind == IsEqual || InRange(t, oldValue)
  {
  }

  /** Without a trigger, or with one of an unrecognised type, every write triggers. */
  lemma UntypedAlwaysTriggers(trigger: Option<Trigger>, oldValue: Double, newValue: Double)
    requires trigger.None? || !Recognised(trigger.value)
    ensures ShallTrigger(trigger, oldValue, newValue)
  {
  }

  // ---------------------------------------------------------------------- whole runs

  // A run of a state's values as its writes see them: the first is what the first write finds, NaN for a new state,
  // and write i turns value i - 1 into value i.

  predicate AllNumbers(vals: seq<Double>) {
    forall i | 0 <= i < |vals| :: vals[i].Fin?
  }

  /** Write i of a run triggers. */
  predicate Fires(t: Trigger, seen: seq<Double>, i: nat)
    requires 0 < i < |seen|
  {
    ShallTrigger(Some(t), seen[i - 1], seen[i])
  }

  /** seen[a..b] is a maximal block of values in range. */
  ghost predicate MaximalBlock(t: Trigger, seen: seq<Double>, a: nat, b: nat) {
    && a < b <= |seen|
    && (forall i | a <= i < b :: InRange(t, seen[i]))
    && (a > 0 ==> !InRange(t, seen[a - 1]))
    && (b < |seen| ==> !InRange(t, seen[b]))
  }

  ghost predicate StartsBlock(t: Trigger, seen: seq<Double>, i: nat) {
    exists b :: MaximalBlock(t, seen, i, b)
  }

  /** An event fires exactly once in every maximal block of in-range values that a write starts: at its first value. */
  lemma OncePerBlock(t: Trigger, seen: seq<Double>, a: nat, b: nat)
    requires Recognised(t) && MaximalBlock(t, seen, a, b)
    ensures forall i | 0 < i && a <= i < b :: Fires(t, seen, i) <==> i == a
  {
    forall i | 0 < i && a <= i < b ensures Fires(t, seen, i) <==> i == a {
      TriggersOnEntryIff(t, seen[i - 1], seen[i]);
    }
  }

  /** And it fires nowhere else: whatever write of a number fires starts such a block. */
  lemma {:induction false} FiringStartsBlock(t: Trigger, seen: seq<Double>, i: nat)
    requires Recognised(t) && 0 < i < |seen| && seen[i].Fin?
    ensures Fires(t, seen, i) <==> StartsBlock(t, seen, i)
  {
    TriggersOnEntryIff(t, seen[i - 1], seen[i]);
    if Fires(t, seen, i) {
      var b := i + 1;
      while b < |seen| && InRange(t, seen[b])
        invariant i < b <= |seen| && forall j | i <= j < b :: InRange(t, seen[j])
      {
        b := b + 1;
      }
      assert MaximalBlock(t, seen, i, b);
    }
  }

  /** A number fires if it starts a block; NaN fires unless the type is == or the value before lay in range. */
  ghost predicate ShouldFire(t: Trigger, seen: seq<Double>, i: nat)
    requires 0 < i < |seen|
  {
    if seen[i].Fin? then StartsBlock(t, seen, i) else t.kind != IsEqual && !InRange(t, seen[i - 1])
  }

  lemma FiresExactly(t: Trigger, seen: seq<Double>, i: nat)
    requires Recognised(t) && 0 < i < |seen|
    ensures Fires(t, seen, i) <==> ShouldFire(t, seen, i)
  {
    if seen[i].Fin? {
      FiringStartsBlock(t, seen, i);
    }
  }

  function Complement(kind: Kind): Kind {
    match kind
    case IsEqual => IsNotEqual
    case IsNotEqual => IsEqual
    case IsAtLeast => IsLess
    case IsLess => IsAtLeast
    case IsGreater => IsAtMost
    case IsAtMost => IsGreater
    case Unrecognised => Unrecognised
  }

  function Opposite(t: Trigger): Trigger {
    t.(kind := Complement(t.kind))
  }

  /** The firings of a complementary pair over the first n writes: true for the event, false for its complement. */
  function FiringLog(t: Trigger, seen: seq<Double>, n: nat): seq<bool>
    requires n < |seen|
  {
    if n == 0 then []
    else
      FiringLog(t, seen, n - 1)
      + (if Fires(t, seen, n) then [true] else [])
      + (if Fires(Opposite(t), seen, n) then [false] else [])
  }

  ghost predicate Alternates(log: seq<bool>) {
    forall i | 0 < i < |log| :: log[i] != log[i - 1]
  }

  /** While nothing has fired the values are on the side of the number the first write found; then the last firing tells
      on which side the value is, and the first one that the side of that number was left. */
  ghost predicate TellsSide(t: Trigger, seen: seq<Double>, log: seq<bool>)
    requires seen != []
  {
    var last := seen[|seen| - 1];
    if log == [] then |seen| > 1 ==> seen[0].Fin? && InRange(t, last) == InRange(t, seen[0])
    else log[|log| - 1] == InRange(t, last) && (seen[0].Fin? ==> log[0] != InRange(t, seen[0]))
  }

  lemma PairStep(t: Trigger, oldValue: Double, newValue: Double)
    requires Recognised(t) && newValue.Fin?
    ensures ShallTrigger(Some(t), oldValue, newValue)
        <==> InRange(t, newValue) && (oldValue.Fin? ==> !InRange(t, oldValue))
    ensures ShallTrigger(Some(Opposite(t)), oldValue, newValue)
        <==> !InRange(t, newValue) && (oldValue.Fin? ==> InRange(t, oldValue))
  {
  }

  /** The events of a complementary pair fire in strict alternation, and tell on which side the value is. */
  lemma {:induction false} PairAlternates(t: Trigger, seen: seq<Double>, n: nat)
    requires Recognised(t) && n < |seen| && AllNumbers(seen[1..])
    ensures Alternates(FiringLog(t, seen, n)) && TellsSide(t, seen[..n + 1], FiringLog(t, seen, n))
  {
    if n > 0 {
      PairAlternates(t, seen, n - 1);
      assert seen[n] == seen[1..][n - 1] && (n > 1 ==> seen[n - 1] == seen[1..][n - 2]);
      PairStep(t, seen[n - 1], seen[n]);
    }
  }

  /** Among numbers only: with a NaN between two numbers alternation survives exactly when the second number lies on the
      side of the first, or for == and != when it is the trigger value. */
  lemma NaNBetweenNumbersIff(t: Trigger, a: real, b: real)
    requires Recognised(t)
    ensures Alternates(FiringLog(t, [NaN, Fin(a), NaN, Fin(b)], 3))
        <==> if t.kind == IsEqual || t.kind == IsNotEqual then b == t.value
             else InRange(t, Fin(a)) == InRange(t, Fin(b))
  {
    var seen := [NaN, Fin(a), NaN, Fin(b)];
    PairStep(t, NaN, Fin(a));
    PairStep(t, NaN, Fin(b));
    var first := FiringLog(t, seen, 1);
    var second := FiringLog(t, seen, 2);
    var log := FiringLog(t, seen, 3);
    assert FiringLog(t, seen, 0) == [];
    assert Fires(t, seen, 1) == InRange(t, Fin(a)) && Fires(Opposite(t), seen, 1) == !InRange(t, Fin(a));
    assert first == [InRange(t, Fin(a))];
    assert log == second + [InRange(t, Fin(b))];
    assert log[|second|] == InRange(t, Fin(b)) && log[|second| - 1] == second[|second| - 1];
    if t.kind == IsEqual || t.kind == IsNotEqual {
      assert second == if a == t.value then first + [!first[0]] else first;
    } else {
      assert second == first + [!first[0]];
    }
  }
}
