/** Result types and sequence helpers shared by all modules. */
module Common {
  datatype Option<+T> = None | Some(value: T) {
    function GetOr(default: T): T {
      if Some? then value else default
    }
  }

  datatype Result<+T> = Ok(value: T) | Throws

  lemma LastWriteWins<K, V>(m: map<K, V>, k: K, a: V, b: V)
    ensures m[k := a][k := b] == m[k := b]
  {
  }

  /** Conversion of a floating-point number to an integer drops the fraction. */
  function Truncate(x: real): int {
    if x >= 0.0 then x.Floor else -((-x).Floor)
  }

  lemma TruncateBounds(x: real)
    ensures -1.0 < x - Truncate(x) as real < 1.0
    ensures x >= 0.0 ==> 0.0 <= Truncate(x) as real <= x
    ensures x <= 0.0 ==> x <= Truncate(x) as real <= 0.0
  {
  }

  /** The concatenation of the images of the elements of xs, in order. */
  function FlatMap<X, Y>(f: X -> seq<Y>, xs: seq<X>): seq<Y> {
    if xs == [] then [] else FlatMap(f, xs[..|xs| - 1]) + f(xs[|xs| - 1])
  }

  lemma {:induction false} FlatMapAppend<X, Y>(f: X -> seq<Y>, xs: seq<X>, ys: seq<X>)
    ensures FlatMap(f, xs + ys) == FlatMap(f, xs) + FlatMap(f, ys)
  {
    if ys == [] {
      assert xs + ys == xs;
    } else {
      var init := ys[..|ys| - 1];
      assert (xs + ys)[..|xs + ys| - 1] == xs + init;
      FlatMapAppend(f, xs, init);
    }
  }

  lemma FlatMapStep<X, Y>(f: X -> seq<Y>, xs: seq<X>, i: nat)
    requires i < |xs|
    ensures FlatMap(f, xs[..i + 1]) == FlatMap(f, xs[..i]) + f(xs[i])
  {
    assert xs[..i + 1][..i] == xs[..i];
  }

  lemma Associative<T>(xs: seq<T>, ys: seq<T>, zs: seq<T>)
    ensures xs + ys + zs == xs + (ys + zs)
  {
  }

  lemma FlatMapOne<X, Y>(f: X -> seq<Y>, x: X)
    ensures FlatMap(f, [x]) == f(x)
  {
    assert [x][..0] == [];
  }

  /** The element at k may as well come last. */
  lemma FlatMapMoveToEnd<X, Y>(f: X -> seq<Y>, before: seq<X>, x: X, after: seq<X>)
    ensures multiset(FlatMap(f, before + [x] + after)) == multiset(FlatMap(f, before + after)) + multiset(f(x))
  {
    FlatMapAppend(f, before, after);
    FlatMapAppend(f, before + [x], after);
    FlatMapAppend(f, before, [x]);
    FlatMapOne(f, x);
  }

  lemma RemoveAt<X>(xs: seq<X>, k: nat)
    requires k < |xs|
    ensures xs == xs[..k] + [xs[k]] + xs[k + 1..]
    ensures multiset(xs) == multiset(xs[..k] + xs[k + 1..]) + multiset{xs[k]}
  {
    assert xs == xs[..k] + [xs[k]] + xs[k + 1..];
  }

  lemma CancelOne<X>(a: multiset<X>, b: multiset<X>, x: X)
    requires a + multiset{x} == b + multiset{x}
    ensures a == b
  {
    assert a == a + multiset{x} - multiset{x};
  }

  lemma PositionOf<X>(xs: seq<X>, x: X) returns (k: nat)
    requires x in multiset(xs)
    ensures k < |xs| && xs[k] == x
  {
    k :| 0 <= k < |xs| && xs[k] == x;
  }

  /** Permuting the arguments permutes the results. */
  lemma {:induction false} FlatMapPermutation<X, Y>(f: X -> seq<Y>, xs: seq<X>, ys: seq<X>)
    requires multiset(xs) == multiset(ys)
    ensures multiset(FlatMap(f, xs)) == multiset(FlatMap(f, ys))
    decreases |xs|
  {
    if xs == [] {
      assert |multiset(ys)| == 0;
    } else {
      var last := |xs| - 1;
      RemoveAt(xs, last);
      assert xs[..last] + xs[last + 1..] == xs[..last];
      var k := PositionOf(ys, xs[last]);
      RemoveAt(ys, k);
      CancelOne(multiset(xs[..last]), multiset(ys[..k] + ys[k + 1..]), xs[last]);
      FlatMapPermutation(f, xs[..last], ys[..k] + ys[k + 1..]);
      FlatMapMoveToEnd(f, ys[..k], ys[k], ys[k + 1..]);
    }
  }

  /** How often x occurs. */
  function Occurrences<X(==)>(x: X, xs: seq<X>): nat {
    if xs == [] then 0 else Occurrences(x, xs[..|xs| - 1]) + if xs[|xs| - 1] == x then 1 else 0
  }

  lemma OccurrencesAppend<X>(x: X, xs: seq<X>, y: X)
    ensures Occurrences(x, xs + [y]) == Occurrences(x, xs) + if y == x then 1 else 0
  {
    assert (xs + [y])[..|xs|] == xs;
  }

  lemma {:induction false} OccurrencesRemove<X>(x: X, xs: seq<X>, k: nat)
    requires k < |xs|
    ensures Occurrences(x, xs) == Occurrences(x, xs[..k] + xs[k + 1..]) + if xs[k] == x then 1 else 0
  {
    var last := |xs| - 1;
    if k < last {
      OccurrencesRemove(x, xs[..last], k);
      assert xs[..k] + xs[k + 1..] == xs[..last][..k] + xs[..last][k + 1..] + [xs[last]];
      OccurrencesAppend(x, xs[..last][..k] + xs[..last][k + 1..], xs[last]);
    } else {
      assert xs[..k] + xs[k + 1..] == xs[..last];
    }
  }

  /** The concatenation of sequences. */
  function Flatten<X>(xss: seq<seq<X>>): seq<X> {
    if xss == [] then [] else Flatten(xss[..|xss| - 1]) + xss[|xss| - 1]
  }

  lemma FlattenAppend<X>(xss: seq<seq<X>>, xs: seq<X>)
    ensures Flatten(xss + [xs]) == Flatten(xss) + xs
  {
    assert (xss + [xs])[..|xss|] == xss;
  }

  /** The results of mapping each of some sequences. */
  function FlatMapEach<X, Y>(f: X -> seq<Y>, xss: seq<seq<X>>): (yss: seq<seq<Y>>)
    ensures |yss| == |xss|
  {
    if xss == [] then [] else FlatMapEach(f, xss[..|xss| - 1]) + [FlatMap(f, xss[|xss| - 1])]
  }

  lemma {:induction false} FlatMapEachAt<X, Y>(f: X -> seq<Y>, xss: seq<seq<X>>, i: nat)
    requires i < |xss|
    ensures FlatMapEach(f, xss)[i] == FlatMap(f, xss[i])
  {
    if i < |xss| - 1 {
      FlatMapEachAt(f, xss[..|xss| - 1], i);
    }
  }

  lemma FlatMapEachAppend<X, Y>(f: X -> seq<Y>, xss: seq<seq<X>>, xs: seq<X>)
    ensures FlatMapEach(f, xss + [xs]) == FlatMapEach(f, xss) + [FlatMap(f, xs)]
  {
    assert (xss + [xs])[..|xss|] == xss;
  }

  /** Mapping piece by piece is mapping the whole. */
  lemma {:induction false} FlattenOfEach<X, Y>(f: X -> seq<Y>, xss: seq<seq<X>>)
    ensures Flatten(FlatMapEach(f, xss)) == FlatMap(f, Flatten(xss))
  {
    if xss != [] {
      var init, last := xss[..|xss| - 1], xss[|xss| - 1];
      FlattenOfEach(f, init);
      FlattenAppend(FlatMapEach(f, init), FlatMap(f, last));
      FlatMapAppend(f, Flatten(init), last);
    }
  }

  /** The first n elements satisfy p. */
  predicate AllUpTo<X>(p: X -> bool, xs: seq<X>, n: nat)
    requires n <= |xs|
  {
    n == 0 || (AllUpTo(p, xs, n - 1) && p(xs[n - 1]))
  }

  lemma {:induction false} AllUpToIff<X>(p: X -> bool, xs: seq<X>, n: nat)
    requires n <= |xs|
    ensures AllUpTo(p, xs, n) <==> forall k | 0 <= k < n :: p(xs[k])
  {
    if n > 0 {
      AllUpToIff(p, xs, n - 1);
    }
  }

  /** One element that fails settles it. */
  lemma NotAll<X>(p: X -> bool, xs: seq<X>, k: nat)
    requires k < |xs| && !p(xs[k])
    ensures !AllUpTo(p, xs, |xs|)
  {
    AllUpToIff(p, xs, |xs|);
  }
}
