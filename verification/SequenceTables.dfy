/** The tables LoadSequence of src/SequenceManager.cpp fills: one schedule per device, and the nominal
    sensor ranges twice, indexed by sensor and by time. */
module SequenceTables {
  import opened Common
  import opened Timeline
  import opened Interpolation

  datatype Range = Range(low: real, high: real)

  datatype Tables = Tables(
    devices: map<string, Schedule>,
    ranges: map<string, seq<Entry<Range>>>,
    rangeTimes: seq<Entry<map<string, Range>>>)

  const EMPTY_TABLES := Tables(map[], map[], [])

  ghost predicate Valid(t: Tables) {
    && (forall d | d in t.devices :: t.devices[d] != [] && Sorted(t.devices[d]))
    && (forall s | s in t.ranges :: t.ranges[s] != [] && Sorted(t.ranges[s]))
    && Sorted(t.rangeTimes)
    && (forall e | e in t.rangeTimes :: e.value != map[])
  }

  function DeviceAt(t: Tables, device: string, time: int): Option<Values> {
    if device in t.devices then At(t.devices[device], time) else None
  }

  function RangeAt(t: Tables, sensor: string, time: int): Option<Range> {
    if sensor in t.ranges then At(t.ranges[sensor], time) else None
  }

  /** The range of a sensor as the table indexed by time knows it. */
  function RangeAtTime(t: Tables, sensor: string, time: int): Option<Range> {
    match At(t.rangeTimes, time)
    case None => None
    case Some(m) => if sensor in m then Some(m[sensor]) else None
  }

  /** The two range tables hold the same (sensor, time, bounds) triples. */
  ghost predicate Dual(t: Tables) {
    forall s, x :: RangeAt(t, s, x) == RangeAtTime(t, s, x)
  }

  /** One assignment into the tables. */
  datatype Write =
    | DeviceWrite(name: string, time: int, values: Values)
    | RangeWrite(name: string, time: int, range: Range)

  function Slot<V>(m: map<string, seq<Entry<V>>>, name: string): seq<Entry<V>> {
    if name in m then m[name] else []
  }

  function SlotAt(rangeTimes: seq<Entry<map<string, Range>>>, time: int): map<string, Range> {
    match At(rangeTimes, time)
    case None => map[]
    case Some(m) => m
  }

  function Apply(t: Tables, w: Write): Tables {
    match w
    case DeviceWrite(d, x, v) => t.(devices := t.devices[d := Put(Slot(t.devices, d), x, v)])
    case RangeWrite(s, x, r) =>
      t.(ranges := t.ranges[s := Put(Slot(t.ranges, s), x, r)],
         rangeTimes := Put(t.rangeTimes, x, SlotAt(t.rangeTimes, x)[s := r]))
  }

  lemma ApplyKeepsValid(t: Tables, w: Write)
    requires Valid(t)
    ensures Valid(Apply(t, w))
  {
    PutStores(Slot(t.devices, w.name), w.time, if w.DeviceWrite? then w.values else []);
    if w.RangeWrite? {
      PutStores(Slot(t.ranges, w.name), w.time, w.range);
      PutStores(t.rangeTimes, w.time, SlotAt(t.rangeTimes, w.time)[w.name := w.range]);
      var m := SlotAt(t.rangeTimes, w.time)[w.name := w.range];
      assert w.name in m;
      forall e | e in Apply(t, w).rangeTimes ensures e.value != map[] {
        AtIffEntry(Apply(t, w).rangeTimes, e.time, e.value);
        AtIffEntry(t.rangeTimes, e.time, e.value);
      }
    }
  }

  /** All writes in order. */
  function ApplyAll(t: Tables, ws: seq<Write>): Tables {
    if ws == [] then t else Apply(ApplyAll(t, ws[..|ws| - 1]), ws[|ws| - 1])
  }

  lemma {:induction false} ApplyAllValid(t: Tables, ws: seq<Write>)
    requires Valid(t)
    ensures Valid(ApplyAll(t, ws))
  {
    if ws != [] {
      ApplyAllValid(t, ws[..|ws| - 1]);
      ApplyKeepsValid(ApplyAll(t, ws[..|ws| - 1]), ws[|ws| - 1]);
    }
  }

  lemma {:induction false} ApplyAllAppend(t: Tables, a: seq<Write>, b: seq<Write>)
    ensures ApplyAll(t, a + b) == ApplyAll(ApplyAll(t, a), b)
  {
    if b == [] {
      assert a + b == a;
    } else {
      assert (a + b)[..|a + b| - 1] == a + b[..|b| - 1];
      ApplyAllAppend(t, a, b[..|b| - 1]);
    }
  }

  /** What a loader has written that handles the first n elements of a list one after the other. */
  function ApplyUpTo<X>(t: Tables, f: X -> seq<Write>, xs: seq<X>, n: nat): Tables
    requires n <= |xs|
  {
    if n == 0 then t else ApplyAll(ApplyUpTo(t, f, xs, n - 1), f(xs[n - 1]))
  }

  lemma {:induction false} ApplyUpToPrefix<X>(t: Tables, f: X -> seq<Write>, xs: seq<X>, n: nat)
    requires n <= |xs|
    ensures ApplyUpTo(t, f, xs, n) == ApplyAll(t, FlatMap(f, xs[..n]))
  {
    if n == 0 {
      assert xs[..0] == [];
    } else {
      ApplyUpToPrefix(t, f, xs, n - 1);
      FlatMapStep(f, xs, n - 1);
      ApplyAllAppend(t, FlatMap(f, xs[..n - 1]), f(xs[n - 1]));
      assert ApplyUpTo(t, f, xs, n) == ApplyAll(ApplyUpTo(t, f, xs, n - 1), f(xs[n - 1]));
    }
  }

  lemma ApplyUpToAll<X>(t: Tables, f: X -> seq<Write>, xs: seq<X>)
    ensures ApplyUpTo(t, f, xs, |xs|) == ApplyAll(t, FlatMap(f, xs))
  {
    ApplyUpToPrefix(t, f, xs, |xs|);
    assert xs[..|xs|] == xs;
  }

  lemma ApplyOne(t: Tables, w: Write)
    ensures ApplyAll(t, [w]) == Apply(t, w)
  {
    assert [w][..0] == [];
  }

  // ------------------------------------------------------------- last write wins

  /** Same table, same name, same time. */
  predicate SameKey(v: Write, w: Write) {
    v.DeviceWrite? == w.DeviceWrite? && v.name == w.name && v.time == w.time
  }

  /** The last write with the key of `key`. */
  function LastWrite(ws: seq<Write>, key: Write): Option<Write> {
    if ws == [] then None
    else if SameKey(ws[|ws| - 1], key) then Some(ws[|ws| - 1])
    else LastWrite(ws[..|ws| - 1], key)
  }

  /** What the tables hold under the key of a write, as a write. */
  function Stored(t: Tables, key: Write): Option<Write> {
    match key
    case DeviceWrite(d, x, _) =>
      (match DeviceAt(t, d, x) case None => None case Some(v) => Some(DeviceWrite(d, x, v)))
    case RangeWrite(s, x, _) =>
      (match RangeAt(t, s, x) case None => None case Some(r) => Some(RangeWrite(s, x, r)))
  }

  lemma ApplyStores(t: Tables, w: Write, key: Write)
    requires Valid(t)
    ensures Stored(Apply(t, w), key) == if SameKey(w, key) then Some(w) else Stored(t, key)
  {
    match w
    case DeviceWrite(d, x, v) => PutStores(Slot(t.devices, d), x, v);
    case RangeWrite(s, x, r) => PutStores(Slot(t.ranges, s), x, r);
  }

  /** Loading is a last-wins merge: each key holds exactly its final write. */
  lemma {:induction false} LoadIsLastWins(ws: seq<Write>, key: Write)
    ensures Stored(ApplyAll(EMPTY_TABLES, ws), key) == LastWrite(ws, key)
  {
    if ws != [] {
      LoadIsLastWins(ws[..|ws| - 1], key);
      ApplyAllValid(EMPTY_TABLES, ws[..|ws| - 1]);
      ApplyStores(ApplyAll(EMPTY_TABLES, ws[..|ws| - 1]), ws[|ws| - 1], key);
    }
  }

  lemma ApplyKeepsDual(t: Tables, w: Write)
    requires Valid(t) && Dual(t)
    ensures Dual(Apply(t, w))
  {
    if w.RangeWrite? {
      PutStores(Slot(t.ranges, w.name), w.time, w.range);
      PutStores(t.rangeTimes, w.time, SlotAt(t.rangeTimes, w.time)[w.name := w.range]);
    }
    forall s, x ensures RangeAt(Apply(t, w), s, x) == RangeAtTime(Apply(t, w), s, x) {
      assert RangeAt(t, s, x) == RangeAtTime(t, s, x);
    }
  }

  /** Every load leaves the two range tables in step. */
  lemma {:induction false} LoadIsDual(ws: seq<Write>)
    ensures Dual(ApplyAll(EMPTY_TABLES, ws))
  {
    if ws != [] {
      LoadIsDual(ws[..|ws| - 1]);
      ApplyAllValid(EMPTY_TABLES, ws[..|ws| - 1]);
      ApplyKeepsDual(ApplyAll(EMPTY_TABLES, ws[..|ws| - 1]), ws[|ws| - 1]);
    }
  }

  // ------------------------------------------------------- when the order matters

  /** No two different writes share a key. */
  ghost predicate NoCollision(ws: seq<Write>) {
    forall v, w | v in ws && w in ws && SameKey(v, w) :: v == w
  }

  lemma {:induction false} LastWriteIsWritten(ws: seq<Write>, key: Write)
    ensures LastWrite(ws, key).Some? ==> LastWrite(ws, key).value in ws && SameKey(LastWrite(ws, key).value, key)
    ensures forall w | w in ws && SameKey(w, key) :: LastWrite(ws, key).Some?
  {
    if ws != [] {
      LastWriteIsWritten(ws[..|ws| - 1], key);
      assert ws == ws[..|ws| - 1] + [ws[|ws| - 1]];
    }
  }

  /** Tables are determined by what they store. */
  lemma TablesExtensional(a: Tables, b: Tables)
    requires Valid(a) && Valid(b) && Dual(a) && Dual(b)
    requires forall key :: Stored(a, key) == Stored(b, key)
    ensures a == b
  {
    forall d, x ensures At(Slot(a.devices, d), x) == At(Slot(b.devices, d), x) {
      assert Stored(a, DeviceWrite(d, x, [])) == Stored(b, DeviceWrite(d, x, []));
    }
    forall s, x ensures At(Slot(a.ranges, s), x) == At(Slot(b.ranges, s), x) {
      assert Stored(a, RangeWrite(s, x, Range(0.0, 0.0))) == Stored(b, RangeWrite(s, x, Range(0.0, 0.0)));
    }
    SlotsExtensional(a.devices, b.devices);
    SlotsExtensional(a.ranges, b.ranges);
    TimesExtensional(a, b);
  }

  lemma SlotsExtensional<V(!new)>(a: map<string, seq<Entry<V>>>, b: map<string, seq<Entry<V>>>)
    requires forall n | n in a :: a[n] != [] && Sorted(a[n])
    requires forall n | n in b :: b[n] != [] && Sorted(b[n])
    requires forall n, x :: At(Slot(a, n), x) == At(Slot(b, n), x)
    ensures a == b
  {
    forall n ensures Slot(a, n) == Slot(b, n) {
      Extensional(Slot(a, n), Slot(b, n));
    }
    assert forall n :: n in a <==> Slot(a, n) != [];
    assert forall n :: n in b <==> Slot(b, n) != [];
    assert a.Keys == b.Keys;
  }

  lemma TimesExtensional(a: Tables, b: Tables)
    requires Valid(a) && Valid(b) && Dual(a) && Dual(b) && a.ranges == b.ranges
    ensures a.rangeTimes == b.rangeTimes
  {
    forall x ensures At(a.rangeTimes, x) == At(b.rangeTimes, x) {
      var m, n := SlotAt(a.rangeTimes, x), SlotAt(b.rangeTimes, x);
      forall s ensures RangeAtTime(a, s, x) == RangeAtTime(b, s, x) {
        assert RangeAt(a, s, x) == RangeAt(b, s, x);
      }
      assert forall s :: s in m <==> RangeAtTime(a, s, x).Some?;
      assert forall s :: s in n <==> RangeAtTime(b, s, x).Some?;
      assert m == n;
      AtIffEntry(a.rangeTimes, x, m);
      AtIffEntry(b.rangeTimes, x, n);
    }
    Extensional(a.rangeTimes, b.rangeTimes);
  }

  /** Reordering writes without collisions yields the same tables. */
  lemma ReorderingKeepsTables(ws: seq<Write>, perm: seq<Write>)
    requires NoCollision(ws) && multiset(ws) == multiset(perm)
    ensures ApplyAll(EMPTY_TABLES, ws) == ApplyAll(EMPTY_TABLES, perm)
  {
    var a, b := ApplyAll(EMPTY_TABLES, ws), ApplyAll(EMPTY_TABLES, perm);
    LoadIsDual(ws);
    LoadIsDual(perm);
    ApplyAllValid(EMPTY_TABLES, ws);
    ApplyAllValid(EMPTY_TABLES, perm);
    forall key ensures Stored(a, key) == Stored(b, key) {
      LoadIsLastWins(ws, key);
      LoadIsLastWins(perm, key);
      SameLastWrite(ws, perm, key);
    }
    TablesExtensional(a, b);
  }

  lemma SameLastWrite(ws: seq<Write>, perm: seq<Write>, key: Write)
    requires NoCollision(ws) && multiset(ws) == multiset(perm)
    ensures LastWrite(ws, key) == LastWrite(perm, key)
  {
    LastWriteIsWritten(ws, key);
    LastWriteIsWritten(perm, key);
    var v, w := LastWrite(ws, key), LastWrite(perm, key);
    if v.Some? {
      assert v.value in multiset(perm);
      assert v.value in perm;
    }
    if w.Some? {
      assert w.value in multiset(ws);
      assert w.value in ws;
      assert SameKey(v.value, w.value);
    }
  }

  /** The order of the writes never matters exactly when no two different writes share a key. */
  lemma OrderIsIrrelevantIff(ws: seq<Write>)
    ensures NoCollision(ws)
        <==> forall perm | multiset(perm) == multiset(ws) :: ApplyAll(EMPTY_TABLES, perm) == ApplyAll(EMPTY_TABLES, ws)
  {
    if NoCollision(ws) {
      forall perm | multiset(perm) == multiset(ws) ensures ApplyAll(EMPTY_TABLES, perm) == ApplyAll(EMPTY_TABLES, ws) {
        ReorderingKeepsTables(ws, perm);
      }
    } else {
      var v, w :| v in ws && w in ws && SameKey(v, w) && v != w;
      var p, q := MovedLast(ws, v), MovedLast(ws, w);
      LoadIsLastWins(p, v);
      LoadIsLastWins(q, v);
      assert Stored(ApplyAll(EMPTY_TABLES, p), v) != Stored(ApplyAll(EMPTY_TABLES, q), v);
    }
  }

  function MovedLast(ws: seq<Write>, w: Write): (r: seq<Write>)
    requires w in ws
    ensures multiset(r) == multiset(ws) && r != [] && r[|r| - 1] == w
  {
    Without(ws, w) + [w]
  }

  function Without(ws: seq<Write>, w: Write): (r: seq<Write>)
    requires w in ws
    ensures multiset(r) + multiset{w} == multiset(ws)
  {
    var init, last := ws[..|ws| - 1], ws[|ws| - 1];
    assert ws == init + [last];
    if last == w then init else Without(init, w) + [last]
  }
}
