/** A std::map keyed by time, as the strictly sorted sequence of its entries:
    the first entry is begin(), erasing begin() drops it. */
module Timeline {
  import opened Common

  datatype Entry<+V> = Entry(time: int, value: V)

  predicate Sorted<V>(s: seq<Entry<V>>) {
    forall i, j | 0 <= i < j < |s| :: s[i].time < s[j].time
  }

  /** The value stored under a time, if any. */
  function At<V>(s: seq<Entry<V>>, t: int): Option<V> {
    if s == [] then None
    else if s[0].time == t then Some(s[0].value)
    else At(s[1..], t)
  }

  /** Insertion or assignment under a key: m[t] = v. */
  function Put<V>(s: seq<Entry<V>>, t: int, v: V): seq<Entry<V>> {
    if s == [] || t < s[0].time then [Entry(t, v)] + s
    else if t == s[0].time then [Entry(t, v)] + s[1..]
    else [s[0]] + Put(s[1..], t, v)
  }

  lemma {:induction false} PutStores<V>(s: seq<Entry<V>>, t: int, v: V)
    requires Sorted(s)
    ensures Sorted(Put(s, t, v)) && Put(s, t, v) != []
    ensures Put(s, t, v)[0].time == if s == [] || t < s[0].time then t else s[0].time
    ensures At(Put(s, t, v), t) == Some(v)
    ensures forall x :: x != t ==> At(Put(s, t, v), x) == At(s, x)
  {
    if s == [] {
    } else if t < s[0].time {
      AbsentBelow(s, t);
    } else if t > s[0].time {
      PutStores(s[1..], t, v);
      var rest := Put(s[1..], t, v);
      assert forall j | 0 <= j < |rest| :: rest[0].time <= rest[j].time;
    }
  }

  lemma {:induction false} AbsentBelow<V>(s: seq<Entry<V>>, t: int)
    requires Sorted(s)
    requires s != [] ==> t < s[0].time
    ensures At(s, t) == None
  {
    if |s| > 1 {
      AbsentBelow(s[1..], t);
    }
  }

  /** Looking a time up finds the entry that carries it, and nothing else. */
  lemma {:induction false} AtIffEntry<V>(s: seq<Entry<V>>, t: int, v: V)
    requires Sorted(s)
    ensures At(s, t) == Some(v) <==> Entry(t, v) in s
  {
    if s != [] {
      AtIffEntry(s[1..], t, v);
      assert s == [s[0]] + s[1..];
      if s[0].time == t {
        AbsentBelow(s[1..], t);
      }
    }
  }

  /** A sorted timeline is determined by what it stores. */
  lemma {:induction false} Extensional<V>(a: seq<Entry<V>>, b: seq<Entry<V>>)
    requires Sorted(a) && Sorted(b)
    requires forall t :: At(a, t) == At(b, t)
    ensures a == b
  {
    var ta := if a == [] then 0 else a[0].time;
    var tb := if b == [] then 0 else b[0].time;
    assert At(a, ta) == At(b, ta) && At(a, tb) == At(b, tb);
    if a != [] && b != [] {
      if ta < tb {
        AbsentBelow(b, ta);
      } else if tb < ta {
        AbsentBelow(a, tb);
      }
      forall x ensures At(a[1..], x) == At(b[1..], x) {
        assert At(a, x) == At(b, x);
        if x == ta {
          AbsentBelow(a[1..], ta);
          AbsentBelow(b[1..], ta);
        }
      }
      Extensional(a[1..], b[1..]);
      assert a == [a[0]] + a[1..] && b == [b[0]] + b[1..];
    }
  }

  /** Erasing begin() removes exactly the earliest time. */
  lemma DropFirst<V>(s: seq<Entry<V>>, x: int)
    requires Sorted(s) && s != []
    ensures At(s[1..], x) == if x == s[0].time then None else At(s, x)
  {
    if x == s[0].time {
      AbsentBelow(s[1..], x);
    }
  }
}
