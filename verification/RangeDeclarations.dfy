/** The documentation lets a sequence list the names whose ranges it sets as an array; the code asks contains() of it,
    which finds keys of objects only. What loading as documented would be, and when it makes a difference. */
module RangeDeclarations {
  import opened Common
  import opened SequenceTables
  import opened Sequences

  /** The declaration read as documented: a name in the array is declared. */
  function AsDocumented(g: Globals): Globals {
    match g.ranges
    case NameArray(names) => g.(ranges := NameObject(set n | n in names))
    case NameObject(_) => g
  }

  function Documented(s: Sequence): Sequence {
    s.(globals := AsDocumented(s.globals))
  }

  predicate SparesItem(names: seq<string>, item: Item) {
    item.NominalRanges? ==> forall r | r in item.sensors :: r.range.Some? ==> r.sensor !in names
  }

  predicate SparesAction(names: seq<string>, a: Action) {
    forall item | item in a.items :: SparesItem(names, item)
  }

  predicate SparesGroup(names: seq<string>, group: Group) {
    forall a | a in group.actions :: SparesAction(names, a)
  }

  /** No action sets a range for one of the names. */
  predicate Spares(names: seq<string>, s: Sequence) {
    forall group | group in s.data :: SparesGroup(names, group)
  }

  /** Two writers that agree where the second sets no range agree on a list where it sets none. */
  lemma {:induction false} AgreeUnlessRange<X>(f: X -> seq<Write>, h: X -> seq<Write>, xs: seq<X>)
    requires forall x | x in xs :: OnlyDevices(h(x)) ==> f(x) == h(x)
    ensures OnlyDevices(FlatMap(h, xs)) <==> forall x | x in xs :: OnlyDevices(h(x))
    ensures OnlyDevices(FlatMap(h, xs)) ==> FlatMap(f, xs) == FlatMap(h, xs)
  {
    if xs != [] {
      var init, x := xs[..|xs| - 1], xs[|xs| - 1];
      assert xs == init + [x];
      AgreeUnlessRange(f, h, init);
      OnlyDevicesOfBoth(FlatMap(h, init), h(x));
    }
  }

  lemma OnlyDevicesOfBoth(a: seq<Write>, b: seq<Write>)
    ensures OnlyDevices(a + b) <==> OnlyDevices(a) && OnlyDevices(b)
  {
    assert forall w | w in a :: w in a + b;
    assert forall w | w in b :: w in a + b;
  }

  lemma ItemAgrees(g: Globals, time: int, item: Item)
    requires g.ranges.NameArray?
    ensures var f, h := ItemWriter(g, time), ItemWriter(AsDocumented(g), time);
            && (OnlyDevices(h(item)) <==> SparesItem(g.ranges.names, item))
            && (OnlyDevices(h(item)) ==> f(item) == h(item))
  {
    if item.NominalRanges? {
      var f, h := RangeWriter(g, time), RangeWriter(AsDocumented(g), time);
      forall r: SensorRange
        ensures OnlyDevices(h(r)) <==> (r.range.Some? ==> r.sensor !in g.ranges.names)
        ensures OnlyDevices(h(r)) ==> f(r) == h(r)
      {
        assert h(r) != [] ==> h(r)[0] in h(r);
      }
      AgreeUnlessRange(f, h, item.sensors);
    }
  }

  lemma ActionAgrees(g: Globals, base: Stamp, a: Action)
    requires g.ranges.NameArray?
    ensures var f, h := ActionWriter(g, base), ActionWriter(AsDocumented(g), base);
            && (OnlyDevices(h(a)) <==> SparesAction(g.ranges.names, a))
            && (OnlyDevices(h(a)) ==> f(a) == h(a))
  {
    var time := ActionTime(g, base, a);
    assert time == ActionTime(AsDocumented(g), base, a);
    forall item: Item
      ensures OnlyDevices(ItemWriter(AsDocumented(g), time)(item)) <==> SparesItem(g.ranges.names, item)
      ensures OnlyDevices(ItemWriter(AsDocumented(g), time)(item)) ==>
                ItemWriter(g, time)(item) == ItemWriter(AsDocumented(g), time)(item)
    {
      ItemAgrees(g, time, item);
    }
    AgreeUnlessRange(ItemWriter(g, time), ItemWriter(AsDocumented(g), time), a.items);
  }

  lemma GroupAgrees(g: Globals, group: Group)
    requires g.ranges.NameArray?
    ensures var f, h := GroupWriter(g), GroupWriter(AsDocumented(g));
            && (OnlyDevices(h(group)) <==> SparesGroup(g.ranges.names, group))
            && (OnlyDevices(h(group)) ==> f(group) == h(group))
  {
    var f, h := ActionWriter(g, group.stamp), ActionWriter(AsDocumented(g), group.stamp);
    forall a: Action
      ensures OnlyDevices(h(a)) <==> SparesAction(g.ranges.names, a)
      ensures OnlyDevices(h(a)) ==> f(a) == h(a)
    {
      ActionAgrees(g, group.stamp, a);
    }
    AgreeUnlessRange(f, h, group.actions);
  }

  /** Read as documented, an array brings ranges exactly when an action sets one for a listed name; otherwise reading it
      so makes no difference. */
  lemma ArrayBringsRangesIff(s: Sequence)
    requires s.globals.ranges.NameArray?
    ensures Compiled(Documented(s)).ranges == map[] <==> Spares(s.globals.ranges.names, s)
    ensures Spares(s.globals.ranges.names, s) ==> Compiled(s) == Compiled(Documented(s))
  {
    var g := s.globals;
    var f, h := GroupWriter(g), GroupWriter(AsDocumented(g));
    forall group: Group
      ensures OnlyDevices(h(group)) <==> SparesGroup(g.ranges.names, group)
      ensures OnlyDevices(h(group)) ==> f(group) == h(group)
    {
      GroupAgrees(g, group);
    }
    AgreeUnlessRange(f, h, s.data);
    DevicesLeaveRanges(Writes(Documented(s)));
  }

  /** A sequence loads as documented exactly when its names are given as an object, or no action sets a range for one of
      the listed names. */
  lemma LoadsAsDocumentedIff(s: Sequence)
    ensures Compiled(s) == Compiled(Documented(s))
        <==> s.globals.ranges.NameObject? || Spares(s.globals.ranges.names, s)
  {
    if s.globals.ranges.NameArray? {
      ArrayDeclaresNothing(s);
      ArrayBringsRangesIff(s);
    }
  }

  /** One action that sets the range of the one name in the array. */
  function OneRange(name: string, range: Range): Sequence {
    var item := NominalRanges([SensorRange(name, Some(range))]);
    Sequence(Globals(0.0, 1.0, 1.0, map[], NameArray([name])),
             [Group(Number(0.0), [Action(Number(0.0), [item])])])
  }

  lemma OneRangeIsAccepted(name: string, range: Range)
    ensures Accepted(OneRange(name, range))
  {
    var s := OneRange(name, range);
    var item := s.data[0].actions[0].items[0];
    assert AllUpTo(AcceptedRange, item.sensors, 0) && AllUpTo(AcceptedRange, item.sensors, 1);
    assert AllUpTo(AcceptedItem, s.data[0].actions[0].items, 0);
    assert AllUpTo(AcceptsAction(s.globals), s.data[0].actions, 0);
    assert AllUpTo(AcceptsGroup(s.globals), s.data, 0);
  }

  /** It is accepted and declares the name, and its range is lost. */
  lemma ArrayLosesRange(name: string, range: Range)
    ensures var s := OneRange(name, range);
            Accepted(s) && Compiled(s).ranges == map[] && Compiled(Documented(s)).ranges != map[]
  {
    var s := OneRange(name, range);
    var group := s.data[0];
    var a := group.actions[0];
    assert !SparesItem([name], a.items[0]) by {
      assert a.items[0].sensors[0] in a.items[0].sensors;
    }
    assert !SparesAction([name], a) && !SparesGroup([name], group) && !Spares([name], s);
    OneRangeIsAccepted(name, range);
    ArrayDeclaresNothing(s);
    ArrayBringsRangesIff(s);
  }
}
