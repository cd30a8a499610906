/** From profiles to their objects and from a catalog back to its profiles. */
module TopologyProfiles {
  import opened Common
  import opened Topology
  import Orders

  // ----- Items and profiles -----

  function ItemsOf(p: Profile): set<Item> {
    set k | 0 <= k < |p.objects| :: p.objects[k].item
  }

  ghost predicate Belongs(profiles: seq<Profile>, i: int, item: Item) {
    0 <= i < |profiles| && item in ItemsOf(profiles[i])
  }

  /** The items of the profiles with the given names, and no others. */
  function WholeProfiles(profiles: seq<Profile>, names: set<string>): (items: set<Item>)
    ensures forall item :: item in items <==> exists i :: Belongs(profiles, i, item) && profiles[i].name in names
  {
    if profiles == [] then {} else
    var front, last := profiles[..|profiles| - 1], profiles[|profiles| - 1];
    var items := WholeProfiles(front, names) + (if last.name in names then ItemsOf(last) else {});
    assert forall item, i :: Belongs(front, i, item) ==> Belongs(profiles, i, item);
    assert forall item, i :: Belongs(profiles, i, item) ==> Belongs(front, i, item) || i == |profiles| - 1;
    assert forall item :: item in ItemsOf(last) ==> Belongs(profiles, |profiles| - 1, item);
    items
  }

  lemma ItemHasCoordinate(p: Profile, item: Item)
    requires item in ItemsOf(p)
    ensures item.At() in Coordinates(p.objects)
  {
    var k :| 0 <= k < |p.objects| && p.objects[k].item == item;
    assert Coordinates(p.objects)[k] == item.At();
  }

  lemma {:induction false} BelongingHasCoordinate(profiles: seq<Profile>, i: int, item: Item)
    requires Belongs(profiles, i, item)
    ensures item.At() in AllCoordinates(profiles)
  {
    if i == |profiles| - 1 {
      ItemHasCoordinate(profiles[i], item);
    } else {
      BelongingHasCoordinate(profiles[..|profiles| - 1], i, item);
    }
  }

  lemma ApartWhenDistinct<T>(a: seq<T>, b: seq<T>, x: T)
    requires Distinct(a + b) && x in a
    ensures x !in b
  {
    var i :| 0 <= i < |a| && a[i] == x;
    forall j | 0 <= j < |b| ensures b[j] != x {
      assert (a + b)[i] == x && (a + b)[|a| + j] == b[j];
    }
  }

  /** A coordinate determines its item and its profile. */
  lemma {:induction false} OneItem(profiles: seq<Profile>, i: int, x: Item, j: int, y: Item)
    requires Distinct(AllCoordinates(profiles)) && Belongs(profiles, i, x) && Belongs(profiles, j, y) && x.At() == y.At()
    ensures i == j && x == y
  {
    hide Distinct;
    var last := |profiles| - 1;
    var front := profiles[..last];
    var before, own := AllCoordinates(front), Coordinates(profiles[last].objects);
    assert AllCoordinates(profiles) == before + own;
    if i == last && j == last {
      var k :| 0 <= k < |profiles[last].objects| && profiles[last].objects[k].item == x;
      var m :| 0 <= m < |profiles[last].objects| && profiles[last].objects[m].item == y;
      SamePlace(before, own, k, m);
    } else if i == last {
      BelongingHasCoordinate(front, j, y);
      ItemHasCoordinate(profiles[last], x);
      ApartWhenDistinct(before, own, y.At());
    } else if j == last {
      BelongingHasCoordinate(front, i, x);
      ItemHasCoordinate(profiles[last], y);
      ApartWhenDistinct(before, own, x.At());
    } else {
      DistinctPrefix(before + own, before);
      OneItem(front, i, x, j, y);
    }
  }

  lemma SamePlace<T>(a: seq<T>, b: seq<T>, k: nat, m: nat)
    requires Distinct(a + b) && k < |b| && m < |b| && b[k] == b[m]
    ensures k == m
  {
    assert (a + b)[|a| + k] == (a + b)[|a| + m];
  }

  // ----- The objects of some profiles -----

  function OrderKey(o: Object): (string, string, string, string) {
    (o.item.objectType, o.item.name, o.item.tableName, o.profile)
  }

  predicate KeyBefore(x: (string, string, string, string), y: (string, string, string, string)) {
    Before(x.0, y.0) || (x.0 == y.0 &&
    (Before(x.1, y.1) || (x.1 == y.1 &&
    (Before(x.2, y.2) || (x.2 == y.2 && Before(x.3, y.3))))))
  }

  predicate ObjectBefore(x: Object, y: Object) {
    KeyBefore(OrderKey(x), OrderKey(y))
  }

  /** `profile`: the profile with a name. */
  function Find(profiles: seq<Profile>, name: string): (p: Option<Profile>)
    ensures p.None? <==> name !in Names(profiles)
    ensures p.Some? ==> exists i :: 0 <= i < |profiles| && profiles[i] == p.value && p.value.name == name
  {
    if profiles == [] then None
    else if profiles[0].name == name then Some(profiles[0])
    else
      assert Names(profiles) == [profiles[0].name] + Names(profiles[1..]);
      assert forall i | 0 <= i < |profiles[1..]| :: profiles[1..][i] == profiles[i + 1];
      Find(profiles[1..], name)
  }

  function Expanded(profiles: seq<Profile>, names: seq<string>): Option<seq<Object>> {
    if names == [] then Some([]) else
    var before := Expanded(profiles, names[..|names| - 1]);
    var p := Find(profiles, names[|names| - 1]);
    if before.None? || p.None? then None else Some(before.value + p.value.objects)
  }

  /** `objects_for_profiles`. */
  function ObjectsForProfiles(profiles: seq<Profile>, names: seq<string>): Outcome<seq<Object>> {
    if |names| > MAX_PROFILE_COUNT then Raised(TooMany)
    else if !Distinct(names) then Raised(DuplicateName)
    else
      var objects := Expanded(profiles, names);
      if objects.None? then Raised(UnknownProfile) else Ok(Orders.Sorted(ObjectBefore, objects.value))
  }

  lemma KeyBeforeIsStrictTotal(x: (string, string, string, string), y: (string, string, string, string))
    ensures !(KeyBefore(x, y) && KeyBefore(y, x))
    ensures x == y || KeyBefore(x, y) || KeyBefore(y, x)
  {
    hide Before;
    BeforeIsStrict(x.0, y.0);
    BeforeIsStrict(x.1, y.1);
    BeforeIsStrict(x.2, y.2);
    BeforeIsStrict(x.3, y.3);
    BeforeIsTotal(x.0, y.0);
    BeforeIsTotal(x.1, y.1);
    BeforeIsTotal(x.2, y.2);
    BeforeIsTotal(x.3, y.3);
  }

  lemma KeyBeforeIsTransitive(
      x: (string, string, string, string), y: (string, string, string, string), z: (string, string, string, string))
    requires KeyBefore(x, y) && KeyBefore(y, z)
    ensures KeyBefore(x, z)
  {
    hide Before;
    if Before(x.0, y.0) && Before(y.0, z.0) {
      BeforeIsTransitive(x.0, y.0, z.0);
    }
    if Before(x.1, y.1) && Before(y.1, z.1) {
      BeforeIsTransitive(x.1, y.1, z.1);
    }
    if Before(x.2, y.2) && Before(y.2, z.2) {
      BeforeIsTransitive(x.2, y.2, z.2);
    }
    if Before(x.3, y.3) && Before(y.3, z.3) {
      BeforeIsTransitive(x.3, y.3, z.3);
    }
  }

  lemma ObjectOrder()
    ensures Orders.StrictWeak(ObjectBefore)
  {
    hide KeyBefore;
    forall x, y | ObjectBefore(x, y) ensures !ObjectBefore(y, x) {
      KeyBeforeIsStrictTotal(OrderKey(x), OrderKey(y));
    }
    forall x, y, z | ObjectBefore(x, z) ensures ObjectBefore(x, y) || ObjectBefore(y, z) {
      KeyBeforeIsStrictTotal(OrderKey(x), OrderKey(y));
      if KeyBefore(OrderKey(y), OrderKey(x)) {
        KeyBeforeIsTransitive(OrderKey(y), OrderKey(x), OrderKey(z));
      }
    }
  }

  /** The objects come in canonical order, each as often as the profiles list it. */
  lemma ObjectsComeInOrder(profiles: seq<Profile>, names: seq<string>)
    ensures var r := ObjectsForProfiles(profiles, names);
      r.Ok? ==> Orders.NonDecreasing(ObjectBefore, r.value) && multiset(r.value) == multiset(Expanded(profiles, names).value)
  {
    hide Expanded, Distinct, ObjectBefore;
    ObjectOrder();
    if Expanded(profiles, names).Some? {
      Orders.SortedIsNonDecreasing(ObjectBefore, Expanded(profiles, names).value);
    }
  }

  /** The catalog that holds some objects. */
  function Catalog(objects: seq<Object>): (items: seq<Item>)
    ensures |items| == |objects| && forall i | 0 <= i < |objects| :: items[i] == objects[i].item
  {
    seq(|objects|, i requires 0 <= i < |objects| => objects[i].item)
  }

  function ItemSet(catalog: seq<Item>): set<Item> {
    set item | item in catalog
  }

  lemma {:induction false} FindIsUnique(profiles: seq<Profile>, i: nat)
    requires i < |profiles| && Distinct(Names(profiles))
    ensures Find(profiles, profiles[i].name) == Some(profiles[i])
  {
    var p := Find(profiles, profiles[i].name);
    assert Names(profiles)[i] == profiles[i].name;
    var j :| 0 <= j < |profiles| && profiles[j] == p.value && profiles[j].name == profiles[i].name;
    assert Names(profiles)[j] == Names(profiles)[i];
  }

  lemma {:induction false} ExpandedItems(profiles: seq<Profile>, names: seq<string>)
    requires Distinct(Names(profiles)) && forall k | 0 <= k < |names| :: names[k] in Names(profiles)
    ensures Expanded(profiles, names).Some?
    ensures ItemSet(Catalog(Expanded(profiles, names).value)) == WholeProfiles(profiles, set n | n in names)
  {
    hide Distinct, WholeProfiles;
    if names == [] {
      assert ItemSet(Catalog([])) == {};
    } else {
      var front, name := names[..|names| - 1], names[|names| - 1];
      assert names == front + [name];
      ExpandedItems(profiles, front);
      var before := Expanded(profiles, front).value;
      var i :| 0 <= i < |profiles| && Names(profiles)[i] == name;
      FindIsUnique(profiles, i);
      var p := profiles[i];
      ItemsOfJoin(before, p.objects);
      ItemsOfProfile(p);
      OneMoreProfile(profiles, (set n | n in front), i);
      assert (set n | n in names) == (set n | n in front) + {name};
    }
  }

  lemma ItemsOfJoin(a: seq<Object>, b: seq<Object>)
    ensures ItemSet(Catalog(a + b)) == ItemSet(Catalog(a)) + ItemSet(Catalog(b))
  {
    assert Catalog(a + b) == Catalog(a) + Catalog(b);
  }

  lemma ItemsOfProfile(p: Profile)
    ensures ItemSet(Catalog(p.objects)) == ItemsOf(p)
  {
    forall item | item in ItemsOf(p) ensures item in Catalog(p.objects) {
      var k :| 0 <= k < |p.objects| && p.objects[k].item == item;
      assert Catalog(p.objects)[k] == item;
    }
  }

  lemma OneMoreProfile(profiles: seq<Profile>, names: set<string>, i: nat)
    requires i < |profiles| && Distinct(Names(profiles))
    ensures WholeProfiles(profiles, names + {profiles[i].name}) == WholeProfiles(profiles, names) + ItemsOf(profiles[i])
  {
    var more := WholeProfiles(profiles, names + {profiles[i].name});
    forall item ensures item in more <==> item in WholeProfiles(profiles, names) + ItemsOf(profiles[i]) {
      if item in more {
        var j :| Belongs(profiles, j, item) && profiles[j].name in names + {profiles[i].name};
        if profiles[j].name !in names {
          assert Names(profiles)[j] == Names(profiles)[i];
        }
      }
      if item in ItemsOf(profiles[i]) {
        assert Belongs(profiles, i, item);
      }
    }
  }

  lemma SortedItems(objects: seq<Object>)
    ensures ItemSet(Catalog(Orders.Sorted(ObjectBefore, objects))) == ItemSet(Catalog(objects))
  {
    SameItems(Orders.Sorted(ObjectBefore, objects), objects);
  }

  lemma SameItems(xs: seq<Object>, ys: seq<Object>)
    requires multiset(xs) == multiset(ys)
    ensures ItemSet(Catalog(xs)) == ItemSet(Catalog(ys))
  {
    SomeItems(xs, ys);
    SomeItems(ys, xs);
  }

  lemma SomeItems(xs: seq<Object>, ys: seq<Object>)
    requires multiset(xs) == multiset(ys)
    ensures ItemSet(Catalog(xs)) <= ItemSet(Catalog(ys))
  {
    forall item | item in Catalog(xs) ensures item in Catalog(ys) {
      var i :| 0 <= i < |xs| && Catalog(xs)[i] == item;
      assert xs[i] in multiset(ys);
      assert xs[i] in ys;
      var j :| 0 <= j < |ys| && ys[j] == xs[i];
      assert Catalog(ys)[j] == item;
    }
  }

  // ----- Classification -----

  /** The registry's items by coordinate. */
  function Trusted(profiles: seq<Profile>): (trusted: map<Coordinate, Item>)
    requires Distinct(AllCoordinates(profiles))
    ensures forall c :: c in trusted ==> trusted[c].At() == c && exists i :: Belongs(profiles, i, trusted[c])
    ensures forall i, item :: Belongs(profiles, i, item) ==> item.At() in trusted && trusted[item.At()] == item
  {
    var items := WholeProfiles(profiles, set n | n in Names(profiles));
    assert forall i, item :: Belongs(profiles, i, item) ==> profiles[i].name == Names(profiles)[i] && item in items;
    forall x, y | x in items && y in items && x.At() == y.At() ensures x == y {
      var i :| Belongs(profiles, i, x);
      var j :| Belongs(profiles, j, y);
      OneItem(profiles, i, x, j, y);
    }
    map item | item in items :: item.At() := item
  }

  /** The profiles that have objects, all of them among some items. */
  function Present(profiles: seq<Profile>, items: set<Item>): seq<string> {
    if profiles == [] then [] else
    var last := profiles[|profiles| - 1];
    Present(profiles[..|profiles| - 1], items) + (if ItemsOf(last) != {} && ItemsOf(last) <= items then [last.name] else [])
  }

  /** The items are exactly those of some whole profiles. */
  ghost predicate IsWhole(profiles: seq<Profile>, items: set<Item>) {
    exists names: set<string> :: items == WholeProfiles(profiles, names)
  }

  /** A profile that a union of whole profiles touches lies in it as a whole. */
  lemma TouchedIsWhole(profiles: seq<Profile>, names: set<string>, i: int, x: Item)
    requires Distinct(AllCoordinates(profiles)) && Belongs(profiles, i, x) && x in WholeProfiles(profiles, names)
    ensures profiles[i].name in names && ItemsOf(profiles[i]) <= WholeProfiles(profiles, names)
  {
    hide Distinct;
    var j :| Belongs(profiles, j, x) && profiles[j].name in names;
    OneItem(profiles, i, x, j, x);
    forall y | y in ItemsOf(profiles[i]) ensures y in WholeProfiles(profiles, names) {
      assert Belongs(profiles, i, y);
    }
  }

  lemma {:induction false} PresentMembers(profiles: seq<Profile>, items: set<Item>, name: string)
    ensures name in Present(profiles, items) <==>
      exists i :: 0 <= i < |profiles| && profiles[i].name == name && ItemsOf(profiles[i]) != {} && ItemsOf(profiles[i]) <= items
  {
    if profiles != [] {
      var last := |profiles| - 1;
      PresentMembers(profiles[..last], items, name);
      if name in Present(profiles, items) && name !in Present(profiles[..last], items) {
        assert profiles[last].name == name;
      }
    }
  }

  lemma {:induction false} PresentIsIncreasing(profiles: seq<Profile>, items: set<Item>)
    requires NamesIncreasing(profiles)
    ensures Orders.Increasing(Before, Present(profiles, items))
  {
    if profiles != [] {
      var front, last := profiles[..|profiles| - 1], profiles[|profiles| - 1];
      PresentIsIncreasing(front, items);
      forall k | 0 <= k < |Present(front, items)| ensures Before(Present(front, items)[k], last.name) {
        PresentMembers(front, items, Present(front, items)[k]);
      }
    }
  }

  lemma BeforeIsStrictTotal()
    ensures Orders.StrictTotal(Before)
  {
    forall x, y ensures !Before(x, x) && (x == y || Before(x, y) || Before(y, x)) {
      BeforeIsStrict(x, x);
      BeforeIsTotal(x, y);
    }
    forall x, y, z | Before(x, y) && Before(y, z) ensures Before(x, z) {
      BeforeIsTransitive(x, y, z);
    }
  }

  /** Classifying the items of some profiles that have objects gives back exactly these profiles, in name order. */
  lemma PresentInvertsWhole(profiles: seq<Profile>, names: set<string>)
    requires WellNamed(profiles)
    requires forall n | n in names :: exists i :: 0 <= i < |profiles| && profiles[i].name == n && ItemsOf(profiles[i]) != {}
    ensures forall n :: n in Present(profiles, WholeProfiles(profiles, names)) <==> n in names
    ensures Orders.Increasing(Before, Present(profiles, WholeProfiles(profiles, names)))
  {
    hide Distinct, WholeProfiles, Before;
    var items := WholeProfiles(profiles, names);
    PresentIsIncreasing(profiles, items);
    forall n ensures n in Present(profiles, items) <==> n in names {
      PresentMembers(profiles, items, n);
      if n in Present(profiles, items) {
        var i :| 0 <= i < |profiles| && profiles[i].name == n && ItemsOf(profiles[i]) != {} && ItemsOf(profiles[i]) <= items;
        var x :| x in ItemsOf(profiles[i]);
        assert Belongs(profiles, i, x);
        TouchedIsWhole(profiles, names, i, x);
      }
      if n in names {
        var i :| 0 <= i < |profiles| && profiles[i].name == n && ItemsOf(profiles[i]) != {};
        forall x | x in ItemsOf(profiles[i]) ensures x in items {
          assert Belongs(profiles, i, x);
        }
      }
    }
  }
}
