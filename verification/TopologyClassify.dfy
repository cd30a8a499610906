/** `_classify_profiles`: which whole profiles a catalog consists of. */
module TopologyClassify {
  import opened Common
  import opened Topology
  import opened TopologyProfiles
  import Orders

  function CoordinatesOf(p: Profile): set<Coordinate> {
    set k | 0 <= k < |p.objects| :: p.objects[k].item.At()
  }

  /** The coordinates of the profiles whose names are listed. */
  function PresentCoordinates(profiles: seq<Profile>, present: seq<string>): set<Coordinate> {
    set i, k | 0 <= i < |profiles| && profiles[i].name in present && 0 <= k < |profiles[i].objects| :: profiles[i].objects[k].item.At()
  }

  lemma CoordinateOfItem(p: Profile, c: Coordinate)
    ensures c in CoordinatesOf(p) <==> exists item :: item in ItemsOf(p) && item.At() == c
  {
    if c in CoordinatesOf(p) {
      var k :| 0 <= k < |p.objects| && p.objects[k].item.At() == c;
      assert p.objects[k].item in ItemsOf(p);
    }
  }

  /** Seen items: every one is trusted, and `actual` holds their coordinates. */
  ghost predicate AllTrusted(profiles: seq<Profile>, items: set<Item>, actual: set<Coordinate>) {
    && (forall x | x in items :: x.At() in actual && exists i :: Belongs(profiles, i, x))
    && (forall c | c in actual :: exists x :: x in items && x.At() == c)
  }

  /** Among trusted items, a profile's coordinate is present exactly when its item is. */
  lemma CoordinateMeansItem(profiles: seq<Profile>, items: set<Item>, actual: set<Coordinate>, i: int, x: Item)
    requires Distinct(AllCoordinates(profiles)) && AllTrusted(profiles, items, actual) && Belongs(profiles, i, x)
    ensures x.At() in actual <==> x in items
  {
    hide Distinct;
    if x.At() in actual {
      var y :| y in items && y.At() == x.At();
      var j :| Belongs(profiles, j, y);
      OneItem(profiles, i, x, j, y);
    }
  }

  lemma ObservedItems(profiles: seq<Profile>, items: set<Item>, actual: set<Coordinate>, i: nat)
    requires Distinct(AllCoordinates(profiles)) && AllTrusted(profiles, items, actual) && i < |profiles|
    ensures CoordinatesOf(profiles[i]) * actual == {} <==> ItemsOf(profiles[i]) * items == {}
    ensures CoordinatesOf(profiles[i]) * actual == CoordinatesOf(profiles[i]) <==> ItemsOf(profiles[i]) <= items
  {
    hide Distinct, AllTrusted, CoordinatesOf, ItemsOf;
    var p := profiles[i];
    forall x | x in ItemsOf(p) ensures x.At() in CoordinatesOf(p) && (x.At() in actual <==> x in items) {
      CoordinateOfItem(p, x.At());
      CoordinateMeansItem(profiles, items, actual, i, x);
    }
    forall c | c in CoordinatesOf(p) ensures exists x :: x in ItemsOf(p) && x.At() == c {
      CoordinateOfItem(p, c);
    }
    if ItemsOf(p) * items != {} {
      var x :| x in ItemsOf(p) && x in items;
      assert x.At() in CoordinatesOf(p) * actual;
    }
    if CoordinatesOf(p) * actual != {} {
      var c :| c in CoordinatesOf(p) * actual;
      var x :| x in ItemsOf(p) && x.At() == c;
      assert x in ItemsOf(p) * items;
    }
    if CoordinatesOf(p) * actual == CoordinatesOf(p) {
      forall x | x in ItemsOf(p) ensures x in items {
        assert x.At() in CoordinatesOf(p) * actual;
      }
    }
  }

  /** The catalog loop: the coordinates of a catalog of trusted items, or its first stranger. */
  method CollectTrusted(profiles: seq<Profile>, catalog: seq<Item>) returns (r: Outcome<set<Coordinate>>)
    requires Distinct(AllCoordinates(profiles))
    ensures r.Ok? <==> forall x | x in catalog :: exists i :: Belongs(profiles, i, x)
    ensures r.Ok? ==> AllTrusted(profiles, ItemSet(catalog), r.value)
  {
    hide Distinct, Belongs;
    var trusted := Trusted(profiles);
    var actual: set<Coordinate> := {};
    for i := 0 to |catalog|
      invariant AllTrusted(profiles, ItemSet(catalog[..i]), actual)
    {
      var item := catalog[i];
      assert item in catalog;
      assert ItemSet(catalog[..i + 1]) == ItemSet(catalog[..i]) + {item};
      if item.At() !in trusted {
        assert forall j :: !Belongs(profiles, j, item);
        return Raised(UnknownObject);
      }
      if item.tableName != trusted[item.At()].tableName || item.ddl != trusted[item.At()].ddl {
        assert forall j :: !Belongs(profiles, j, item);
        return Raised(Drift);
      }
      assert item == trusted[item.At()];
      TrustOneMore(profiles, ItemSet(catalog[..i]), actual, item);
      actual := actual + {item.At()};
    }
    assert catalog[..|catalog|] == catalog;
    assert forall x | x in catalog :: x in ItemSet(catalog);
    return Ok(actual);
  }

  lemma TrustOneMore(profiles: seq<Profile>, items: set<Item>, actual: set<Coordinate>, x: Item)
    requires AllTrusted(profiles, items, actual) && exists i :: Belongs(profiles, i, x)
    ensures AllTrusted(profiles, items + {x}, actual + {x.At()})
  {
    hide Belongs;
    forall c | c in actual + {x.At()} ensures exists y :: y in items + {x} && y.At() == c {
      if c == x.At() {
        assert x in items + {x};
      } else {
        var y :| y in items && y.At() == c;
        assert y in items + {x};
      }
    }
  }

  ghost predicate Partial(profiles: seq<Profile>, items: set<Item>, i: nat) {
    i < |profiles| && ItemsOf(profiles[i]) * items != {} && !(ItemsOf(profiles[i]) <= items)
  }

  lemma PartialIsNotWhole(profiles: seq<Profile>, items: set<Item>, i: nat)
    requires Distinct(AllCoordinates(profiles)) && Partial(profiles, items, i)
    ensures !IsWhole(profiles, items)
  {
    hide Distinct, WholeProfiles;
    var x :| x in ItemsOf(profiles[i]) && x in items;
    forall names: set<string> ensures items != WholeProfiles(profiles, names) {
      if x in WholeProfiles(profiles, names) {
        TouchedIsWhole(profiles, names, i, x);
      }
    }
  }

  /** The profile loop: the present profiles, or the first that is there only in part. */
  method CollectPresent(profiles: seq<Profile>, actual: set<Coordinate>, ghost items: set<Item>)
    returns (r: Outcome<seq<string>>)
    requires Distinct(AllCoordinates(profiles)) && AllTrusted(profiles, items, actual)
    ensures r.Ok? ==> r.value == Present(profiles, items) && forall i :: !Partial(profiles, items, i)
    ensures r.Raised? ==> !IsWhole(profiles, items)
  {
    hide Distinct, AllTrusted, CoordinatesOf, ItemsOf, IsWhole;
    var present: seq<string> := [];
    for i := 0 to |profiles|
      invariant present == Present(profiles[..i], items)
      invariant forall k | 0 <= k < i :: !Partial(profiles, items, k)
    {
      var expected := CoordinatesOf(profiles[i]);
      var observed := expected * actual;
      ObservedItems(profiles, items, actual, i);
      assert profiles[..i + 1][..i] == profiles[..i];
      assert ItemsOf(profiles[i]) <= items ==> ItemsOf(profiles[i]) * items == ItemsOf(profiles[i]);
      if observed != {} && observed != expected {
        PartialIsNotWhole(profiles, items, i);
        return Raised(PartialProfile);
      }
      if observed != {} {
        present := present + [profiles[i].name];
      }
    }
    assert profiles[..|profiles|] == profiles;
    return Ok(present);
  }

  /** Trusted items without partial profiles are the whole of the present ones. */
  lemma PresentIsAll(profiles: seq<Profile>, items: set<Item>)
    requires forall x | x in items :: exists i :: Belongs(profiles, i, x)
    requires forall i :: !Partial(profiles, items, i)
    requires WellNamed(profiles)
    ensures items == WholeProfiles(profiles, set n | n in Present(profiles, items))
  {
    hide WholeProfiles, ItemsOf, WellNamed;
    var names := set n | n in Present(profiles, items);
    var whole := WholeProfiles(profiles, names);
    forall x ensures x in items <==> x in whole {
      if x in items {
        var i :| Belongs(profiles, i, x);
        assert !Partial(profiles, items, i);
        assert x in ItemsOf(profiles[i]) * items;
        PresentMembers(profiles, items, profiles[i].name);
      }
      if x in whole {
        var i :| Belongs(profiles, i, x) && profiles[i].name in names;
        PresentMembers(profiles, items, profiles[i].name);
        var j :| 0 <= j < |profiles| && profiles[j].name == profiles[i].name && ItemsOf(profiles[j]) <= items;
        SameNameSameProfile(profiles, i, j);
      }
    }
  }

  lemma SameNameSameProfile(profiles: seq<Profile>, i: nat, j: nat)
    requires WellNamed(profiles) && i < |profiles| && j < |profiles| && profiles[i].name == profiles[j].name
    ensures i == j
  {
    IncreasingIsDistinct(profiles);
    assert Names(profiles)[i] == Names(profiles)[j];
  }

  lemma PresentCoordinatesAreActual(profiles: seq<Profile>, items: set<Item>, actual: set<Coordinate>, present: seq<string>)
    requires AllTrusted(profiles, items, actual) && items == WholeProfiles(profiles, set n | n in present)
    ensures actual == PresentCoordinates(profiles, present)
  {
    hide WholeProfiles;
    forall c ensures c in actual <==> c in PresentCoordinates(profiles, present) {
      if c in actual {
        var x :| x in items && x.At() == c;
        var i :| Belongs(profiles, i, x) && profiles[i].name in present;
        var k :| 0 <= k < |profiles[i].objects| && profiles[i].objects[k].item == x;
        assert profiles[i].objects[k].item.At() == c;
      }
      if c in PresentCoordinates(profiles, present) {
        var i, k :| 0 <= i < |profiles| && profiles[i].name in present && 0 <= k < |profiles[i].objects| && profiles[i].objects[k].item.At() == c;
        assert profiles[i].objects[k].item in ItemsOf(profiles[i]);
        assert Belongs(profiles, i, profiles[i].objects[k].item);
      }
    }
  }

  /** For a registry the constructor accepted: classification succeeds exactly on unions of whole profiles, and names the
      profiles it found in order. */
  method Classify(profiles: seq<Profile>, catalog: seq<Item>) returns (r: Outcome<seq<string>>)
    requires RegistryOk(profiles)
    ensures r.Ok? <==> IsWhole(profiles, ItemSet(catalog))
    ensures r.Ok? ==> r.value == Present(profiles, ItemSet(catalog))
  {
    hide AllTrusted, PresentCoordinates, WholeProfiles, Distinct, Present;
    ghost var items := ItemSet(catalog);
    var actual := CollectTrusted(profiles, catalog);
    if actual.Raised? {
      StrangersAreNotWhole(profiles, catalog);
      return Raised(actual.fault);
    }
    var present := CollectPresent(profiles, actual.value, items);
    if present.Raised? {
      return present;
    }
    PresentIsAll(profiles, items);
    PresentCoordinatesAreActual(profiles, items, actual.value, present.value);
    PresentIsIncreasing(profiles, items);
    BeforeIsStrictTotal();
    Orders.SortedIncreasing(Before, present.value);
    r := Ok(Orders.Sorted(Before, present.value));
    if actual.value != PresentCoordinates(profiles, present.value) {
      r := Raised(Mismatch);
    }
  }

  lemma StrangersAreNotWhole(profiles: seq<Profile>, catalog: seq<Item>)
    requires !(forall x | x in catalog :: exists i :: Belongs(profiles, i, x))
    ensures !IsWhole(profiles, ItemSet(catalog))
  {
    var x :| x in catalog && forall i :: !Belongs(profiles, i, x);
    assert x in ItemSet(catalog);
  }

  /** Expanding some profiles that have objects and classifying the catalog of their objects gives these profiles back. */
  lemma ExpandedCatalogIsClassified(profiles: seq<Profile>, names: seq<string>)
    requires RegistryOk(profiles) && Distinct(names) && |names| <= MAX_PROFILE_COUNT
    requires forall n | n in names :: exists i :: 0 <= i < |profiles| && profiles[i].name == n && ItemsOf(profiles[i]) != {}
    ensures ObjectsForProfiles(profiles, names).Ok?
    ensures var items := ItemSet(Catalog(ObjectsForProfiles(profiles, names).value));
      IsWhole(profiles, items) && multiset(Present(profiles, items)) == multiset(names)
      && Orders.Increasing(Before, Present(profiles, items))
  {
    hide WholeProfiles, ItemsOf, Present, Expanded;
    IncreasingIsDistinct(profiles);
    forall k | 0 <= k < |names| ensures names[k] in Names(profiles) {
      assert names[k] in names;
      var i :| 0 <= i < |profiles| && profiles[i].name == names[k];
      assert Names(profiles)[i] == names[k];
    }
    ExpandedItems(profiles, names);
    SortedItems(Expanded(profiles, names).value);
    var chosen := set n | n in names;
    PresentInvertsWhole(profiles, chosen);
    var present := Present(profiles, WholeProfiles(profiles, chosen));
    forall i, j | 0 <= i < j < |present| ensures present[i] != present[j] {
      BeforeIsStrict(present[i], present[j]);
    }
    SameMembersOnce(present, names);
  }

  /** The other way around: expanding the profiles found in a catalog gives the catalog's items back. */
  lemma ClassifiedCatalogIsExpanded(profiles: seq<Profile>, catalog: seq<Item>)
    requires RegistryOk(profiles) && IsWhole(profiles, ItemSet(catalog))
    ensures var present := Present(profiles, ItemSet(catalog));
      var objects := ObjectsForProfiles(profiles, present);
      objects.Ok? && ItemSet(Catalog(objects.value)) == ItemSet(catalog)
  {
    hide WholeProfiles, ItemsOf, Present, Expanded, Distinct;
    var items := ItemSet(catalog);
    var names: set<string> :| items == WholeProfiles(profiles, names);
    forall i: nat ensures !Partial(profiles, items, i) {
      if i < |profiles| && ItemsOf(profiles[i]) * items != {} {
        var x :| x in ItemsOf(profiles[i]) * items;
        TouchedIsWhole(profiles, names, i, x);
      }
    }
    PresentIsAll(profiles, items);
    var present := Present(profiles, items);
    IncreasingIsDistinct(profiles);
    PresentIsShort(profiles, items);
    forall k | 0 <= k < |present| ensures present[k] in Names(profiles) {
      PresentMembers(profiles, items, present[k]);
      var i :| 0 <= i < |profiles| && profiles[i].name == present[k];
      assert Names(profiles)[i] == present[k];
    }
    ExpandedItems(profiles, present);
    SortedItems(Expanded(profiles, present).value);
  }

  lemma PresentIsShort(profiles: seq<Profile>, items: set<Item>)
    requires WellNamed(profiles)
    ensures |Present(profiles, items)| <= MAX_PROFILE_COUNT && Distinct(Present(profiles, items))
  {
    hide Present, Before;
    PresentIsIncreasing(profiles, items);
    PresentLength(profiles, items);
    var present := Present(profiles, items);
    forall i, j | 0 <= i < j < |present| ensures present[i] != present[j] {
      BeforeIsStrict(present[i], present[j]);
    }
  }

  lemma {:induction false} PresentLength(profiles: seq<Profile>, items: set<Item>)
    ensures |Present(profiles, items)| <= |profiles|
  {
    if profiles != [] {
      PresentLength(profiles[..|profiles| - 1], items);
    }
  }

  lemma {:induction false} SameMembersOnce(xs: seq<string>, ys: seq<string>)
    requires Distinct(xs) && Distinct(ys) && forall x :: x in xs <==> x in ys
    ensures multiset(xs) == multiset(ys)
  {
    forall x ensures multiset(xs)[x] == multiset(ys)[x] {
      CountsOnce(xs, x);
      CountsOnce(ys, x);
    }
  }

  lemma {:induction false} CountsOnce(xs: seq<string>, x: string)
    requires Distinct(xs)
    ensures multiset(xs)[x] == if x in xs then 1 else 0
  {
    if xs != [] {
      var front, last := xs[..|xs| - 1], xs[|xs| - 1];
      assert xs == front + [last];
      CountsOnce(front, x);
    }
  }
}
