/** What a registry and a selection of its profiles must look like, position by position. */
module TopologyRegistries {
  import opened Common
  import opened DependencyGraph
  import opened Topology
  import opened TopologyProfiles

  /** No two profiles share a migration id. */
  ghost predicate MigrationsApart(profiles: seq<Profile>) {
    forall i, j | 0 <= i < j < |profiles| :: profiles[i].migrationId.Some? ==> profiles[i].migrationId != profiles[j].migrationId
  }

  predicate SameCoordinate(x: Object, y: Object) {
    x.item.objectType == y.item.objectType && x.item.name == y.item.name
  }

  predicate ApartWithin(objects: seq<Object>) {
    forall a, b | 0 <= a < b < |objects| :: !SameCoordinate(objects[a], objects[b])
  }

  predicate ApartFrom(xs: seq<Object>, ys: seq<Object>) {
    forall a, b | 0 <= a < |xs| && 0 <= b < |ys| :: !SameCoordinate(xs[a], ys[b])
  }

  /** No two objects of the registry share a coordinate. */
  ghost predicate CoordinatesApart(profiles: seq<Profile>) {
    && (forall i | 0 <= i < |profiles| :: ApartWithin(profiles[i].objects))
    && (forall i, j | 0 <= i < j < |profiles| :: ApartFrom(profiles[i].objects, profiles[j].objects))
  }

  lemma JoinIsDistinct<T>(a: seq<T>, b: seq<T>)
    ensures Distinct(a + b) <==> Distinct(a) && Distinct(b) && forall x | x in a :: x !in b
  {
    var s := a + b;
    assert forall i | 0 <= i < |a| :: s[i] == a[i];
    assert forall i | 0 <= i < |b| :: s[|a| + i] == b[i];
    if Distinct(s) {
      forall x | x in a ensures x !in b {
        var i :| 0 <= i < |a| && a[i] == x;
        forall j | 0 <= j < |b| ensures b[j] != x {
          assert s[i] != s[|a| + j];
        }
      }
      forall i, j | 0 <= i < j < |b| ensures b[i] != b[j] {
        assert s[|a| + i] != s[|a| + j];
      }
      forall i, j | 0 <= i < j < |a| ensures a[i] != a[j] {
        assert s[i] != s[j];
      }
    }
    if Distinct(a) && Distinct(b) && forall x | x in a :: x !in b {
      forall i, j | 0 <= i < j < |s| ensures s[i] != s[j] {
        if i < |a| <= j {
          assert a[i] in a && b[j - |a|] in b;
        }
      }
    }
  }

  lemma {:induction false} MigrationListed(profiles: seq<Profile>, m: int)
    ensures m in AllMigrations(profiles) <==> exists i :: 0 <= i < |profiles| && profiles[i].migrationId == Some(m)
    decreases |profiles|
  {
    if profiles != [] {
      var front := profiles[..|profiles| - 1];
      MigrationListed(front, m);
      assert forall i | 0 <= i < |front| :: front[i] == profiles[i];
    }
  }

  lemma {:induction false} MigrationsByPosition(profiles: seq<Profile>)
    ensures Distinct(AllMigrations(profiles)) <==> MigrationsApart(profiles)
    decreases |profiles|
  {
    if profiles != [] {
      var front, last := profiles[..|profiles| - 1], profiles[|profiles| - 1];
      MigrationsByPosition(front);
      JoinIsDistinct(AllMigrations(front), Migration(last));
      assert forall i | 0 <= i < |front| :: front[i] == profiles[i];
      if last.migrationId.Some? {
        MigrationListed(front, last.migrationId.value);
      }
    }
  }

  lemma WithinByPosition(objects: seq<Object>)
    ensures Distinct(Coordinates(objects)) <==> ApartWithin(objects)
  {
    var cs := Coordinates(objects);
    forall a, b | 0 <= a < b < |objects| ensures cs[a] == cs[b] <==> SameCoordinate(objects[a], objects[b]) {
    }
    if Distinct(cs) {
      forall a, b | 0 <= a < b < |objects| ensures !SameCoordinate(objects[a], objects[b]) {
        assert cs[a] != cs[b];
      }
    }
  }

  lemma {:induction false} CoordinateListed(profiles: seq<Profile>, c: Coordinate)
    ensures c in AllCoordinates(profiles) <==> exists i :: 0 <= i < |profiles| && c in Coordinates(profiles[i].objects)
    decreases |profiles|
  {
    hide Coordinates;
    if profiles != [] {
      var front := profiles[..|profiles| - 1];
      CoordinateListed(front, c);
      assert forall i | 0 <= i < |front| :: front[i] == profiles[i];
    }
  }

  lemma SharedCoordinates(xs: seq<Object>, ys: seq<Object>)
    ensures ApartFrom(xs, ys) <==> forall c | c in Coordinates(xs) :: c !in Coordinates(ys)
  {
    if ApartFrom(xs, ys) {
      forall c | c in Coordinates(xs) ensures c !in Coordinates(ys) {
        var a :| 0 <= a < |xs| && Coordinates(xs)[a] == c;
        forall b | 0 <= b < |ys| ensures Coordinates(ys)[b] != c {
          assert !SameCoordinate(xs[a], ys[b]);
        }
      }
    }
    if forall c | c in Coordinates(xs) :: c !in Coordinates(ys) {
      forall a, b | 0 <= a < |xs| && 0 <= b < |ys| ensures !SameCoordinate(xs[a], ys[b]) {
        assert Coordinates(xs)[a] in Coordinates(xs) && Coordinates(ys)[b] in Coordinates(ys);
      }
    }
  }

  lemma {:induction false} CoordinatesByPosition(profiles: seq<Profile>)
    ensures Distinct(AllCoordinates(profiles)) <==> CoordinatesApart(profiles)
    decreases |profiles|
  {
    hide ApartWithin, ApartFrom, Distinct, Coordinates;
    if profiles == [] {
      NothingIsDistinct<Coordinate>();
    } else {
      var front, last := profiles[..|profiles| - 1], |profiles| - 1;
      CoordinatesByPosition(front);
      WithinByPosition(profiles[last].objects);
      JoinIsDistinct(AllCoordinates(front), Coordinates(profiles[last].objects));
      assert forall i | 0 <= i < |front| :: front[i] == profiles[i];
      forall i | 0 <= i < |front|
        ensures ApartFrom(profiles[i].objects, profiles[last].objects) <==>
          forall c | c in Coordinates(profiles[i].objects) :: c !in Coordinates(profiles[last].objects) {
        SharedCoordinates(profiles[i].objects, profiles[last].objects);
      }
      forall c ensures c in AllCoordinates(front) <==> exists i :: 0 <= i < |front| && c in Coordinates(front[i].objects) {
        CoordinateListed(front, c);
      }
      LastIsApart(profiles);
    }
  }

  lemma LastIsApart(profiles: seq<Profile>)
    requires profiles != []
    ensures var last := |profiles| - 1;
      CoordinatesApart(profiles) <==>
        && CoordinatesApart(profiles[..last]) && ApartWithin(profiles[last].objects)
        && forall i | 0 <= i < last :: ApartFrom(profiles[i].objects, profiles[last].objects)
  {
    hide ApartWithin, ApartFrom;
    var last := |profiles| - 1;
    assert forall i | 0 <= i < last :: profiles[..last][i] == profiles[i];
  }

  predicate IsNamed(profiles: seq<Profile>, name: string) {
    exists j :: 0 <= j < |profiles| && profiles[j].name == name
  }

  lemma NamesAreNamed(profiles: seq<Profile>, name: string)
    ensures name in Names(profiles) <==> IsNamed(profiles, name)
  {
    if j :| 0 <= j < |profiles| && profiles[j].name == name {
      assert Names(profiles)[j] == name;
    }
  }

  /** What the constructor accepts before it looks for cycles: at most 64 profiles in strictly increasing order of names, whose
      dependencies are profiles, without a migration id or a coordinate in two places. */
  lemma RegistriesByPosition(profiles: seq<Profile>)
    ensures WellNamed(profiles) <==>
      && |profiles| <= 64
      && (forall i, j | 0 <= i < j < |profiles| :: Before(profiles[i].name, profiles[j].name))
      && (forall i, k | 0 <= i < |profiles| && 0 <= k < |profiles[i].dependencies| :: IsNamed(profiles, profiles[i].dependencies[k]))
      && MigrationsApart(profiles) && CoordinatesApart(profiles)
  {
    hide MigrationsApart, CoordinatesApart, Distinct, Before, AllMigrations, AllCoordinates, Names, IsNamed;
    MigrationsByPosition(profiles);
    CoordinatesByPosition(profiles);
    forall name ensures name in Names(profiles) <==> IsNamed(profiles, name) {
      NamesAreNamed(profiles, name);
    }
  }

  // ----- Selections -----

  lemma {:induction false} ExpandedExactly(profiles: seq<Profile>, names: seq<string>)
    ensures Expanded(profiles, names).Some? <==> forall i | 0 <= i < |names| :: Find(profiles, names[i]).Some?
    decreases |names|
  {
    hide Find;
    if names != [] {
      var front := names[..|names| - 1];
      ExpandedExactly(profiles, front);
      assert forall i | 0 <= i < |front| :: front[i] == names[i];
    }
  }

  /** The faults of a selection, in order: more than 64 names, a name twice, a name of no profile. */
  lemma SelectionFaults(profiles: seq<Profile>, names: seq<string>)
    ensures var r := ObjectsForProfiles(profiles, names);
      if |names| > 64 then r == Raised(TooMany)
      else if exists i, j :: 0 <= i < j < |names| && names[i] == names[j] then r == Raised(DuplicateName)
      else if exists i :: 0 <= i < |names| && Find(profiles, names[i]).None? then r == Raised(UnknownProfile)
      else r.Ok?
  {
    hide Expanded, Find;
    ExpandedExactly(profiles, names);
  }
}
