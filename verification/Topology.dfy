/** The backup topology registry: what its constructor accepts, the objects of a set of profiles, and the classification of
    a catalog back into profiles. */
module Topology {
  import opened Common
  import opened DependencyGraph

  const MAX_PROFILE_COUNT: nat := 64

  type Coordinate = (string, string)

  /** One row of a schema catalog; `ddl` is the definition's digest. */
  datatype Item = Item(objectType: string, name: string, tableName: string, ddl: Option<string>) {
    function At(): Coordinate { (objectType, name) }
  }

  datatype Object = Object(profile: string, owner: string, item: Item)

  datatype Profile = Profile(name: string, migrationId: Option<int>, dependencies: seq<string>, objects: seq<Object>)

  datatype Fault =
    | TooMany | DuplicateName | Unordered | UnknownDependency | DuplicateMigration | DuplicateCoordinate | Cyclic
    | UnknownProfile | UnknownObject | Drift | PartialProfile | Mismatch

  datatype Outcome<+T> = Ok(value: T) | Raised(fault: Fault)

  // ----- What the constructor promises -----

  function Names(profiles: seq<Profile>): (names: seq<string>)
    ensures |names| == |profiles| && forall i | 0 <= i < |profiles| :: names[i] == profiles[i].name
  {
    seq(|profiles|, i requires 0 <= i < |profiles| => profiles[i].name)
  }

  predicate Distinct<T(==)>(s: seq<T>) {
    forall i, j | 0 <= i < j < |s| :: s[i] != s[j]
  }

  predicate NamesIncreasing(profiles: seq<Profile>) {
    forall i, j | 0 <= i < j < |profiles| :: Before(profiles[i].name, profiles[j].name)
  }

  function Coordinates(objects: seq<Object>): (cs: seq<Coordinate>)
    ensures |cs| == |objects| && forall i | 0 <= i < |objects| :: cs[i] == objects[i].item.At()
  {
    seq(|objects|, i requires 0 <= i < |objects| => objects[i].item.At())
  }

  /** Every coordinate of the registry, profile by profile. */
  function AllCoordinates(profiles: seq<Profile>): seq<Coordinate> {
    if profiles == [] then [] else AllCoordinates(profiles[..|profiles| - 1]) + Coordinates(profiles[|profiles| - 1].objects)
  }

  function Migration(p: Profile): seq<int> {
    if p.migrationId.Some? then [p.migrationId.value] else []
  }

  function AllMigrations(profiles: seq<Profile>): seq<int> {
    if profiles == [] then [] else AllMigrations(profiles[..|profiles| - 1]) + Migration(profiles[|profiles| - 1])
  }

  predicate DependenciesKnown(profiles: seq<Profile>, p: Profile) {
    forall k | 0 <= k < |p.dependencies| :: p.dependencies[k] in Names(profiles)
  }

  function GraphOf(profiles: seq<Profile>): Graph {
    map n | n in Names(profiles) :: DependenciesOf(profiles, n)
  }

  function DependenciesOf(profiles: seq<Profile>, name: string): seq<string> {
    if profiles == [] then []
    else if profiles[|profiles| - 1].name == name then profiles[|profiles| - 1].dependencies
    else DependenciesOf(profiles[..|profiles| - 1], name)
  }

  /** Everything the constructor checks before it looks for cycles. */
  ghost predicate WellNamed(profiles: seq<Profile>) {
    && |profiles| <= MAX_PROFILE_COUNT
    && NamesIncreasing(profiles)
    && (forall i | 0 <= i < |profiles| :: DependenciesKnown(profiles, profiles[i]))
    && Distinct(AllMigrations(profiles))
    && Distinct(AllCoordinates(profiles))
  }

  /** What a constructed registry guarantees. */
  ghost predicate RegistryOk(profiles: seq<Profile>) {
    WellNamed(profiles) && !HasCycle(GraphOf(profiles))
  }

  // ----- The constructor -----

  lemma {:induction false} DependenciesOfName(profiles: seq<Profile>, i: nat)
    requires i < |profiles| && Distinct(Names(profiles))
    ensures DependenciesOf(profiles, profiles[i].name) == profiles[i].dependencies
  {
    var last := |profiles| - 1;
    var front := profiles[..last];
    if i < last {
      assert Names(profiles)[i] != Names(profiles)[last];
      assert Distinct(Names(front)) by {
        forall a, b | 0 <= a < b < last ensures Names(front)[a] != Names(front)[b] {
          assert Names(profiles)[a] != Names(profiles)[b];
        }
      }
      DependenciesOfName(front, i);
    }
  }

  lemma {:induction false} CoordinatesPrefix(profiles: seq<Profile>, i: nat)
    requires i <= |profiles|
    ensures AllCoordinates(profiles[..i]) <= AllCoordinates(profiles) && AllMigrations(profiles[..i]) <= AllMigrations(profiles)
    decreases |profiles| - i
  {
    if i == |profiles| {
      assert profiles[..i] == profiles;
    } else {
      CoordinatesPrefix(profiles, i + 1);
      assert profiles[..i + 1][..i] == profiles[..i];
    }
  }

  lemma NotDistinct<T>(s: seq<T>, prefix: seq<T>, x: T)
    requires x in prefix && prefix + [x] <= s
    ensures !Distinct(s)
  {
    var i :| 0 <= i < |prefix| && prefix[i] == x;
    assert s[i] == (prefix + [x])[i] && s[|prefix|] == (prefix + [x])[|prefix|];
  }

  lemma DistinctAppend<T>(s: seq<T>, x: T)
    requires Distinct(s) && x !in s
    ensures Distinct(s + [x])
  {
  }

  /** One turn of the constructor's loop: it collects this profile's coordinates, or meets one twice. */
  method CollectCoordinates(profile: Profile, seen: set<Coordinate>, ghost before: seq<Coordinate>)
    returns (ok: bool, all: set<Coordinate>)
    requires Distinct(before) && seen == set c | c in before
    ensures ok <==> Distinct(before + Coordinates(profile.objects))
    ensures ok ==> all == set c | c in before + Coordinates(profile.objects)
  {
    all := seen;
    ghost var cs := Coordinates(profile.objects);
    assert before + cs[..0] == before;
    for k := 0 to |profile.objects|
      invariant Distinct(before + cs[..k]) && all == set c | c in before + cs[..k]
    {
      var c := profile.objects[k].item.At();
      assert cs[..k + 1] == cs[..k] + [c] && before + cs[..k + 1] == before + cs[..k] + [c];
      if c in all {
        assert before + cs == before + cs[..k] + [c] + cs[k + 1..];
        NotDistinct(before + cs, before + cs[..k], c);
        return false, all;
      }
      DistinctAppend(before + cs[..k], c);
      all := all + {c};
    }
    assert cs[..|cs|] == cs;
    return true, all;
  }

  lemma DistinctPrefix<T>(s: seq<T>, prefix: seq<T>)
    requires Distinct(s) && prefix <= s
    ensures Distinct(prefix)
  {
    forall i, j | 0 <= i < j < |prefix| ensures prefix[i] != prefix[j] {
      assert prefix[i] == s[i] && prefix[j] == s[j];
    }
  }

  /** `TrustedBackupTopologyRegistry.__post_init__`: it accepts exactly the registries it promises, and reports a cycle
      exactly when there is one and nothing else is wrong. */
  method Construct(profiles: seq<Profile>) returns (r: Outcome<()>)
    ensures r.Ok? <==> RegistryOk(profiles)
    ensures r == Raised(Cyclic) <==> WellNamed(profiles) && HasCycle(GraphOf(profiles))
    ensures r == Raised(TooMany) <==> |profiles| > MAX_PROFILE_COUNT
    ensures r == Raised(DuplicateName) <==> |profiles| <= MAX_PROFILE_COUNT && !Distinct(Names(profiles))
    ensures r == Raised(Unordered) <==>
      |profiles| <= MAX_PROFILE_COUNT && Distinct(Names(profiles)) && !NamesIncreasing(profiles)
  {
    hide HasCycle, Before;
    if |profiles| > MAX_PROFILE_COUNT {
      return Raised(TooMany);
    }
    var names := Names(profiles);
    if !Distinct(names) {
      IncreasingIsDistinct(profiles);
      return Raised(DuplicateName);
    }
    if !NamesIncreasing(profiles) {
      return Raised(Unordered);
    }
    var collected := CollectProfiles(profiles);
    if collected.Raised? {
      return collected;
    }
    KnownGraph(profiles);
    var acyclic := CheckAcyclic(names, GraphOf(profiles));
    return if acyclic then Ok(()) else Raised(Cyclic);
  }

  lemma IncreasingIsDistinct(profiles: seq<Profile>)
    ensures NamesIncreasing(profiles) ==> Distinct(Names(profiles))
  {
    forall i, j | 0 <= i < j < |profiles| && Before(profiles[i].name, profiles[j].name)
      ensures profiles[i].name != profiles[j].name {
      BeforeIsStrict(profiles[i].name, profiles[j].name);
    }
  }

  lemma KnownGraph(profiles: seq<Profile>)
    requires Distinct(Names(profiles)) && forall i | 0 <= i < |profiles| :: DependenciesKnown(profiles, profiles[i])
    ensures Known(GraphOf(profiles)) && forall n :: n in Names(profiles) <==> n in GraphOf(profiles)
  {
    var g := GraphOf(profiles);
    forall n, k | n in g && 0 <= k < |g[n]| ensures g[n][k] in g {
      var i :| 0 <= i < |profiles| && Names(profiles)[i] == n;
      DependenciesOfName(profiles, i);
      assert DependenciesKnown(profiles, profiles[i]);
    }
  }

  /** The constructor's loop over the profiles. */
  method CollectProfiles(profiles: seq<Profile>) returns (r: Outcome<()>)
    ensures r.Ok? <==>
      && (forall i | 0 <= i < |profiles| :: DependenciesKnown(profiles, profiles[i]))
      && Distinct(AllMigrations(profiles)) && Distinct(AllCoordinates(profiles))
    ensures r.Raised? ==> r.fault in {UnknownDependency, DuplicateMigration, DuplicateCoordinate}
  {
    hide DependenciesKnown, Distinct, Coordinates;
    var coordinates: set<Coordinate>, migrationIds: set<int> := {}, {};
    NothingIsDistinct<Coordinate>();
    NothingIsDistinct<int>();
    for i := 0 to |profiles|
      invariant forall k | 0 <= k < i :: DependenciesKnown(profiles, profiles[k])
      invariant Distinct(AllMigrations(profiles[..i])) && migrationIds == set m | m in AllMigrations(profiles[..i])
      invariant Distinct(AllCoordinates(profiles[..i])) && coordinates == set c | c in AllCoordinates(profiles[..i])
    {
      var profile := profiles[i];
      assert profiles[..i + 1][..i] == profiles[..i];
      CoordinatesPrefix(profiles, i + 1);
      if !DependenciesKnown(profiles, profile) {
        return Raised(UnknownDependency);
      }
      ghost var migrations, cs := AllMigrations(profiles[..i]), AllCoordinates(profiles[..i]);
      if profile.migrationId.Some? {
        if profile.migrationId.value in migrationIds {
          NotDistinct(AllMigrations(profiles), migrations, profile.migrationId.value);
          return Raised(DuplicateMigration);
        }
        DistinctAppend(migrations, profile.migrationId.value);
        migrationIds := migrationIds + {profile.migrationId.value};
      } else {
        assert migrations + [] == migrations;
      }
      var ok, all := CollectCoordinates(profile, coordinates, cs);
      if !ok {
        if Distinct(AllCoordinates(profiles)) {
          DistinctPrefix(AllCoordinates(profiles), AllCoordinates(profiles[..i + 1]));
        }
        return Raised(DuplicateCoordinate);
      }
      coordinates := all;
    }
    assert profiles[..|profiles|] == profiles;
    return Ok(());
  }

  lemma NothingIsDistinct<T>()
    ensures Distinct<T>([])
  {
  }
}
