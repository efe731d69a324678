/**
 * A TeamCity project: its identity, an alias, the build types registered on
 * it and the count of those whose last finished build has a given status.
 */
module Projects {
  import opened Wrappers
  import opened Builds
  import opened BuildTypes

  /**
   * A build type counts for `kept` when its most recent finished build with a
   * resolved status has one of the kept statuses.
   */
  predicate Contributes(bt: BuildTypeData, kept: set<BuildStatus>)
    reads bt
  {
    var last := LastBuild(bt.lastBuilds, finished);
    last.Some? && last.value.status in kept
  }

  /** The number of build types in `bts` that count for `kept` (`getBuildTypeCount`). */
  function CountIn(bts: seq<BuildTypeData>, kept: set<BuildStatus>): (r: nat)
    reads bts
    ensures r <= |bts|
  {
    if bts == [] then 0
    else CountIn(bts[..|bts| - 1], kept) + (if Contributes(bts[|bts| - 1], kept) then 1 else 0)
  }

  /** Registering one more build type adds one to the count exactly when it counts itself. */
  lemma CountAppend(bts: seq<BuildTypeData>, bt: BuildTypeData, kept: set<BuildStatus>)
    ensures CountIn(bts + [bt], kept) == CountIn(bts, kept) + (if Contributes(bt, kept) then 1 else 0)
  {
    assert (bts + [bt])[..|bts|] == bts;
  }

  /** Asking for no status counts nothing. */
  lemma {:induction false} CountNone(bts: seq<BuildTypeData>)
    ensures CountIn(bts, {}) == 0
  {
    if bts != [] {
      CountNone(bts[..|bts| - 1]);
    }
  }

  /**
   * Each build type contributes through its single last finished status, so
   * counting two disjoint status sets adds up.
   */
  lemma {:induction false} CountDisjointUnion(bts: seq<BuildTypeData>, s1: set<BuildStatus>, s2: set<BuildStatus>)
    requires s1 !! s2
    ensures CountIn(bts, s1 + s2) == CountIn(bts, s1) + CountIn(bts, s2)
  {
    if bts != [] {
      CountDisjointUnion(bts[..|bts| - 1], s1, s2);
    }
  }

  /** Asking for more statuses never counts fewer build types. */
  lemma {:induction false} CountMonotone(bts: seq<BuildTypeData>, s1: set<BuildStatus>, s2: set<BuildStatus>)
    requires s1 <= s2
    ensures CountIn(bts, s1) <= CountIn(bts, s2)
  {
    if bts != [] {
      CountMonotone(bts[..|bts| - 1], s1, s2);
    }
  }

  /** Builds whose status is `UNKNOWN` are filtered out first, so asking for `UNKNOWN` changes nothing. */
  lemma {:induction false} CountIgnoresUnknown(bts: seq<BuildTypeData>, kept: set<BuildStatus>)
    ensures CountIn(bts, kept) == CountIn(bts, kept - {UNKNOWN})
  {
    if bts != [] {
      CountIgnoresUnknown(bts[..|bts| - 1], kept);
    }
  }

  class ProjectData {
    const id: string
    const name: string
    var aliasName: Option<string>
    var buildTypes: seq<BuildTypeData>

    constructor (id: string, name: string)
      ensures this.id == id && this.name == name && aliasName == None && buildTypes == []
    {
      this.id := id;
      this.name := name;
      aliasName := None;
      buildTypes := [];
    }

    method SetAliasName(aliasName: Option<string>)
      modifies this
      ensures this.aliasName == aliasName && buildTypes == old(buildTypes)
    {
      this.aliasName := aliasName;
    }

    /**
     * `registerBuildType`: appends, even a build type already registered, so
     * every count grows by one exactly when `bt` counts itself.
     */
    method RegisterBuildType(bt: BuildTypeData)
      modifies this
      ensures buildTypes == old(buildTypes) + [bt] && aliasName == old(aliasName)
      ensures forall kept :: BuildTypeCount(kept) == old(BuildTypeCount(kept)) + (if Contributes(bt, kept) then 1 else 0)
    {
      buildTypes := buildTypes + [bt];
      forall kept: set<BuildStatus>
        ensures BuildTypeCount(kept) == old(BuildTypeCount(kept)) + (if Contributes(bt, kept) then 1 else 0)
      {
        CountAppend(old(buildTypes), bt, kept);
      }
    }

    /** `getBuildTypeCount(status...)`: never more than the registered build types. */
    function BuildTypeCount(kept: set<BuildStatus>): (r: nat)
      reads this, buildTypes
      ensures r <= |buildTypes|
    {
      CountIn(buildTypes, kept)
    }
  }
}
