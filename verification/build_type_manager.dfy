/**
 * The registry of build types: the full catalog the server reported and the
 * user-ordered list of monitored build types shown on the wall.
 *
 * `BuildTypeData` does not override `equals`, so the monitored list is searched
 * by reference (`indexOf`, `remove`), while catalog reconciliation matches
 * entries by their build type id.
 */
module Registry {
  import opened Wrappers
  import opened JavaInt
  import opened JavaList
  import opened BuildTypes

  /** A build type as the configuration file saved it. */
  datatype SavedBuildType = SavedBuildType(
    id: string,
    name: string,
    projectId: string,
    projectName: string,
    branch: Option<string>,
    aliasName: Option<string>)

  // ---------------------------------------------------------------------------
  // List operations by reference
  // ---------------------------------------------------------------------------

  /** `List.remove(Object)`: removes the first occurrence of `x`, if any. */
  function RemoveFirst<T(==)>(s: seq<T>, x: T): (r: seq<T>)
    ensures x !in s ==> r == s
    ensures x in s ==> |r| == |s| - 1 && multiset(r) == multiset(s) - multiset{x}
  {
    var i := IndexOf(s, x);
    if i == -1 then s
    else
      assert s == s[..i] + [s[i]] + s[i + 1..];
      s[..i] + s[i + 1..]
  }

  /** The number of times `x` occurs in `s`. */
  function Occurrences<T(==)>(s: seq<T>, x: T): nat {
    multiset(s)[x]
  }

  /**
   * `requestPosition(d, p)` when it succeeds: `d` is taken out (first
   * occurrence) and put back at index `min(at, size without it)`.
   */
  function MoveTo<T(==)>(s: seq<T>, d: T, at: int): (r: seq<T>)
    requires at >= 0
  {
    var rest := RemoveFirst(s, d);
    var k := if at < |rest| then at else |rest|;
    rest[..k] + [d] + rest[k..]
  }

  /**
   * After a move, `d` sits at index `min(at, size without it)`, and taking it
   * out from there gives back the other entries in their previous order.
   */
  lemma MoveToPlaces<T>(s: seq<T>, d: T, at: int)
    requires at >= 0
    ensures var rest := RemoveFirst(s, d);
            var k := if at < |rest| then at else |rest|;
            var r := MoveTo(s, d, at);
            |r| == |s| + (if d in s then 0 else 1) &&
            r[k] == d && r[..k] + r[k + 1..] == rest
  {
    var rest := RemoveFirst(s, d);
    var k := if at < |rest| then at else |rest|;
    var r := MoveTo(s, d, at);
    assert r[..k] == rest[..k];
    assert r[k + 1..] == rest[k..];
    assert rest == rest[..k] + rest[k..];
  }

  /**
   * Moving an entry that occurs at most once leaves it exactly once in the
   * list, and its new 1-based position is `min(at, size without it) + 1`.
   */
  lemma MoveToOnce<T>(s: seq<T>, d: T, at: int)
    requires at >= 0 && Occurrences(s, d) <= 1
    ensures var rest := RemoveFirst(s, d);
            var r := MoveTo(s, d, at);
            Occurrences(r, d) == 1 &&
            IndexOf(r, d) == if at < |rest| then at else |rest|
  {
    var rest := RemoveFirst(s, d);
    var k := if at < |rest| then at else |rest|;
    RemoveFirstOnce(s, d);
    InsertOnce(rest, k, d);
  }

  /** Removing the single occurrence of an entry leaves none. */
  lemma RemoveFirstOnce<T>(s: seq<T>, d: T)
    requires Occurrences(s, d) <= 1
    ensures d !in RemoveFirst(s, d)
  {
    if d in s {
      assert multiset(RemoveFirst(s, d))[d] == 0;
    }
  }

  /** Inserting an absent entry at index `k` makes it occur once, found at `k`. */
  lemma InsertOnce<T>(rest: seq<T>, k: nat, d: T)
    requires k <= |rest| && d !in rest
    ensures var r := rest[..k] + [d] + rest[k..];
            Occurrences(r, d) == 1 && IndexOf(r, d) == k
  {
    var r := rest[..k] + [d] + rest[k..];
    assert rest == rest[..k] + rest[k..];
    assert multiset(rest)[d] == 0;
    assert multiset(r) == multiset(rest[..k]) + multiset{d} + multiset(rest[k..]);
    assert r[..k] == rest[..k];
    assert r[k] == d;
    IndexOfFirst(r, k);
  }

  // ---------------------------------------------------------------------------
  // Catalog reconciliation (specification)
  // ---------------------------------------------------------------------------

  /** The index of the first build type with this id, or `|s|` when there is none. */
  function FirstWithId(s: seq<BuildTypeData>, id: string): (r: nat)
    ensures r <= |s|
    ensures r < |s| ==> s[r].id == id
    ensures forall j :: 0 <= j < r ==> s[j].id != id
  {
    if s == [] then 0
    else if s[0].id == id then 0
    else FirstWithId(s[1..], id) + 1
  }

  /** The ids of a list of build types, in order. */
  function Ids(s: seq<BuildTypeData>): (r: seq<string>)
    ensures |r| == |s| && forall i :: 0 <= i < |s| ==> r[i] == s[i].id
  {
    if s == [] then [] else [s[0].id] + Ids(s[1..])
  }

  /** The branch an incoming build type ends with: the first old entry's with its id, else its own. */
  function CarriedBranch(oldCatalog: seq<BuildTypeData>, t: BuildTypeData): Option<string>
    reads oldCatalog, t
  {
    var k := FirstWithId(oldCatalog, t.id);
    if k < |oldCatalog| then oldCatalog[k].branch else t.branch
  }

  /** The alias of the first previously monitored entry with this id (none when there is none). */
  function AliasFor(previous: seq<BuildTypeData>, id: string): Option<string>
    reads previous
  {
    var k := FirstWithId(previous, id);
    if k < |previous| then previous[k].aliasName else None
  }

  /** The entries of `s` with the given id, in order. */
  function WithId(s: seq<BuildTypeData>, id: string): (r: seq<BuildTypeData>)
    ensures forall i :: 0 <= i < |r| ==> r[i] in s && r[i].id == id
    ensures forall i :: 0 <= i < |s| && s[i].id == id ==> s[i] in r
  {
    if s == [] then []
    else if s[0].id == id then [s[0]] + WithId(s[1..], id)
    else WithId(s[1..], id)
  }

  /**
   * The entries of `list` whose id occurs in `keys` from index `i` on for the
   * first time in `keys`, grouped by that first occurrence.
   */
  function GroupFrom(keys: seq<string>, list: seq<BuildTypeData>, i: nat): seq<BuildTypeData>
    requires i <= |keys|
    decreases |keys| - i
  {
    if i == |keys| then []
    else (if keys[i] in keys[..i] then [] else WithId(list, keys[i])) + GroupFrom(keys, list, i + 1)
  }

  /**
   * The monitored list `registerBuildTypes` builds: the entries of `list` whose
   * id was monitored, stably sorted by the index of that id among the
   * previously monitored ids.
   */
  function MonitoredOrder(keys: seq<string>, list: seq<BuildTypeData>): seq<BuildTypeData> {
    GroupFrom(keys, list, 0)
  }

  /** The sort key of `registerBuildTypes`: `previousMonitoredIds.indexOf(id)`. */
  function Key(keys: seq<string>, id: string): int {
    IndexOf(keys, id)
  }

  lemma {:induction false} WithIdAppend(a: seq<BuildTypeData>, b: seq<BuildTypeData>, id: string)
    ensures WithId(a + b, id) == WithId(a, id) + WithId(b, id)
  {
    if a == [] {
      assert a + b == b;
    } else {
      var ab := a + b;
      assert ab[0] == a[0];
      assert ab[1..] == a[1..] + b;
      var head := if a[0].id == id then [a[0]] else [];
      assert WithId(ab, id) == head + WithId(a[1..] + b, id);
      assert WithId(a, id) == head + WithId(a[1..], id);
      WithIdAppend(a[1..], b, id);
    }
  }

  lemma {:induction false} WithIdWithId(s: seq<BuildTypeData>, k: string, id: string)
    ensures WithId(WithId(s, k), id) == if k == id then WithId(s, id) else []
  {
    if s != [] {
      WithIdWithId(s[1..], k, id);
    }
  }

  /** Membership in the slices before and after index `i`, one element further. */
  lemma SliceMembers<T>(s: seq<T>, i: nat, x: T)
    requires i < |s|
    ensures (x in s[..i + 1]) == (x in s[..i] || x == s[i])
    ensures (x in s[i..]) == (x == s[i] || x in s[i + 1..])
  {
    assert s[..i + 1] == s[..i] + [s[i]];
    assert s[i..] == [s[i]] + s[i + 1..];
  }

  lemma {:induction false} GroupFromWithId(keys: seq<string>, list: seq<BuildTypeData>, i: nat, id: string)
    requires i <= |keys|
    ensures WithId(GroupFrom(keys, list, i), id) ==
              if id in keys[i..] && id !in keys[..i] then WithId(list, id) else []
    decreases |keys| - i
  {
    if i < |keys| {
      var rest := GroupFrom(keys, list, i + 1);
      GroupFromWithId(keys, list, i + 1, id);
      SliceMembers(keys, i, id);
      if keys[i] in keys[..i] {
        assert GroupFrom(keys, list, i) == [] + rest;
        assert [] + rest == rest;
      } else {
        var g := WithId(list, keys[i]);
        assert GroupFrom(keys, list, i) == g + rest;
        WithIdAppend(g, rest, id);
        WithIdWithId(list, keys[i], id);
      }
    }
  }

  /**
   * Stability and membership: for every id, the new monitored list holds the
   * incoming entries with that id in their incoming order when the id was
   * monitored, and none otherwise.
   */
  lemma MonitoredOrderSelects(keys: seq<string>, list: seq<BuildTypeData>, id: string)
    ensures WithId(MonitoredOrder(keys, list), id) == if id in keys then WithId(list, id) else []
  {
    GroupFromWithId(keys, list, 0, id);
    assert keys[0..] == keys;
  }

  /** An entry is monitored afterwards exactly when it is incoming and its id was monitored. */
  lemma MonitoredOrderMembers(keys: seq<string>, list: seq<BuildTypeData>, t: BuildTypeData)
    ensures t in MonitoredOrder(keys, list) <==> t in list && t.id in keys
  {
    MonitoredOrderSelects(keys, list, t.id);
    var r := MonitoredOrder(keys, list);
    assert t in r <==> t in WithId(r, t.id);
  }

  /** Ordered by key: the list is sorted by the previous monitored index of each id. */
  ghost predicate KeySorted(keys: seq<string>, r: seq<BuildTypeData>) {
    forall a, b :: 0 <= a < b < |r| ==> Key(keys, r[a].id) <= Key(keys, r[b].id)
  }

  /** A group of key `i` followed by a key-sorted list of keys at least `i` is key-sorted. */
  lemma KeySortedAppend(keys: seq<string>, g: seq<BuildTypeData>, rest: seq<BuildTypeData>, i: int)
    requires forall t :: t in g ==> Key(keys, t.id) == i
    requires forall t :: t in rest ==> i <= Key(keys, t.id)
    requires KeySorted(keys, rest)
    ensures KeySorted(keys, g + rest)
    ensures forall t :: t in g + rest ==> i <= Key(keys, t.id)
  {
    var r := g + rest;
    forall a, b | 0 <= a < b < |r| ensures Key(keys, r[a].id) <= Key(keys, r[b].id) {
      if b < |g| {
        assert r[a] == g[a] && r[b] == g[b];
      } else if a < |g| {
        assert r[a] == g[a] && r[b] == rest[b - |g|];
      } else {
        assert r[a] == rest[a - |g|] && r[b] == rest[b - |g|];
      }
    }
  }

  lemma {:induction false} GroupFromKeys(keys: seq<string>, list: seq<BuildTypeData>, i: nat)
    requires i <= |keys|
    ensures forall t :: t in GroupFrom(keys, list, i) ==> i <= Key(keys, t.id)
    ensures KeySorted(keys, GroupFrom(keys, list, i))
    decreases |keys| - i
  {
    if i < |keys| {
      var rest := GroupFrom(keys, list, i + 1);
      GroupFromKeys(keys, list, i + 1);
      if keys[i] in keys[..i] {
        assert GroupFrom(keys, list, i) == [] + rest;
        assert [] + rest == rest;
      } else {
        var g := WithId(list, keys[i]);
        assert GroupFrom(keys, list, i) == g + rest;
        IndexOfFirst(keys, i);
        KeySortedAppend(keys, g, rest, i);
      }
    }
  }

  /** The new monitored list is sorted by the previous monitored index of its ids. */
  lemma MonitoredOrderSorted(keys: seq<string>, list: seq<BuildTypeData>)
    ensures KeySorted(keys, MonitoredOrder(keys, list))
  {
    GroupFromKeys(keys, list, 0);
  }

  // ---------------------------------------------------------------------------
  // Queue flags (specification)
  // ---------------------------------------------------------------------------

  /**
   * The entries `registerBuildTypesInQueue` reports, for monitored list `ms`
   * and queued ids `q`, in the state before the call: each entry whose flag
   * disagrees with the queue, at its first occurrence only (once flipped, a
   * repeated entry agrees).
   */
  function QueueChanges(ms: seq<BuildTypeData>, q: set<string>): seq<BuildTypeData>
    reads ms
  {
    if ms == [] then []
    else
      var p := ms[..|ms| - 1];
      var t := ms[|ms| - 1];
      QueueChanges(p, q) + (if t !in p && t.queued != (t.id in q) then [t] else [])
  }

  /** The reported entries are exactly the monitored ones whose flag was out of date. */
  lemma {:induction false} QueueChangesMembers(ms: seq<BuildTypeData>, q: set<string>, t: BuildTypeData)
    ensures t in QueueChanges(ms, q) <==> t in ms && t.queued != (t.id in q)
  {
    if ms != [] {
      var p := ms[..|ms| - 1];
      QueueChangesMembers(p, q, t);
      assert ms == p + [ms[|ms| - 1]];
    }
  }

  /** No entry is reported twice. */
  lemma {:induction false} QueueChangesDistinct(ms: seq<BuildTypeData>, q: set<string>)
    ensures forall i, j :: 0 <= i < j < |QueueChanges(ms, q)| ==> QueueChanges(ms, q)[i] != QueueChanges(ms, q)[j]
  {
    if ms != [] {
      var p := ms[..|ms| - 1];
      var t := ms[|ms| - 1];
      QueueChangesDistinct(p, q);
      if t !in p && t.queued != (t.id in q) {
        var c := QueueChanges(p, q);
        assert t !in c by { QueueChangesMembers(p, q, t); }
        var r := c + [t];
        forall i, j | 0 <= i < j < |r| ensures r[i] != r[j] {
          if j == |c| { assert r[i] in c; }
        }
      }
    }
  }

  // ---------------------------------------------------------------------------
  // The manager
  // ---------------------------------------------------------------------------

  /** The build type restored from a saved one, with its saved alias, not queued and no builds. */
  ghost predicate Restored(t: BuildTypeData, s: SavedBuildType)
    reads t
  {
    t.id == s.id && t.name == s.name && t.projectId == s.projectId && t.projectName == s.projectName &&
    t.branch == s.branch && t.aliasName == s.aliasName && !t.queued && t.lastBuilds == []
  }

  class BuildTypeManager {
    var buildTypes: seq<BuildTypeData>
    var monitored: seq<BuildTypeData>

    /** Every saved build type becomes a new catalog entry, monitored, in saved order. */
    constructor (saved: seq<SavedBuildType>)
      ensures |buildTypes| == |saved| && monitored == buildTypes
      ensures forall i :: 0 <= i < |saved| ==> fresh(buildTypes[i]) && Restored(buildTypes[i], saved[i])
      ensures forall i, j :: 0 <= i < j < |buildTypes| ==> buildTypes[i] != buildTypes[j]
    {
      buildTypes := [];
      monitored := [];
      new;
      var i := 0;
      while i < |saved|
        invariant 0 <= i <= |saved|
        invariant |buildTypes| == i && monitored == buildTypes
        invariant forall j :: 0 <= j < i ==> fresh(buildTypes[j]) && Restored(buildTypes[j], saved[j])
        invariant forall j, k :: 0 <= j < k < i ==> buildTypes[j] != buildTypes[k]
      {
        var s := saved[i];
        var data := new BuildTypeData(s.id, s.name, s.projectId, s.projectName, s.branch);
        data.SetAliasName(s.aliasName);
        buildTypes := buildTypes + [data];
        ActivateMonitoring(data);
        i := i + 1;
      }
    }

    /** `activateMonitoring`: appends, even when the entry is already monitored. */
    method ActivateMonitoring(d: BuildTypeData)
      modifies this
      ensures monitored == old(monitored) + [d] && buildTypes == old(buildTypes)
    {
      monitored := monitored + [d];
    }

    /** `unactivateMonitoring`: removes the first occurrence of that very object. */
    method UnactivateMonitoring(d: BuildTypeData)
      modifies this
      ensures monitored == RemoveFirst(old(monitored), d) && buildTypes == old(buildTypes)
    {
      var index := IndexOf(monitored, d);
      if index != -1 {
        monitored := monitored[..index] + monitored[index + 1..];
      }
    }

    /** `getPosition`: the 1-based place of `d` on the wall, `Integer.MAX_VALUE` when it is not monitored. */
    function Position(d: BuildTypeData): (r: int)
      reads this
      ensures d in monitored ==> 1 <= r <= |monitored| && monitored[r - 1] == d && d !in monitored[..r - 1]
      ensures d !in monitored ==> r == IntMax
    {
      var index := IndexOf(monitored, d);
      if index < 0 then IntMax else index + 1
    }

    /**
     * `requestPosition`: takes `d` out (first occurrence) and inserts it at
     * `min(position - 1, size)`, computed in Java `int`. A negative index makes
     * `List.add` throw after the removal; `ok` is false then.
     */
    method RequestPosition(d: BuildTypeData, position: int) returns (ok: bool)
      requires IsInt32(position)
      modifies this
      ensures buildTypes == old(buildTypes)
      ensures ok <==> Wrap32(position - 1) >= 0
      ensures ok ==> monitored == MoveTo(old(monitored), d, Wrap32(position - 1))
      ensures !ok ==> monitored == RemoveFirst(old(monitored), d)
    {
      var index := IndexOf(monitored, d);
      if index != -1 {
        monitored := monitored[..index] + monitored[index + 1..];
      }
      var at := Wrap32(position - 1);
      if |monitored| < at {
        at := |monitored|;
      }
      if at < 0 {
        ok := false;
        return;
      }
      monitored := monitored[..at] + [d] + monitored[at..];
      ok := true;
    }

    /**
     * `registerBuildTypes`: the catalog becomes `typeList`; each incoming entry
     * takes the branch of the first old entry with its id; the monitored list
     * becomes the incoming entries whose id was monitored, in the previous
     * monitored order, each with the alias of the first previously monitored
     * entry with its id.
     */
    method RegisterBuildTypes(typeList: seq<BuildTypeData>)
      requires forall t :: t in typeList ==> t !in buildTypes && t !in monitored
      modifies this, set t | t in typeList
      ensures buildTypes == typeList
      ensures monitored == MonitoredOrder(Ids(old(monitored)), typeList)
      ensures forall t :: t in typeList ==> t.branch == old(CarriedBranch(buildTypes, t))
      ensures forall t :: t in typeList && t in monitored ==> t.aliasName == old(AliasFor(monitored, t.id))
      ensures forall t :: t in typeList && t !in monitored ==> t.aliasName == old(t.aliasName)
      ensures forall t :: t in typeList ==> t.queued == old(t.queued) && t.lastBuilds == old(t.lastBuilds)
    {
      var previousMonitored := monitored;
      var previousIds := Ids(monitored);
      CarryBranches(buildTypes, typeList);
      var sorted := MonitoredOrder(previousIds, typeList);
      forall t | t in sorted ensures t in typeList && t !in previousMonitored {
        MonitoredOrderMembers(previousIds, typeList, t);
      }
      CarryAliases(previousMonitored, sorted);
      buildTypes := typeList;
      monitored := sorted;
    }

    /**
     * `registerBuildTypesInQueue`: every monitored entry's queued flag becomes
     * "its id is in the queue"; the entries whose flag changed are returned in
     * monitored order.
     */
    method RegisterBuildTypesInQueue(q: set<string>) returns (changed: seq<BuildTypeData>)
      modifies monitored
      ensures changed == old(QueueChanges(monitored, q))
      ensures forall t :: t in monitored ==> t.queued == (t.id in q)
      ensures forall t :: t in monitored ==>
                t.branch == old(t.branch) && t.aliasName == old(t.aliasName) && t.lastBuilds == old(t.lastBuilds)
    {
      var ms := monitored;
      changed := [];
      var i := 0;
      while i < |ms|
        invariant 0 <= i <= |ms| && ms == monitored
        invariant changed == old(QueueChanges(ms[..i], q))
        invariant forall t :: t in ms[..i] ==> t.queued == (t.id in q)
        invariant forall t :: t in ms && t !in ms[..i] ==> t.queued == old(t.queued)
        invariant forall t :: t in ms ==>
                    t.branch == old(t.branch) && t.aliasName == old(t.aliasName) && t.lastBuilds == old(t.lastBuilds)
      {
        var build := ms[i];
        assert ms[..i + 1][..i] == ms[..i] && ms[..i + 1][i] == build;
        var isNowInQueue := build.id in q;
        if build.queued != isNowInQueue {
          build.SetQueued(isNowInQueue);
          changed := changed + [build];
        }
        assert ms[..i + 1] == ms[..i] + [build];
        i := i + 1;
      }
      assert ms[..|ms|] == ms;
    }
  }

  /** The first loop of `registerBuildTypes`: each entry takes the branch of the first old entry with its id. */
  method CarryBranches(oldCatalog: seq<BuildTypeData>, typeList: seq<BuildTypeData>)
    requires forall t :: t in typeList ==> t !in oldCatalog
    modifies typeList
    ensures forall t :: t in typeList ==> t.branch == old(CarriedBranch(oldCatalog, t))
    ensures forall t :: t in typeList ==>
              t.aliasName == old(t.aliasName) && t.queued == old(t.queued) && t.lastBuilds == old(t.lastBuilds)
  {
    var cnt := 0;
    while cnt < |typeList|
      invariant 0 <= cnt <= |typeList|
      invariant forall t :: t in typeList ==>
                  t.branch == if t in typeList[..cnt] then old(CarriedBranch(oldCatalog, t)) else old(t.branch)
      invariant forall t :: t in typeList ==>
                  t.aliasName == old(t.aliasName) && t.queued == old(t.queued) && t.lastBuilds == old(t.lastBuilds)
    {
      var bt := typeList[cnt];
      var k := FirstWithId(oldCatalog, bt.id);
      if k < |oldCatalog| {
        bt.SetBranch(oldCatalog[k].branch);
      }
      assert typeList[..cnt + 1] == typeList[..cnt] + [bt];
      cnt := cnt + 1;
    }
    assert typeList[..cnt] == typeList;
  }

  /** The alias pass of `registerBuildTypes` over the new monitored list. */
  method CarryAliases(previous: seq<BuildTypeData>, sorted: seq<BuildTypeData>)
    requires forall t :: t in sorted ==> t !in previous
    modifies sorted
    ensures forall t :: t in sorted ==> t.aliasName == old(AliasFor(previous, t.id))
    ensures forall t :: t in sorted ==>
              t.branch == old(t.branch) && t.queued == old(t.queued) && t.lastBuilds == old(t.lastBuilds)
  {
    var i := 0;
    while i < |sorted|
      invariant 0 <= i <= |sorted|
      invariant forall t :: t in sorted ==>
                  t.aliasName == if t in sorted[..i] then old(AliasFor(previous, t.id)) else old(t.aliasName)
      invariant forall t :: t in sorted ==>
                  t.branch == old(t.branch) && t.queued == old(t.queued) && t.lastBuilds == old(t.lastBuilds)
    {
      var bt := sorted[i];
      bt.SetAliasName(AliasFor(previous, bt.id));
      assert sorted[..i + 1] == sorted[..i] + [bt];
      i := i + 1;
    }
    assert sorted[..i] == sorted;
  }

  /** When every monitored flag already agrees with the queue, nothing is reported. */
  lemma QueueChangesInSync(ms: seq<BuildTypeData>, q: set<string>)
    requires forall t :: t in ms ==> t.queued == (t.id in q)
    ensures QueueChanges(ms, q) == []
  {
    if QueueChanges(ms, q) != [] {
      var t := QueueChanges(ms, q)[0];
      QueueChangesMembers(ms, q, t);
    }
  }
}
