/**
 * The API 8.1 controller: the build type list it registers, the queue poll,
 * and the status poll of one build type, which maps each build the server
 * describes to a `BuildData`.
 *
 * As for the wall's controller, what the server answered is an input (`None`
 * for a list request that failed; for the detail requests a map from build id
 * to the build described, a missing id being a failed request) and what is
 * posted on the event bus is an output. This version keeps no failure counter
 * and does not fetch the cached running builds again.
 */
module Api0801 {
  import opened Wrappers
  import opened Builds
  import opened BuildTypes
  import opened Registry
  import opened Locator
  import opened Events

  /** The progress the server reports for a running build; times are in seconds. */
  datatype RunningInformation = RunningInformation(percentageComplete: int, estimatedTotalTime: int, elapsedTime: int)

  /** A build as the server describes it; `runningInformation` may be absent. */
  datatype Build = Build(
    id: int,
    buildType: string,
    status: BuildStatus,
    state: BuildState,
    runningInformation: Option<RunningInformation>,
    finishedDate: Option<int>)

  /** A build type as the server lists it. */
  datatype RemoteBuildType = RemoteBuildType(id: string, name: string, projectName: string)

  // ---------------------------------------------------------------------------
  // Mapping a described build (`_toBuildData`)
  // ---------------------------------------------------------------------------

  /**
   * The build kept for a described build: the same id, build type, status,
   * state and finished date; a build that is not running is complete with no
   * time left, a running one has its reported percentage and the estimated
   * total less the elapsed time left, which is negative once the estimate is
   * overrun. A running build described without its progress has no mapping:
   * reading it throws.
   */
  function ToBuildData(b: Build): (r: Option<BuildData>)
    ensures r.None? <==> b.state == running && b.runningInformation.None?
    ensures r.Some? ==>
              r.value.id == b.id && r.value.buildTypeId == b.buildType &&
              r.value.status == b.status && r.value.state == b.state &&
              r.value.finishedDate == b.finishedDate
    ensures r.Some? && b.state != running ==> r.value.percentageComplete == 100 && r.value.timeLeft == 0
    ensures r.Some? && b.state == running ==>
              var info := b.runningInformation.value;
              r.value.percentageComplete == info.percentageComplete &&
              r.value.timeLeft + info.elapsedTime == info.estimatedTotalTime &&
              (r.value.timeLeft < 0 <==> info.elapsedTime > info.estimatedTotalTime)
  {
    if b.state == running then
      match b.runningInformation
      case None => None
      case Some(info) =>
        Some(BuildData(b.id, b.buildType, b.status, b.state, info.percentageComplete, b.finishedDate,
                       info.estimatedTotalTime - info.elapsedTime))
    else
      Some(BuildData(b.id, b.buildType, b.status, b.state, 100, b.finishedDate, 0))
  }

  /**
   * How the server describes a kept build: a running one with its percentage,
   * `elapsed` seconds spent and an estimate of the elapsed time plus the time
   * left.
   */
  function Describe(d: BuildData, elapsed: int): (b: Build)
    ensures b.id == d.id && b.state == d.state && b.finishedDate == d.finishedDate
    ensures b.runningInformation.Some? <==> d.state == running
  {
    Build(d.id, d.buildTypeId, d.status, d.state,
          if d.state == running then Some(RunningInformation(d.percentageComplete, elapsed + d.timeLeft, elapsed)) else None,
          d.finishedDate)
  }

  /**
   * The mapping reads back every kept build from its description, a build
   * that is not running as complete with no time left.
   */
  lemma ToBuildDataDescribe(d: BuildData, elapsed: int)
    requires d.state != running ==> d.percentageComplete == 100 && d.timeLeft == 0
    ensures ToBuildData(Describe(d, elapsed)) == Some(d)
  {
  }

  // ---------------------------------------------------------------------------
  // Choosing the builds to fetch (specification)
  // ---------------------------------------------------------------------------

  /** `limit(max)`: the first `max` listed builds, in order. */
  function Limit(listed: seq<int>, max: nat): (r: seq<int>)
    ensures |r| <= max && |r| <= |listed|
    ensures forall i :: 0 <= i < |r| ==> r[i] == listed[i]
    ensures |listed| <= max ==> r == listed
  {
    if |listed| <= max then listed else listed[..max]
  }

  /**
   * `removeIf`: the listed builds, in order and with their repetitions,
   * without those cached as finished.
   */
  function Unfinished(ids: seq<int>, h: seq<BuildData>): (r: seq<int>)
    ensures |r| <= |ids|
  {
    if ids == [] then []
    else
      var last := ids[|ids| - 1];
      Unfinished(ids[..|ids| - 1], h) + (if FinishedLocally(h, last) then [] else [last])
  }

  /** Each id occurs as often as it is listed, unless it is cached as finished. */
  lemma {:induction false} UnfinishedCount(ids: seq<int>, h: seq<BuildData>, id: int)
    ensures multiset(Unfinished(ids, h))[id] == if FinishedLocally(h, id) then 0 else multiset(ids)[id]
    decreases |ids|
  {
    if ids != [] {
      var last := ids[|ids| - 1];
      assert ids == ids[..|ids| - 1] + [last];
      UnfinishedCount(ids[..|ids| - 1], h, id);
    }
  }

  /** Filtering keeps the order: filtering a concatenation concatenates the filtered parts. */
  lemma {:induction false} UnfinishedAppend(a: seq<int>, b: seq<int>, h: seq<BuildData>)
    ensures Unfinished(a + b, h) == Unfinished(a, h) + Unfinished(b, h)
    decreases |b|
  {
    if b == [] {
      assert a + b == a;
    } else {
      var b' := b[..|b| - 1];
      assert (a + b)[..|a + b| - 1] == a + b';
      assert (a + b)[|a + b| - 1] == b[|b| - 1];
      UnfinishedAppend(a, b', h);
    }
  }

  /** Filtering twice filters once. */
  lemma {:induction false} UnfinishedIdempotent(ids: seq<int>, h: seq<BuildData>)
    ensures Unfinished(Unfinished(ids, h), h) == Unfinished(ids, h)
    decreases |ids|
  {
    if ids != [] {
      var last := ids[|ids| - 1];
      var front := Unfinished(ids[..|ids| - 1], h);
      UnfinishedIdempotent(ids[..|ids| - 1], h);
      var tail := if FinishedLocally(h, last) then [] else [last];
      UnfinishedAppend(front, tail, h);
      if !FinishedLocally(h, last) {
        assert [last][..0] == [];
      }
    }
  }

  /**
   * A build is fetched exactly when it is among the first `max` listed and is
   * not cached as finished; at most `max` requests go out, one per listed
   * occurrence.
   */
  lemma SelectedIds(listed: seq<int>, h: seq<BuildData>, max: nat, id: int)
    ensures var r := Unfinished(Limit(listed, max), h);
            |r| <= max &&
            (id in r <==> (exists i :: 0 <= i < |listed| && i < max && listed[i] == id) && !FinishedLocally(h, id))
  {
    var w := Limit(listed, max);
    var r := Unfinished(w, h);
    UnfinishedCount(w, h, id);
    assert id in r <==> multiset(r)[id] > 0;
    assert id in w <==> multiset(w)[id] > 0;
    if id in w {
      var i :| 0 <= i < |w| && w[i] == id;
      assert listed[i] == id;
    }
    if exists i :: 0 <= i < |listed| && i < max && listed[i] == id {
      var i :| 0 <= i < |listed| && i < max && listed[i] == id;
      assert w[i] == id;
    }
  }

  /** The builds an answered detail request maps, in request order. */
  function Answers(ids: seq<int>, details: map<int, Build>): (r: seq<BuildData>)
    ensures |r| <= |ids|
    ensures forall d :: d in r ==> exists id :: id in ids && id in details && ToBuildData(details[id]) == Some(d)
  {
    if ids == [] then []
    else
      var id := ids[|ids| - 1];
      var front := Answers(ids[..|ids| - 1], details);
      var more := if id in details && ToBuildData(details[id]).Some? then [ToBuildData(details[id]).value] else [];
      assert forall d :: d in front ==> exists k :: k in ids && k in details && ToBuildData(details[k]) == Some(d) by {
        forall d | d in front ensures exists k :: k in ids && k in details && ToBuildData(details[k]) == Some(d) {
          var k :| k in ids[..|ids| - 1] && k in details && ToBuildData(details[k]) == Some(d);
          assert k in ids;
        }
      }
      front + more
  }

  /** One more request through the fan-out loop. */
  lemma AnswersStep(ids: seq<int>, i: nat, details: map<int, Build>)
    requires i < |ids|
    ensures Answers(ids[..i + 1], details) ==
              Answers(ids[..i], details) +
              (if ids[i] in details && ToBuildData(details[ids[i]]).Some? then [ToBuildData(details[ids[i]]).value] else [])
  {
    assert ids[..i + 1][..i] == ids[..i];
  }

  /** Every kept build was kept before the poll or is an answered request's mapping. */
  lemma PollMembers(h: seq<BuildData>, ids: seq<int>, details: map<int, Build>, x: BuildData)
    requires ValidHistory(h) && x in RegisterEach(h, Answers(ids, details))
    ensures x in h || exists id :: id in ids && id in details && ToBuildData(details[id]) == Some(x)
  {
    RegisterEachMembers(h, Answers(ids, details), x);
  }

  // ---------------------------------------------------------------------------
  // The controller
  // ---------------------------------------------------------------------------

  /** The branch a listed build type ends with: the first old catalog entry's with its id, else none. */
  function BranchFor(catalog: seq<BuildTypeData>, id: string): Option<string>
    reads catalog
  {
    var k := FirstWithId(catalog, id);
    if k < |catalog| then catalog[k].branch else None
  }

  /** A new build type made from a listed one: no project id is known and it has no branch. */
  ghost predicate MadeFrom(t: BuildTypeData, r: RemoteBuildType)
    reads t
  {
    t.id == r.id && t.name == r.name && t.projectId == [] && t.projectName == r.projectName &&
    t.branch.None? && t.aliasName.None? && !t.queued && t.lastBuilds == []
  }

  /** The stream mapping of `loadBuildList`: one new build type per listed one, in order. */
  method NewBuildTypes(remote: seq<RemoteBuildType>) returns (list: seq<BuildTypeData>)
    ensures |list| == |remote|
    ensures forall i :: 0 <= i < |list| ==> fresh(list[i]) && MadeFrom(list[i], remote[i])
    ensures forall i, j :: 0 <= i < j < |list| ==> list[i] != list[j]
  {
    list := [];
    var i := 0;
    while i < |remote|
      invariant 0 <= i <= |remote| && |list| == i
      invariant forall j :: 0 <= j < i ==> fresh(list[j]) && MadeFrom(list[j], remote[j])
      invariant forall j, k :: 0 <= j < k < i ==> list[j] != list[k]
    {
      var r := remote[i];
      var t := new BuildTypeData(r.id, r.name, [], r.projectName, None);
      list := list + [t];
      i := i + 1;
    }
  }

  class ApiController {
    const buildManager: BuildTypeManager
    /** The number of listed builds considered; it is set by the base class. */
    const maxBuildsToConsider: nat

    constructor (buildManager: BuildTypeManager, maxBuildsToConsider: nat)
      ensures this.buildManager == buildManager && this.maxBuildsToConsider == maxBuildsToConsider
    {
      this.buildManager := buildManager;
      this.maxBuildsToConsider := maxBuildsToConsider;
    }

    /**
     * `loadBuildList`: on success the listed build types, made anew, replace
     * the catalog and the build type registry is posted; on failure the
     * future fails and nothing changes.
     */
    method LoadBuildList(fetched: Option<seq<RemoteBuildType>>) returns (ack: Ack, posts: seq<Event>)
      modifies buildManager
      ensures ack == if fetched.Some? then Success else Failure
      ensures fetched.None? ==>
                posts == [] && buildManager.buildTypes == old(buildManager.buildTypes) &&
                buildManager.monitored == old(buildManager.monitored)
      ensures fetched.Some? ==>
                var list := buildManager.buildTypes;
                posts == [BuildManagerPosted] && |list| == |fetched.value| &&
                buildManager.monitored == MonitoredOrder(Ids(old(buildManager.monitored)), list) &&
                forall i :: 0 <= i < |list| ==>
                  fresh(list[i]) && list[i].id == fetched.value[i].id && list[i].name == fetched.value[i].name &&
                  list[i].projectName == fetched.value[i].projectName &&
                  list[i].branch == old(BranchFor(buildManager.buildTypes, fetched.value[i].id)) &&
                  list[i].aliasName == (if list[i] in buildManager.monitored then old(AliasFor(buildManager.monitored, fetched.value[i].id)) else None) &&
                  !list[i].queued && list[i].lastBuilds == []
    {
      if fetched.None? {
        return Failure, [];
      }
      var list := NewBuildTypes(fetched.value);
      ghost var oldCatalog := buildManager.buildTypes;
      ghost var oldMonitored := buildManager.monitored;
      buildManager.RegisterBuildTypes(list);
      forall i | 0 <= i < |list|
        ensures list[i].branch == old(BranchFor(buildManager.buildTypes, fetched.value[i].id))
      {
        assert list[i] in list;
      }
      ack, posts := Success, [BuildManagerPosted];
    }

    /**
     * `requestQueuedBuilds`, without a feature gate: on success every
     * monitored build type's queued flag follows the queue and exactly the
     * build types whose flag changed are posted, in monitored order; a failure
     * changes nothing.
     */
    method RequestQueuedBuilds(fetched: Option<set<string>>) returns (posts: seq<Event>)
      modifies buildManager.monitored
      ensures fetched.None? ==> posts == [] && forall t :: t in buildManager.monitored ==> t.queued == old(t.queued)
      ensures fetched.Some? ==>
                posts == QueuePosts(old(QueueChanges(buildManager.monitored, fetched.value))) &&
                forall t :: t in buildManager.monitored ==> t.queued == (t.id in fetched.value)
      ensures forall t :: t in buildManager.monitored ==>
                t.branch == old(t.branch) && t.aliasName == old(t.aliasName) && t.lastBuilds == old(t.lastBuilds)
    {
      match fetched
      case None =>
        posts := [];
      case Some(buildTypesInQueue) =>
        var changed := buildManager.RegisterBuildTypesInQueue(buildTypesInQueue);
        posts := QueuePosts(changed);
    }

    /**
     * `requestLastBuildStatus`: the last builds of the build type are listed,
     * the first of them not cached as finished are requested one by one, in
     * order; each answered request whose build maps registers it and posts the
     * build type. A failed request is only logged.
     */
    method RequestLastBuildStatus(bt: BuildTypeData, listed: Option<seq<int>>, details: map<int, Build>)
      returns (locator: string, requested: seq<int>, posts: seq<Event>)
      requires bt.Valid()
      modifies bt
      ensures locator == BaseLocator(bt.id, maxBuildsToConsider)
      ensures bt.Valid()
      ensures bt.branch == old(bt.branch) && bt.aliasName == old(bt.aliasName) && bt.queued == old(bt.queued)
      ensures listed.None? ==> requested == [] && posts == [] && bt.lastBuilds == old(bt.lastBuilds)
      ensures listed.Some? ==>
                requested == Unfinished(Limit(listed.value, maxBuildsToConsider), old(bt.lastBuilds)) &&
                bt.lastBuilds == RegisterEach(old(bt.lastBuilds), Answers(requested, details)) &&
                posts == Repeat([BuildTypePosted(bt)], |Answers(requested, details)|)
    {
      locator := BaseLocator(bt.id, maxBuildsToConsider);
      if listed.None? {
        return locator, [], [];
      }
      requested := SelectBuilds(listed.value, bt.lastBuilds, maxBuildsToConsider);
      posts := FetchDetails(bt, requested, details);
    }
  }

  /** The selection of `requestLastBuildStatus`: a list cut to `max`, then `removeIf` finished. */
  method SelectBuilds(listed: seq<int>, h: seq<BuildData>, max: nat) returns (buildToRequest: seq<int>)
    ensures buildToRequest == Unfinished(Limit(listed, max), h)
  {
    var window := Limit(listed, max);
    buildToRequest := [];
    var i := 0;
    while i < |window|
      invariant 0 <= i <= |window|
      invariant buildToRequest == Unfinished(window[..i], h)
    {
      assert window[..i + 1][..i] == window[..i];
      if !FinishedLocally(h, window[i]) {
        buildToRequest := buildToRequest + [window[i]];
      }
      i := i + 1;
    }
    assert window[..i] == window;
  }

  /** The fan-out loop: each requested build, in order, is registered when its request is answered and maps. */
  method FetchDetails(bt: BuildTypeData, requested: seq<int>, details: map<int, Build>) returns (posts: seq<Event>)
    requires bt.Valid()
    modifies bt
    ensures bt.Valid()
    ensures bt.branch == old(bt.branch) && bt.aliasName == old(bt.aliasName) && bt.queued == old(bt.queued)
    ensures bt.lastBuilds == RegisterEach(old(bt.lastBuilds), Answers(requested, details))
    ensures posts == Repeat([BuildTypePosted(bt)], |Answers(requested, details)|)
  {
    ghost var h := bt.lastBuilds;
    ghost var n := 0;
    posts := [];
    var i := 0;
    while i < |requested|
      invariant 0 <= i <= |requested|
      invariant bt.Valid()
      invariant bt.branch == old(bt.branch) && bt.aliasName == old(bt.aliasName) && bt.queued == old(bt.queued)
      invariant bt.lastBuilds == RegisterEach(h, Answers(requested[..i], details))
      invariant n == |Answers(requested[..i], details)| && posts == Repeat([BuildTypePosted(bt)], n)
    {
      var buildId := requested[i];
      AnswersStep(requested, i, details);
      ghost var before := Answers(requested[..i], details);
      if buildId in details && ToBuildData(details[buildId]).Some? {
        var data := ToBuildData(details[buildId]).value;
        assert Answers(requested[..i + 1], details) == before + [data];
        RegisterEachSnoc(h, before, data);
        bt.RegisterBuild(data);
        posts := posts + [BuildTypePosted(bt)];
        n := n + 1;
      } else {
        assert Answers(requested[..i + 1], details) == before + [];
        assert before + [] == before;
      }
      i := i + 1;
    }
    assert requested[..i] == requested;
  }
}
