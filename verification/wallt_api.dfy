/**
 * The wall's API controller: the capability gates, the list fetches that feed
 * the project and build type registries, the queue poll, and the status poll
 * of one build type with its choice of builds to fetch and its failure counter.
 *
 * Each operation runs to completion at one instant `now`. What the server
 * answered is an input: `None` for a list request that failed, and for the
 * detail requests a map from build id to the build received (a missing id is
 * a failed request). What the controller posts on its event bus is an output.
 */
module WalltApi {
  import opened Wrappers
  import opened JavaInt
  import opened Builds
  import opened BuildTypes
  import opened Registry
  import opened Projects
  import opened FailureCounter
  import opened Locator
  import opened Events

  /** Only the first builds of the listed ones are considered. */
  const MaxBuildsToConsider: nat := 3

  datatype ApiFeature = PROJECT_STATUS | BUILD_TYPE_STATUS | QUEUE_STATUS

  // ---------------------------------------------------------------------------
  // Projects by id
  // ---------------------------------------------------------------------------

  /** The index of the first project with this id, or `|projects|` when there is none. */
  function FirstProjectIndex(projects: seq<ProjectData>, id: string): (k: nat)
    ensures k <= |projects|
    ensures k < |projects| ==> projects[k].id == id
    ensures forall j :: 0 <= j < k ==> projects[j].id != id
  {
    if projects == [] then 0
    else if projects[0].id == id then 0
    else FirstProjectIndex(projects[1..], id) + 1
  }

  /** `getProject(id)`: the first registered project with this id. */
  function FindProject(projects: seq<ProjectData>, id: string): (r: Option<ProjectData>)
    ensures r.None? <==> forall i :: 0 <= i < |projects| ==> projects[i].id != id
    ensures r.Some? ==> r.value in projects && r.value.id == id
  {
    var k := FirstProjectIndex(projects, id);
    if k < |projects| then Some(projects[k]) else None
  }

  /** The build types of `list`, in order, that `getProject` attaches to project `p`. */
  function Attached(list: seq<BuildTypeData>, projects: seq<ProjectData>, p: ProjectData): seq<BuildTypeData> {
    if list == [] then []
    else
      var t := list[|list| - 1];
      Attached(list[..|list| - 1], projects, p) + (if FindProject(projects, t.projectId) == Some(p) then [t] else [])
  }

  /** The project posts of the attaching loop: one per build type whose project is known. */
  function AttachPosts(list: seq<BuildTypeData>, projects: seq<ProjectData>): seq<Event> {
    if list == [] then []
    else
      var t := list[|list| - 1];
      var p := FindProject(projects, t.projectId);
      AttachPosts(list[..|list| - 1], projects) + (if p.Some? then [ProjectPosted(p.value)] else [])
  }

  /** A build type is attached to its project exactly when that is the first project with its project id. */
  lemma {:induction false} AttachedMembers(list: seq<BuildTypeData>, projects: seq<ProjectData>, p: ProjectData, t: BuildTypeData)
    ensures t in Attached(list, projects, p) <==> t in list && FindProject(projects, t.projectId) == Some(p)
  {
    if list != [] {
      AttachedMembers(list[..|list| - 1], projects, p, t);
      assert list == list[..|list| - 1] + [list[|list| - 1]];
    }
  }

  /** A build type whose project id is unknown is attached nowhere. */
  lemma {:induction false} AttachedNowhere(list: seq<BuildTypeData>, projects: seq<ProjectData>, p: ProjectData)
    requires forall i :: 0 <= i < |list| ==> FindProject(projects, list[i].projectId).None?
    ensures Attached(list, projects, p) == [] && AttachPosts(list, projects) == []
  {
    if list != [] {
      AttachedNowhere(list[..|list| - 1], projects, p);
    }
  }

  // ---------------------------------------------------------------------------
  // Choosing the builds to fetch (specification)
  // ---------------------------------------------------------------------------

  /** The ids of the first listed builds, as a set. */
  function Window(listed: seq<int>): set<int> {
    set i | 0 <= i < |listed| && i < MaxBuildsToConsider :: listed[i]
  }

  /** The ids of the cached running builds with a resolved status (`getLastBuilds(running, MAX_VALUE)`). */
  function RunningIds(h: seq<BuildData>): set<int> {
    set b | b in LastBuilds(h, running, IntMax) :: b.id
  }

  /**
   * The builds whose details are fetched: the window, without the builds known
   * to be finished and without the ignored ones, plus every running build.
   */
  function SelectBuildIds(listed: seq<int>, h: seq<BuildData>, c: Counter, now: int): set<int> {
    (set id | id in Window(listed) && !FinishedLocally(h, id) && !IsIgnored(c, id, now)) + RunningIds(h)
  }

  /** The running ids are the ids of the running builds with a resolved status, all of them. */
  lemma RunningIdsMembers(h: seq<BuildData>, id: int)
    requires |h| <= IntMax
    ensures id in RunningIds(h) <==> exists b :: b in h && Counts(b, running) && b.id == id
  {
    var r := LastBuilds(h, running, IntMax);
    assert r == Eligible(h, running);
    if id in RunningIds(h) {
      var b :| b in r && b.id == id;
      assert b in h && Counts(b, running);
    }
    if exists b :: b in h && Counts(b, running) && b.id == id {
      var b :| b in h && Counts(b, running) && b.id == id;
      assert b in r;
    }
  }

  /** A window id is fetched when it is neither known as finished nor ignored. */
  lemma SelectedFromWindow(listed: seq<int>, h: seq<BuildData>, c: Counter, now: int, i: nat)
    requires i < |listed| && i < MaxBuildsToConsider
    requires !FinishedLocally(h, listed[i]) && !IsIgnored(c, listed[i], now)
    ensures listed[i] in SelectBuildIds(listed, h, c, now)
  {
    assert listed[i] in Window(listed);
  }

  /**
   * A fetched id is one of the first listed ones, or a cached running build's;
   * an ignored id is fetched only when it is running.
   */
  lemma SelectedOrigin(listed: seq<int>, h: seq<BuildData>, c: Counter, now: int, id: int)
    requires ValidHistory(h)
    requires id in SelectBuildIds(listed, h, c, now)
    ensures (exists i :: 0 <= i < |listed| && i < MaxBuildsToConsider && listed[i] == id) ||
            (exists b :: b in h && Counts(b, running) && b.id == id)
    ensures IsIgnored(c, id, now) ==> exists b :: b in h && Counts(b, running) && b.id == id
  {
    RunningIdsMembers(h, id);
  }

  /** Every cached running build is fetched again, ignored or not. */
  lemma SelectedRunning(listed: seq<int>, h: seq<BuildData>, c: Counter, now: int, b: BuildData)
    requires ValidHistory(h) && b in h && Counts(b, running)
    ensures b.id in SelectBuildIds(listed, h, c, now)
  {
    RunningIdsMembers(h, b.id);
  }

  /** No fetched id belongs to a build cached as finished. */
  lemma SelectedNeverFinished(listed: seq<int>, h: seq<BuildData>, c: Counter, now: int, id: int)
    requires ValidHistory(h)
    requires id in SelectBuildIds(listed, h, c, now)
    ensures !FinishedLocally(h, id)
  {
    if id in RunningIds(h) {
      RunningIdsMembers(h, id);
      var b :| b in h && Counts(b, running) && b.id == id;
      BuildByIdUnique(h, b);
    }
  }

  // ---------------------------------------------------------------------------
  // The controller
  // ---------------------------------------------------------------------------

  /** The builds among the requested ones whose detail request was answered. */
  function Fetched(details: map<int, BuildData>, ids: set<int>): set<BuildData> {
    set id | id in ids && id in details :: details[id]
  }

  /**
   * The choice of `requestLastBuildStatus`: the first listed ids, less the
   * builds cached as finished, less the ignored ones, plus the running ones.
   */
  method SelectBuilds(listed: seq<int>, h: seq<BuildData>, c: Counter, now: int) returns (buildToRequest: set<int>)
    ensures buildToRequest == SelectBuildIds(listed, h, c, now)
  {
    buildToRequest := Window(listed);
    buildToRequest := set id | id in buildToRequest && !FinishedLocally(h, id);
    buildToRequest := set id | id in buildToRequest && !IsIgnored(c, id, now);
    buildToRequest := buildToRequest + RunningIds(h);
  }


  class ApiController {
    /** The features the server's API version supports. */
    const supported: set<ApiFeature>
    const buildManager: BuildTypeManager
    /** The project registry: the last registered project list. */
    var projects: seq<ProjectData>
    var errorCounter: Counter

    constructor (supported: set<ApiFeature>, buildManager: BuildTypeManager)
      ensures this.supported == supported && this.buildManager == buildManager
      ensures projects == [] && errorCounter == map[]
    {
      this.supported := supported;
      this.buildManager := buildManager;
      projects := [];
      errorCounter := map[];
    }

    /**
     * `loadProjectList`: needs both the project and the build type features;
     * on success the fetched projects are registered and the project registry
     * is posted, on failure nothing changes.
     */
    method LoadProjectList(fetched: Option<seq<ProjectData>>) returns (ack: Ack, posts: seq<Event>)
      modifies this
      ensures errorCounter == old(errorCounter)
      ensures !({PROJECT_STATUS, BUILD_TYPE_STATUS} <= supported) ==>
                ack == Success && posts == [] && projects == old(projects)
      ensures {PROJECT_STATUS, BUILD_TYPE_STATUS} <= supported && fetched.Some? ==>
                ack == Success && posts == [ProjectManagerPosted] && projects == fetched.value
      ensures {PROJECT_STATUS, BUILD_TYPE_STATUS} <= supported && fetched.None? ==>
                ack == Failure && posts == [] && projects == old(projects)
    {
      if !({PROJECT_STATUS, BUILD_TYPE_STATUS} <= supported) {
        return Success, [];
      }
      match fetched
      case None =>
        ack, posts := Failure, [];
      case Some(list) =>
        projects := list;
        ack, posts := Success, [ProjectManagerPosted];
    }

    /**
     * `loadBuildTypeList`: on success the fetched build types replace the
     * catalog, the build type registry is posted, and each build type is
     * attached, in catalog order, to the first project with its project id,
     * which is posted; each fetched entry carries over the branch of the old
     * catalog entry with its id and, when monitored, the alias of the old
     * monitored entry with its id; on failure nothing changes.
     */
    method LoadBuildTypeList(fetched: Option<seq<BuildTypeData>>) returns (ack: Ack, posts: seq<Event>)
      requires fetched.Some? ==> forall t :: t in fetched.value ==> t !in buildManager.buildTypes && t !in buildManager.monitored
      modifies buildManager, (if fetched.Some? then set t | t in fetched.value else {}), set p | p in projects
      ensures projects == old(projects) && errorCounter == old(errorCounter)
      ensures BUILD_TYPE_STATUS !in supported || fetched.None? ==>
                buildManager.buildTypes == old(buildManager.buildTypes) &&
                buildManager.monitored == old(buildManager.monitored) &&
                posts == [] && forall p :: p in projects ==> p.buildTypes == old(p.buildTypes)
      ensures ack == if BUILD_TYPE_STATUS in supported && fetched.None? then Failure else Success
      ensures BUILD_TYPE_STATUS in supported && fetched.Some? ==>
                buildManager.buildTypes == fetched.value &&
                buildManager.monitored == MonitoredOrder(Ids(old(buildManager.monitored)), fetched.value) &&
                posts == [BuildManagerPosted] + AttachPosts(fetched.value, projects) &&
                forall p :: p in projects ==> p.buildTypes == old(p.buildTypes) + Attached(fetched.value, projects, p)
      ensures BUILD_TYPE_STATUS in supported && fetched.Some? ==>
                (forall t :: t in fetched.value ==> t.branch == old(CarriedBranch(buildManager.buildTypes, t))) &&
                (forall t :: t in fetched.value && t in buildManager.monitored ==>
                   t.aliasName == old(AliasFor(buildManager.monitored, t.id))) &&
                (forall t :: t in fetched.value && t !in buildManager.monitored ==> t.aliasName == old(t.aliasName)) &&
                forall t :: t in fetched.value ==> t.queued == old(t.queued) && t.lastBuilds == old(t.lastBuilds)
      ensures forall p :: p in projects ==> p.aliasName == old(p.aliasName)
    {
      if BUILD_TYPE_STATUS !in supported {
        return Success, [];
      }
      if fetched.None? {
        return Failure, [];
      }
      var list := fetched.value;
      buildManager.RegisterBuildTypes(list);
      var attached := AttachBuildTypes(buildManager.buildTypes, projects);
      posts := [BuildManagerPosted] + attached;
      ack := Success;
    }

    /**
     * `requestQueuedBuilds`: on success every monitored build type's queued
     * flag follows the queue, and exactly the build types whose flag changed
     * are posted, in monitored order.
     */
    method RequestQueuedBuilds(fetched: Option<set<string>>) returns (ack: Ack, posts: seq<Event>)
      modifies buildManager.monitored
      ensures ack == if QUEUE_STATUS in supported && fetched.None? then Failure else Success
      ensures QUEUE_STATUS !in supported || fetched.None? ==>
                posts == [] && forall t :: t in buildManager.monitored ==> t.queued == old(t.queued)
      ensures QUEUE_STATUS in supported && fetched.Some? ==>
                posts == QueuePosts(old(QueueChanges(buildManager.monitored, fetched.value))) &&
                forall t :: t in buildManager.monitored ==> t.queued == (t.id in fetched.value)
      ensures forall t :: t in buildManager.monitored ==>
                t.branch == old(t.branch) && t.aliasName == old(t.aliasName) && t.lastBuilds == old(t.lastBuilds)
    {
      if QUEUE_STATUS !in supported {
        return Success, [];
      }
      match fetched
      case None =>
        ack, posts := Failure, [];
      case Some(buildTypesInQueue) =>
        var changed := buildManager.RegisterBuildTypesInQueue(buildTypesInQueue);
        posts := QueuePosts(changed);
        ack := Success;
    }

    /**
     * `requestLastBuildStatus`: expired failure counts are dropped; the last
     * builds of the build type on its branch are listed; the builds chosen by
     * `SelectBuildIds` are requested one by one, in some order; an answered
     * request registers its build and posts the build type, then its project
     * when one is known; a failed one counts a failure for its build. The
     * returned future fails only when the list request fails.
     */
    method RequestLastBuildStatus(bt: BuildTypeData, now: int, listed: Option<seq<int>>, details: map<int, BuildData>)
      returns (ack: Ack, locator: Option<string>, requested: set<int>, order: seq<int>, posts: seq<Event>)
      requires bt.Valid()
      modifies this, bt
      ensures bt.Valid() && projects == old(projects)
      ensures bt.branch == old(bt.branch) && bt.aliasName == old(bt.aliasName) && bt.queued == old(bt.queued)
      ensures BUILD_TYPE_STATUS !in supported ==>
                ack == Success && locator == None && requested == {} && order == [] && posts == [] &&
                errorCounter == old(errorCounter) && bt.lastBuilds == old(bt.lastBuilds)
      ensures BUILD_TYPE_STATUS in supported ==>
                locator == Some(StatusLocator(bt.id, MaxBuildsToConsider, bt.branch)) &&
                ack == (if listed.Some? then Success else Failure)
      ensures BUILD_TYPE_STATUS in supported && listed.None? ==>
                requested == {} && order == [] && posts == [] &&
                errorCounter == CleanUp(old(errorCounter), now) && bt.lastBuilds == old(bt.lastBuilds)
      ensures BUILD_TYPE_STATUS in supported && listed.Some? ==>
                requested == SelectBuildIds(listed.value, old(bt.lastBuilds), CleanUp(old(errorCounter), now), now) &&
                errorCounter == RecordAll(CleanUp(old(errorCounter), now), requested - details.Keys, now) &&
                TakenOnce(order, requested * details.Keys) &&
                bt.lastBuilds == RegisterEach(old(bt.lastBuilds), AnsweredBuilds(order, details)) &&
                AnswersKept(old(bt.lastBuilds), bt.lastBuilds, requested * details.Keys, details)
      ensures posts == Repeat(AnswerPosts(bt, FindProject(projects, bt.projectId)), |requested * details.Keys|)
    {
      if BUILD_TYPE_STATUS !in supported {
        return Success, None, {}, [], [];
      }
      var c := CleanUp(errorCounter, now);
      locator := Some(StatusLocator(bt.id, MaxBuildsToConsider, bt.branch));
      if listed.None? {
        errorCounter := c;
        return Failure, locator, {}, [], [];
      }
      requested := SelectBuilds(listed.value, bt.lastBuilds, c, now);
      var project := FindProject(projects, bt.projectId);
      var answered := requested * details.Keys;
      ghost var h := bt.lastBuilds;
      order, posts := RegisterAnswers(bt, answered, details, project);
      AnsweredKeeps(h, order, answered, details);
      errorCounter := RecordFailures(c, requested - details.Keys, now);
      ack := Success;
    }
  }

  /**
   * The attaching loop of `loadBuildTypeList`: each build type, in order, is
   * registered on the first project with its project id, which is posted.
   */
  method AttachBuildTypes(list: seq<BuildTypeData>, projects: seq<ProjectData>) returns (posts: seq<Event>)
    modifies set p | p in projects
    ensures posts == AttachPosts(list, projects)
    ensures forall p :: p in projects ==>
              p.buildTypes == old(p.buildTypes) + Attached(list, projects, p) && p.aliasName == old(p.aliasName)
  {
    posts := [];
    var i := 0;
    while i < |list|
      invariant 0 <= i <= |list|
      invariant posts == AttachPosts(list[..i], projects)
      invariant forall p :: p in projects ==>
                  p.buildTypes == old(p.buildTypes) + Attached(list[..i], projects, p) && p.aliasName == old(p.aliasName)
    {
      var buildType := list[i];
      AttachStep(list, projects, i);
      var project := FindProject(projects, buildType.projectId);
      if project.Some? {
        label before:
        project.value.RegisterBuildType(buildType);
        forall p | p in projects
          ensures p.buildTypes == old@before(p.buildTypes) + (if p == project.value then [buildType] else [])
          ensures p.aliasName == old@before(p.aliasName)
        {
        }
        posts := posts + [ProjectPosted(project.value)];
      }
      i := i + 1;
    }
    assert list[..i] == list;
  }

  /** One more build type through the attaching loop. */
  lemma AttachStep(list: seq<BuildTypeData>, projects: seq<ProjectData>, i: nat)
    requires i < |list|
    ensures var p := FindProject(projects, list[i].projectId);
            AttachPosts(list[..i + 1], projects) ==
              AttachPosts(list[..i], projects) + (if p.Some? then [ProjectPosted(p.value)] else [])
    ensures forall q :: q in projects ==>
              Attached(list[..i + 1], projects, q) ==
                Attached(list[..i], projects, q) + (if FindProject(projects, list[i].projectId) == Some(q) then [list[i]] else [])
  {
    assert list[..i + 1][..i] == list[..i];
  }

  /** The posts of one answered detail request: the build type, then its project when one is known. */
  function AnswerPosts(bt: BuildTypeData, project: Option<ProjectData>): seq<Event> {
    [BuildTypePosted(bt)] + (if project.Some? then [ProjectPosted(project.value)] else [])
  }

  /** The builds of the answered requests `order`, in that order. */
  function AnsweredBuilds(order: seq<int>, details: map<int, BuildData>): (r: seq<BuildData>)
    requires forall i :: 0 <= i < |order| ==> order[i] in details
    ensures |r| == |order| && forall i :: 0 <= i < |r| ==> r[i] == details[order[i]]
  {
    if order == [] then []
    else AnsweredBuilds(order[..|order| - 1], details) + [details[order[|order| - 1]]]
  }

  /** Each answered id occurs once in `order`, and nothing else does. */
  predicate TakenOnce(order: seq<int>, answered: set<int>) {
    (forall i :: 0 <= i < |order| ==> order[i] in answered) &&
    (forall id :: id in answered ==> id in order) &&
    (forall i, j :: 0 <= i < j < |order| ==> order[i] != order[j])
  }

  /**
   * The answered detail requests of `requestLastBuildStatus`, taken in some
   * order, returned as `order`: each registers its build on `bt` and posts
   * `bt`, then `project` when there is one. The history is the old one with
   * the answered builds registered in that order; the failed requests leave it
   * alone.
   */
  method RegisterAnswers(bt: BuildTypeData, answered: set<int>, details: map<int, BuildData>, project: Option<ProjectData>)
    returns (order: seq<int>, posts: seq<Event>)
    requires bt.Valid() && answered <= details.Keys
    modifies bt
    ensures TakenOnce(order, answered)
    ensures bt.lastBuilds == RegisterEach(old(bt.lastBuilds), AnsweredBuilds(order, details))
    ensures bt.Valid()
    ensures bt.branch == old(bt.branch) && bt.aliasName == old(bt.aliasName) && bt.queued == old(bt.queued)
    ensures posts == Repeat(AnswerPosts(bt, project), |answered|)
  {
    ghost var h := bt.lastBuilds;
    order, posts := [], [];
    var block := AnswerPosts(bt, project);
    var pending := answered;
    ghost var done: set<int> := {};
    ghost var n := 0;
    while pending != {}
      invariant Taking(answered, pending, done, order, details) && n == |done|
      invariant bt.Valid()
      invariant bt.branch == old(bt.branch) && bt.aliasName == old(bt.aliasName) && bt.queued == old(bt.queued)
      invariant bt.lastBuilds == RegisterEach(h, AnsweredBuilds(order, details))
      invariant block == AnswerPosts(bt, project) && posts == Repeat(block, n)
      decreases |pending|
    {
      Nonempty(pending);
      var buildId :| buildId in pending;
      TakeAnswer(answered, pending, done, order, details, buildId);
      var answerPosts := Answer(bt, details[buildId], project);
      AnsweredStep(h, order, details, buildId);
      assert answerPosts == block && Repeat(block, n + 1) == posts + block;
      posts := posts + answerPosts;
      order := order + [buildId];
      n := n + 1;
      pending := pending - {buildId};
      done := done + {buildId};
    }
    assert done == answered;
  }

  /**
   * The fan-out part-way: the answered ids split into `pending` and `done`,
   * and `order` takes each done id once.
   */
  predicate Taking(answered: set<int>, pending: set<int>, done: set<int>, order: seq<int>, details: map<int, BuildData>) {
    pending + done == answered && pending !! done && TakenOnce(order, done) &&
    forall i :: 0 <= i < |order| ==> order[i] in details
  }

  /** Taking one more pending answer keeps the split and the order. */
  lemma TakeAnswer(answered: set<int>, pending: set<int>, done: set<int>, order: seq<int>,
                   details: map<int, BuildData>, buildId: int)
    requires Taking(answered, pending, done, order, details) && answered <= details.Keys && buildId in pending
    ensures Taking(answered, pending - {buildId}, done + {buildId}, order + [buildId], details)
    ensures |pending - {buildId}| < |pending| && |done + {buildId}| == |done| + 1 && buildId in details
  {
    TakeOne(answered, pending, done, buildId);
  }

  /** One more answer taken: the series of registrations grows by its build. */
  lemma AnsweredStep(h: seq<BuildData>, order: seq<int>, details: map<int, BuildData>, buildId: int)
    requires forall i :: 0 <= i < |order| ==> order[i] in details
    requires buildId in details
    ensures RegisterEach(h, AnsweredBuilds(order + [buildId], details)) ==
              Register(RegisterEach(h, AnsweredBuilds(order, details)), details[buildId])
  {
    assert (order + [buildId])[..|order|] == order;
    RegisterEachSnoc(h, AnsweredBuilds(order, details), details[buildId]);
  }

  /**
   * The history `after` the answers `answered` against the history `before`:
   * it holds only old builds and fetched ones; when each answer carries the
   * id it was asked for, every fetched build is retained, and so is every old
   * build whose id was not answered.
   */
  ghost predicate AnswersKept(before: seq<BuildData>, after: seq<BuildData>, answered: set<int>, details: map<int, BuildData>) {
    (forall x :: x in after ==> x in before || x in Fetched(details, answered)) &&
    ((forall id :: id in details ==> details[id].id == id) ==>
       (forall b :: b in Fetched(details, answered) ==> Retained(after, b)) &&
       (forall b :: b in before && b.id !in answered ==> Retained(after, b)))
  }

  /**
   * What the fan-out leaves in the history: only old builds and fetched ones;
   * when each answer carries the id it was asked for, every fetched build is
   * retained, and so is every old build whose id was not answered.
   */
  lemma AnsweredKeeps(h: seq<BuildData>, order: seq<int>, answered: set<int>, details: map<int, BuildData>)
    requires ValidHistory(h) && answered <= details.Keys && TakenOnce(order, answered)
    ensures AnswersKept(h, RegisterEach(h, AnsweredBuilds(order, details)), answered, details)
  {
    var bs := AnsweredBuilds(order, details);
    var after := RegisterEach(h, bs);
    forall x | x in after ensures x in h || x in Fetched(details, answered) {
      RegisterEachMembers(h, bs, x);
      if x !in h {
        var i :| 0 <= i < |bs| && bs[i] == x;
        assert order[i] in answered;
      }
    }
    if forall id :: id in details ==> details[id].id == id {
      RegisterEachRetains(h, bs);
      forall b | b in Fetched(details, answered) ensures Retained(after, b) {
        var id :| id in answered && id in details && details[id] == b;
        var i :| 0 <= i < |order| && order[i] == id;
        assert bs[i] == b;
      }
      forall b | b in h && b.id !in answered ensures Retained(after, b) {
        forall c | c in bs ensures c.id != b.id {
          var i :| 0 <= i < |bs| && bs[i] == c;
          assert order[i] in answered;
        }
        RegisterEachRetainsOthers(h, bs, b);
      }
    }
  }


  /** The failed detail requests: each records one more failure of its build at `now`. */
  method RecordFailures(c: Counter, failed: set<int>, now: int) returns (counter: Counter)
    ensures counter == RecordAll(c, failed, now)
  {
    RecordNothing(c, now);
    counter := c;
    var pending := failed;
    ghost var done: set<int> := {};
    while pending != {}
      invariant pending + done == failed && pending !! done
      invariant counter == RecordAll(c, done, now)
      decreases |pending|
    {
      Nonempty(pending);
      var buildId :| buildId in pending;
      TakeOne(failed, pending, done, buildId);
      RecordAllStep(c, done, buildId, now);
      counter := RecordFailure(counter, buildId, now);
      pending := pending - {buildId};
      done := done + {buildId};
    }
    assert done == failed;
  }

  /** A set that is not empty has an element. */
  lemma Nonempty(s: set<int>)
    requires s != {}
    ensures exists x :: x in s
  {
    if forall x :: x !in s {
      assert false;
    }
  }

  /** Moving one id from the pending requests to the completed ones. */
  lemma TakeOne(all: set<int>, pending: set<int>, done: set<int>, id: int)
    requires pending + done == all && pending !! done && id in pending
    ensures (pending - {id}) + (done + {id}) == all && (pending - {id}) !! (done + {id})
    ensures |pending - {id}| < |pending| && id !in done && |done + {id}| == |done| + 1
  {
  }

  /**
   * The success callback of one detail request: the build is registered on
   * `bt`, which is posted, then its project when one is known.
   */
  method Answer(bt: BuildTypeData, build: BuildData, project: Option<ProjectData>) returns (posts: seq<Event>)
    requires bt.Valid()
    modifies bt
    ensures bt.lastBuilds == Register(old(bt.lastBuilds), build) && bt.Valid()
    ensures bt.branch == old(bt.branch) && bt.aliasName == old(bt.aliasName) && bt.queued == old(bt.queued)
    ensures posts == AnswerPosts(bt, project)
  {
    bt.RegisterBuild(build);
    posts := [BuildTypePosted(bt)];
    if project.Some? {
      posts := posts + [ProjectPosted(project.value)];
    }
  }
}
