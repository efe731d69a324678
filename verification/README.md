# Wall-T core, modelled in Dafny

Wall-T is a radiator wall for a TeamCity server. It polls the server's REST
API, keeps an in-memory model of projects, build types and the recent builds
of each build type, and shows the monitored build types as tiles spread over
screens that rotate. This project models the core of that program and proves
what it promises:

- the bounded build history of a build type (`BuildTypeData`): at most ten
  builds, one per id, most recent first, and the stream queries over it;
- the build type registry (`BuildTypeManager`): the catalog, the user-ordered
  monitored list, catalog reconciliation (branch, alias and monitored order
  carried over by id), queue flags, 1-based positions and re-positioning;
- the project aggregate (`ProjectData`) and its count of build types by the
  status of their last finished build;
- the wall's API controller: capability gates, the list fetches feeding the
  registries, the queue poll, and the status poll of a build type with its
  request path, its choice of builds to fetch and its failure counter
  (two failures within twenty minutes ignore a build);
- the API 8.1 controller: the mapping of a described build to a `BuildData`,
  its build type list and its status poll;
- the wall view's tiling arithmetic (screens, columns, tile coordinates) and
  the rotation through the screens;
- the application's command line, its automatic mode and the scene switch
  that activates or pauses the monitoring.

Files: `builds.dfy` (history functions and lemmas), `build_type_data.dfy`,
`build_type_manager.dfy`, `project_data.dfy`, `failure_counter.dfy`,
`locator.dfy` (request paths), `events.dfy` (acknowledgements and event bus
posts), `wallt_api.dfy`, `api_v0801.dfy`, `wall_layout.dfy`,
`command_line.dfy`, and the small helpers `wrappers.dfy`, `java_int.dfy`
(Java `int` wrap-around and truncating division) and `java_list.dfy`
(`List.indexOf`).

Objects whose fields the program updates in place (`BuildTypeData`,
`ProjectData`, `BuildTypeManager`, the controllers, `WallView` and its
screens, the application's options) are classes; each asynchronous operation
runs to completion at one instant, with what the server answered as an input
(`None` for a failed list request; a map from build id to build for the detail
requests, a missing id being a failed request) and what is posted on the event
bus as an output sequence.

Where the behaviour described for the system and the code differ, the model
follows the code:

- `requestPosition` with a position below one does not clamp: the entry is
  removed and then `List.add` throws, so the entry leaves the monitored list
  (`Registry.BuildTypeManager.RequestPosition` returns `false` then).
- The failure counter counts failures within twenty minutes of the last one;
  a successful fetch does not reset it.
- Projects hold the build type objects, appended on every build type list
  load, not a set of ids (for the project class modelled here; see
  `WalltApi.AttachBuildTypes` under "Left out").

## Model

| member | source | states |
|---|---|---|
| Builds.Eligible | src/main/java/utils/teamcity/wallt/model/build/BuildTypeData.java:94-96 | the builds kept by the state and non-`UNKNOWN` filters are exactly the history's builds that pass them, and a descending history stays descending |
| Builds.LastBuild | src/main/java/utils/teamcity/wallt/model/build/BuildTypeData.java:93-98 | none iff no build passes the filters; otherwise a passing build of the history, in a descending history the one with the highest id among the passing ones |
| Builds.OldestBuild | src/main/java/utils/teamcity/wallt/model/build/BuildTypeData.java:100-105 | none iff no build passes the filters; otherwise a passing build of the history, in a descending history the one with the lowest id among the passing ones |
| Builds.LastBuilds | src/main/java/utils/teamcity/wallt/model/build/BuildTypeData.java:107-113 | at most `count` builds, exactly min(count, passing builds), a prefix of the filtered history, all passing, still descending |
| Builds.BuildById | src/main/java/utils/teamcity/wallt/model/build/BuildTypeData.java:115-117 | none iff no build has the id; otherwise a build of the history with that id, whatever its status |
| Builds.HasRunningBuild | src/main/java/utils/teamcity/wallt/model/build/BuildTypeData.java:89-91 | true iff `getLastBuild(running)` is present iff some running build has a resolved status |
| Builds.WithoutId | src/main/java/utils/teamcity/wallt/model/build/BuildTypeData.java:128 | the `removeIf` keeps exactly the builds with another id, never grows the list and keeps it descending |
| Builds.SortDescendingSorted | src/main/java/utils/teamcity/wallt/model/build/BuildTypeData.java:131 | sorting a strictly descending list changes nothing |
| Builds.InsertDescendingShape | src/main/java/utils/teamcity/wallt/model/build/BuildTypeData.java:130-131 | adding a new id in front and sorting places it after the newer builds and before the older ones |
| Builds.RegisterShape | src/main/java/utils/teamcity/wallt/model/build/BuildTypeData.java:127-134 | the new history is the old one without the id, with the build spliced in at its place, cut back to ten |
| Builds.RegisterValid | src/main/java/utils/teamcity/wallt/model/build/BuildTypeData.java:127-134 | `registerBuild` keeps the history at most ten builds, unique and strictly descending by id, and adds at most one |
| Builds.RegisterMembers | src/main/java/utils/teamcity/wallt/model/build/BuildTypeData.java:127-134 | every build afterwards is the registered one or an old build with another id |
| Builds.RegisterPresent | src/main/java/utils/teamcity/wallt/model/build/BuildTypeData.java:130-133 | the registered build is present iff the history without its id held fewer than ten builds or its oldest is older than it |
| Builds.RegisterKeeps | src/main/java/utils/teamcity/wallt/model/build/BuildTypeData.java:132-133 | an old build of another id stays unless the history was full and it is the oldest and older than the registered build |
| Builds.RegisterReplacesInPlace | src/main/java/utils/teamcity/wallt/model/build/BuildTypeData.java:128-131 | registering an id already present replaces that record at the same index |
| Builds.WithoutIdAbsentOrOne | src/main/java/utils/teamcity/wallt/model/build/BuildTypeData.java:128 | removing an absent id changes nothing; a present id is removed once |
| Builds.BuildByIdUnique | src/main/java/utils/teamcity/wallt/model/build/BuildTypeData.java:115-117 | in a valid history `getBuildById` finds the one build with that id |
| Builds.RegisterRetainsItself | src/main/java/utils/teamcity/wallt/model/build/BuildTypeData.java:127-134 | a registered build is in the history or the history is full of newer builds |
| Builds.RegisterRetainsOthers | src/main/java/utils/teamcity/wallt/model/build/BuildTypeData.java:127-134 | registering another id never loses a build that was retained |
| Builds.RetainsOlder | src/main/java/utils/teamcity/wallt/model/build/BuildTypeData.java:130-133 | a build older than a full history of newer ones leaves it unchanged |
| Builds.RegisterNewest | src/main/java/utils/teamcity/wallt/model/build/BuildTypeData.java:130-131 | a build newer than every cached one goes to the front |
| Builds.NewestIsLast | src/main/java/utils/teamcity/wallt/model/build/BuildTypeData.java:93-134 | such a build with a resolved status becomes `getLastBuild` of its state |
| Builds.RegisterEachValid | src/main/java/utils/teamcity/wallt/model/build/BuildTypeData.java:127-134 | any sequence of `registerBuild` calls keeps the history bounded, unique and descending |
| Builds.RegisterEachRetainsOthers | src/main/java/utils/teamcity/wallt/model/build/BuildTypeData.java:127-134 | a retained build stays retained through registrations of other ids |
| Builds.RegisterEachRetains | src/main/java/utils/teamcity/wallt/model/build/BuildTypeData.java:127-134 | after registering builds of distinct ids, each of them is retained |
| Builds.RegisterEachSnoc | src/main/java/utils/teamcity/wallt/model/build/BuildTypeData.java:127-134 | registering one more build extends the series by one registration |
| Builds.RegisterEachMembers | src/main/java/utils/teamcity/wallt/model/build/BuildTypeData.java:127-134 | after a series every cached build was cached before or was registered |
| BuildTypes.BuildTypeData.constructor | src/main/java/utils/teamcity/wallt/model/build/BuildTypeData.java:49-55 | the fields given, no alias, not queued, an empty history |
| BuildTypes.BuildTypeData.SetAliasName | src/main/java/utils/teamcity/wallt/model/build/BuildTypeData.java:81-83 | sets the alias; branch, queued flag and history unchanged |
| BuildTypes.BuildTypeData.SetBranch | src/main/java/utils/teamcity/wallt/model/build/BuildTypeData.java:85-87 | sets the branch; alias, queued flag and history unchanged |
| BuildTypes.BuildTypeData.SetQueued | src/main/java/utils/teamcity/wallt/model/build/BuildTypeData.java:119-125 | `isQueued` reads back the value set; the history is untouched |
| BuildTypes.BuildTypeData.RegisterBuild | src/main/java/utils/teamcity/wallt/model/build/BuildTypeData.java:127-134 | the removeIf, addFirst, sort and removeLast steps give `Register(old history, b)` and keep the history valid |
| Projects.CountIn | src/main/java/utils/teamcity/model/build/ProjectData.java:52-60 | the count is between zero and the number of build types |
| Projects.CountAppend | src/main/java/utils/teamcity/model/build/ProjectData.java:44-60 | a newly registered build type adds one exactly when its last finished build has a kept status, so one without such a build is never counted |
| Projects.CountNone | src/main/java/utils/teamcity/model/build/ProjectData.java:53-59 | no status asked gives zero |
| Projects.CountDisjointUnion | src/main/java/utils/teamcity/model/build/ProjectData.java:56-57 | counts over disjoint status sets add up |
| Projects.CountMonotone | src/main/java/utils/teamcity/model/build/ProjectData.java:52-60 | asking for more statuses never counts fewer |
| Projects.CountIgnoresUnknown | src/main/java/utils/teamcity/model/build/ProjectData.java:56-57 | asking for `UNKNOWN` changes nothing, as unknown builds are filtered out first |
| Projects.ProjectData.constructor | src/main/java/utils/teamcity/model/build/ProjectData.java:23-26 | the id and name given, no alias, no build type |
| Projects.ProjectData.SetAliasName | src/main/java/utils/teamcity/model/build/ProjectData.java:40-42 | sets the alias; id and name are constants and the build types unchanged |
| Projects.ProjectData.RegisterBuildType | src/main/java/utils/teamcity/model/build/ProjectData.java:44-46 | appends, without deduplication; every count grows by one exactly when the new build type counts itself (by `CountAppend`) |
| Projects.ProjectData.BuildTypeCount | src/main/java/utils/teamcity/model/build/ProjectData.java:52-60 | never more than the registered build types |
| JavaList.IndexOf | src/main/java/utils/teamcity/wallt/model/build/BuildTypeManager.java:127 | -1 iff absent; otherwise the index of the first occurrence |
| JavaInt.Wrap32 | src/main/java/utils/teamcity/wallt/model/build/BuildTypeManager.java:136 | a 32-bit value congruent to the mathematical one, equal to it when it fits |
| JavaInt.Div | src/main/java/utils/teamcity/view/wall/WallView.java:93-99 | Java's quotient: the Euclidean one for non-negative operands, its sign otherwise |
| JavaInt.Rem | src/main/java/utils/teamcity/view/wall/WallView.java:93-99 | Java's remainder: dividend = quotient * divisor + remainder, with the dividend's sign |
| Registry.RemoveFirst | src/main/java/utils/teamcity/wallt/model/build/BuildTypeManager.java:121-123 | nothing changes when absent; otherwise one occurrence fewer, the rest as a multiset unchanged |
| Registry.MoveToPlaces | src/main/java/utils/teamcity/wallt/model/build/BuildTypeManager.java:132-137 | the entry sits at min(index, size without it), the others keep their order, and the length grows only when it was absent |
| Registry.MoveToOnce | src/main/java/utils/teamcity/wallt/model/build/BuildTypeManager.java:132-137 | an entry that occurred at most once occurs once afterwards, found at min(index, size without it) |
| Registry.FirstWithId | src/main/java/utils/teamcity/wallt/model/build/BuildTypeManager.java:71-75 | the index of the first entry with the id, the length when none |
| Registry.Ids | src/main/java/utils/teamcity/wallt/model/build/BuildTypeManager.java:60 | the ids in order |
| Registry.WithId | src/main/java/utils/teamcity/wallt/model/build/BuildTypeManager.java:85-91 | the entries with the id, each of them |
| Registry.MonitoredOrderSelects | src/main/java/utils/teamcity/wallt/model/build/BuildTypeManager.java:85-87 | per id, the new monitored list holds the incoming entries with that id in incoming order if it was monitored, none otherwise (a stable filter) |
| Registry.MonitoredOrderMembers | src/main/java/utils/teamcity/wallt/model/build/BuildTypeManager.java:85-86 | monitored afterwards iff incoming and its id was monitored |
| Registry.MonitoredOrderSorted | src/main/java/utils/teamcity/wallt/model/build/BuildTypeManager.java:87 | the new monitored list is sorted by the previous monitored index of each id |
| Registry.QueueChangesMembers | src/main/java/utils/teamcity/wallt/model/build/BuildTypeManager.java:104-110 | reported iff monitored and its flag disagreed with the queue |
| Registry.QueueChangesDistinct | src/main/java/utils/teamcity/wallt/model/build/BuildTypeManager.java:104-110 | no entry is reported twice |
| Registry.QueueChangesInSync | src/main/java/utils/teamcity/wallt/model/build/BuildTypeManager.java:104-112 | nothing is reported when every flag already agrees |
| Registry.BuildTypeManager.constructor | src/main/java/utils/teamcity/wallt/model/build/BuildTypeManager.java:48-55 | one new entry per saved build type, with its saved fields and alias, in order, all monitored |
| Registry.BuildTypeManager.ActivateMonitoring | src/main/java/utils/teamcity/wallt/model/build/BuildTypeManager.java:116-118 | appends, even an entry already monitored |
| Registry.BuildTypeManager.UnactivateMonitoring | src/main/java/utils/teamcity/wallt/model/build/BuildTypeManager.java:121-123 | removes the first occurrence of that very object |
| Registry.BuildTypeManager.Position | src/main/java/utils/teamcity/wallt/model/build/BuildTypeManager.java:126-129 | the 1-based index of the first occurrence, `Integer.MAX_VALUE` when not monitored |
| Registry.BuildTypeManager.RequestPosition | src/main/java/utils/teamcity/wallt/model/build/BuildTypeManager.java:132-137 | with the Java `int` index position-1: a non-negative index moves the entry to min(index, size without it); a negative one only removes it and fails |
| Registry.BuildTypeManager.RegisterBuildTypes | src/main/java/utils/teamcity/wallt/model/build/BuildTypeManager.java:58-98 | the catalog becomes the incoming list; branches carried by id from the old catalog; the monitored list is the stable reorder by previous position, with the previous aliases; other entries keep their alias |
| Registry.BuildTypeManager.RegisterBuildTypesInQueue | src/main/java/utils/teamcity/wallt/model/build/BuildTypeManager.java:101-113 | every monitored flag follows the queue; exactly the changed entries are returned, in monitored order |
| Registry.CarryBranches | src/main/java/utils/teamcity/wallt/model/build/BuildTypeManager.java:68-81 | each incoming entry takes the branch of the first old entry with its id (even none), else keeps its own |
| Registry.CarryAliases | src/main/java/utils/teamcity/wallt/model/build/BuildTypeManager.java:88-94 | each newly monitored entry takes the alias of the first previously monitored entry with its id |
| FailureCounter.GetIfPresent | src/main/java/utils/teamcity/wallt/controller/api/ApiController.java:233 | a count iff the entry exists and its window has not elapsed |
| FailureCounter.CleanUp | src/main/java/utils/teamcity/wallt/controller/api/ApiController.java:207 | keeps exactly the live entries, unchanged |
| FailureCounter.CleanUpInvisible | src/main/java/utils/teamcity/wallt/controller/api/ApiController.java:207 | a clean-up changes no lookup at that instant or later |
| FailureCounter.RecordFailure | src/main/java/utils/teamcity/wallt/controller/api/ApiController.java:291-293 | the entry is written for the failed build only |
| FailureCounter.RecordFailureCount | src/main/java/utils/teamcity/wallt/controller/api/ApiController.java:291-293 | the new count is one more than the live one (one when none) and is visible for exactly the window |
| FailureCounter.RecordFailureOthers | src/main/java/utils/teamcity/wallt/controller/api/ApiController.java:291-293 | other builds' counts are untouched |
| FailureCounter.TwoFailuresIgnore | src/main/java/utils/teamcity/wallt/controller/api/ApiController.java:232-294 | one failure does not ignore a build; a second within the window ignores it for the window after |
| FailureCounter.FailureKeepsIgnored | src/main/java/utils/teamcity/wallt/controller/api/ApiController.java:232-293 | another failure of an ignored build keeps it ignored for a fresh window |
| FailureCounter.IgnoringExpires | src/main/java/utils/teamcity/wallt/controller/api/ApiController.java:71-74 | once the window has elapsed the build is not ignored and a new failure counts one |
| FailureCounter.RecordAll | src/main/java/utils/teamcity/wallt/controller/api/ApiController.java:288-296 | the failures of a round: the failed ids recorded, the others unchanged |
| FailureCounter.RecordAllStep | src/main/java/utils/teamcity/wallt/controller/api/ApiController.java:288-296 | recording failures one by one, in any order, gives the round's counter |
| Locator.NatToStringValue | src/main/java/utils/teamcity/wallt/controller/api/ApiController.java:215 | the decimal digits of a count read back as that count |
| Locator.ParsePath | src/main/java/utils/teamcity/wallt/controller/api/ApiController.java:215 | a request path reads back as its build type id, its count and its optional branch field |
| Locator.ParseStatusLocator | src/main/java/utils/teamcity/wallt/controller/api/ApiController.java:212-215 | the wall's path reads back as id, count and branch, `default:yes` for a build type without branch |
| Locator.ParseBaseLocator | src/main/java/utils/teamcity/controller/api/json/v0801/ApiController.java:94 | the API 8.1 path reads back as id and count, with no branch |
| Events.QueuePosts | src/main/java/utils/teamcity/wallt/controller/api/ApiController.java:185-186 | one build type post per changed build type, in order |
| WalltApi.FindProject | src/main/java/utils/teamcity/wallt/controller/api/ApiController.java:147 | none iff no project has the id; otherwise a registered project with that id |
| WalltApi.AttachedMembers | src/main/java/utils/teamcity/wallt/controller/api/ApiController.java:146-153 | a build type is attached to a project iff that is the first project with its project id |
| WalltApi.AttachedNowhere | src/main/java/utils/teamcity/wallt/controller/api/ApiController.java:147-151 | build types of unknown projects are attached nowhere and post nothing |
| WalltApi.RunningIdsMembers | src/main/java/utils/teamcity/wallt/controller/api/ApiController.java:238-241 | the re-added ids are exactly those of the cached running builds with a resolved status |
| WalltApi.SelectedFromWindow | src/main/java/utils/teamcity/wallt/controller/api/ApiController.java:220-235 | one of the first three listed ids is fetched when neither cached as finished nor ignored |
| WalltApi.SelectedOrigin | src/main/java/utils/teamcity/wallt/controller/api/ApiController.java:220-241 | a fetched id is among the first three listed or a cached running build's; an ignored id only in the latter case |
| WalltApi.SelectedRunning | src/main/java/utils/teamcity/wallt/controller/api/ApiController.java:238-241 | every cached running build is fetched, even ignored or outside the window |
| WalltApi.SelectedNeverFinished | src/main/java/utils/teamcity/wallt/controller/api/ApiController.java:226-241 | no fetched id is a build cached as finished |
| WalltApi.SelectBuilds | src/main/java/utils/teamcity/wallt/controller/api/ApiController.java:220-241 | the set built by limit, two `removeIf` and `addAll` is the selection |
| WalltApi.ApiController.constructor | src/main/java/utils/teamcity/wallt/controller/api/ApiController.java:76-87 | the capability set and manager given, no projects, an empty failure counter |
| WalltApi.ApiController.LoadProjectList | src/main/java/utils/teamcity/wallt/controller/api/ApiController.java:94-126 | unsupported: success, no change; fetched: projects replaced, registry posted, success; failed: failure, no change |
| WalltApi.ApiController.LoadBuildTypeList | src/main/java/utils/teamcity/wallt/controller/api/ApiController.java:129-167 | unsupported: success, no change; fetched: catalog reconciled, each fetched build type taking the branch of the old entry with its id and, when monitored, the alias of the old monitored entry with its id, its queued flag and history untouched; manager posted; each build type appended to its first project, which is posted; failed: failure, no change |
| WalltApi.ApiController.RequestQueuedBuilds | src/main/java/utils/teamcity/wallt/controller/api/ApiController.java:170-200 | unsupported or failed: no flag changes; fetched: flags follow the queue and exactly the changed build types are posted |
| WalltApi.ApiController.RequestLastBuildStatus | src/main/java/utils/teamcity/wallt/controller/api/ApiController.java:203-272 | gate; expired counts dropped; the branch locator; the selection; `order` takes each answered id once and the history is exactly the old one with the answered builds registered in that order; it holds only old or fetched builds, retains every fetched build and every old build whose id was not answered; failed ones counted; failure only when the list fetch fails |
| WalltApi.AttachBuildTypes | src/main/java/utils/teamcity/wallt/controller/api/ApiController.java:146-153 | each project gains its attached build types in catalog order; the posts match |
| WalltApi.RegisterAnswers | src/main/java/utils/teamcity/wallt/controller/api/ApiController.java:243-285 | `order` takes each answered id once; the history is the old one with the answered builds registered in that order, and stays valid; branch, alias and queued flag untouched; the build type, then the project when known, posted per answer |
| WalltApi.RecordFailures | src/main/java/utils/teamcity/wallt/controller/api/ApiController.java:288-296 | the failed requests give the round's counter |
| WalltApi.Answer | src/main/java/utils/teamcity/wallt/controller/api/ApiController.java:277-278 | one answered request: the history becomes the old one with the build registered, branch, alias and queued flag untouched; the build type is posted, then its project when known |
| WalltApi.AnsweredKeeps | src/main/java/utils/teamcity/wallt/controller/api/ApiController.java:243-285 | registering the answered builds in any order that takes each once leaves only old or fetched builds, retains every fetched build, and retains every old build whose id was not answered |
| Api0801.ToBuildData | src/main/java/utils/teamcity/controller/api/json/v0801/ApiController.java:139-144 | id, build type, status, state and finished date copied; not running: 100 and no time left; running: its percentage and estimate less elapsed, negative iff overrun; no mapping for a running build without progress |
| Api0801.ToBuildDataDescribe | src/main/java/utils/teamcity/controller/api/json/v0801/ApiController.java:139-144 | every kept build is read back from its description |
| Api0801.Limit | src/main/java/utils/teamcity/controller/api/json/v0801/ApiController.java:99-101 | the first `max` listed builds, in order |
| Api0801.Unfinished | src/main/java/utils/teamcity/controller/api/json/v0801/ApiController.java:104-107 | never longer than the list |
| Api0801.UnfinishedCount | src/main/java/utils/teamcity/controller/api/json/v0801/ApiController.java:104-107 | each id kept as often as listed, none if cached as finished |
| Api0801.UnfinishedAppend | src/main/java/utils/teamcity/controller/api/json/v0801/ApiController.java:104-107 | the filter keeps the order: it distributes over concatenation |
| Api0801.UnfinishedIdempotent | src/main/java/utils/teamcity/controller/api/json/v0801/ApiController.java:104-107 | filtering twice filters once |
| Api0801.SelectedIds | src/main/java/utils/teamcity/controller/api/json/v0801/ApiController.java:99-107 | at most `max` requests; an id is requested iff among the first `max` and not cached as finished |
| Api0801.Answers | src/main/java/utils/teamcity/controller/api/json/v0801/ApiController.java:109-128 | no more builds than requests, each the mapping of an answered request |
| Api0801.AnswersStep | src/main/java/utils/teamcity/controller/api/json/v0801/ApiController.java:109-112 | one more request adds its mapped build when answered |
| Api0801.PollMembers | src/main/java/utils/teamcity/controller/api/json/v0801/ApiController.java:124-130 | after the poll every cached build was cached before or is an answered request's mapping |
| Api0801.NewBuildTypes | src/main/java/utils/teamcity/controller/api/json/v0801/ApiController.java:48-50 | one new distinct build type per listed one, in order, with its id, name and project name |
| Api0801.ApiController.constructor | src/main/java/utils/teamcity/controller/api/json/v0801/ApiController.java:34-37 | the manager and the number of builds considered |
| Api0801.ApiController.LoadBuildList | src/main/java/utils/teamcity/controller/api/json/v0801/ApiController.java:40-65 | fetched: the new build types reconciled into the catalog, manager posted, success; failed: failure, no change |
| Api0801.ApiController.RequestQueuedBuilds | src/main/java/utils/teamcity/controller/api/json/v0801/ApiController.java:67-88 | fetched: flags follow the queue and exactly the changed build types are posted; failed: nothing |
| Api0801.ApiController.RequestLastBuildStatus | src/main/java/utils/teamcity/controller/api/json/v0801/ApiController.java:91-122 | the locator; the requested ids; the history is the old one with each answered, mapped build registered in request order; one post per registration |
| Api0801.SelectBuilds | src/main/java/utils/teamcity/controller/api/json/v0801/ApiController.java:99-107 | the `removeIf` loop gives the first `max` ids not cached as finished |
| Api0801.FetchDetails | src/main/java/utils/teamcity/controller/api/json/v0801/ApiController.java:109-130 | the fan-out loop registers the answered, mapped builds in order and keeps the history valid |
| WallLayout.CeilDiv | src/main/java/utils/teamcity/view/wall/WallView.java:93-99 | the Java expression is the ceiling of the quotient for a positive divisor, at most one for a negative one |
| WallLayout.CeilLeast | src/main/java/utils/teamcity/view/wall/WallView.java:93-94 | any number of groups that holds the tiles is at least the ceiling |
| WallLayout.ComputeLayout | src/main/java/utils/teamcity/view/wall/WallView.java:88-99 | no layout iff the maximum per column is zero (division by zero) |
| WallLayout.LayoutBounds | src/main/java/utils/teamcity/view/wall/WallView.java:91-99 | all counts at least one; the screens hold the tiles; a screen holds at most the maximum; the columns hold a screen; a column at most the positive maximum per column; a product that fits is the maximum per screen |
| WallLayout.ScreenCounts | src/main/java/utils/teamcity/view/wall/WallView.java:93-94 | nbScreen screens of byScreen tiles hold all tiles, and byScreen is at most maxByScreens |
| WallLayout.ColumnCounts | src/main/java/utils/teamcity/view/wall/WallView.java:98-99 | nbColums columns of byColums tiles hold a screen, and byColums is at most a positive maximum |
| WallLayout.ChunksFlatten | src/main/java/utils/teamcity/view/wall/WallView.java:96 | the screens put back together are the tiles, in order: each tile on exactly one screen |
| WallLayout.ChunkAt | src/main/java/utils/teamcity/view/wall/WallView.java:96 | chunk j starts at j*k, is not empty, holds k tiles unless it is the last, which ends the list |
| WallLayout.ChunksAtMost | src/main/java/utils/teamcity/view/wall/WallView.java:96 | no chunk holds more than k tiles |
| WallLayout.ChunksCount | src/main/java/utils/teamcity/view/wall/WallView.java:96 | the number of chunks is the ceiling of size / k |
| WallLayout.ScreensCount | src/main/java/utils/teamcity/view/wall/WallView.java:93-96 | there are at most max(1, nbScreen) screens |
| WallLayout.BuildScreenPane | src/main/java/utils/teamcity/view/wall/WallView.java:109-129 | tile i goes to column x and row y with y < byColums and x*byColums + y = i |
| WallLayout.CellsInGrid | src/main/java/utils/teamcity/view/wall/WallView.java:118-127 | on a screen of at most nbColums*byColums tiles every column is below nbColums |
| WallLayout.CellsDistinct | src/main/java/utils/teamcity/view/wall/WallView.java:118-127 | no two tiles share a cell |
| WallLayout.ScreenPane.constructor | src/main/java/utils/teamcity/view/wall/WallView.java:102-103 | a screen with its cells, hidden |
| WallLayout.NextScreenIndex | src/main/java/utils/teamcity/view/wall/WallView.java:71-72 | the next index is a valid child index |
| WallLayout.NextScreenCycles | src/main/java/utils/teamcity/view/wall/WallView.java:71-72 | after screen i comes screen i+1, after the last the first |
| WallLayout.NextScreenFromStale | src/main/java/utils/teamcity/view/wall/WallView.java:71-84 | with no current screen among the children the first is shown |
| WallLayout.WallView.constructor | src/main/java/utils/teamcity/view/wall/WallView.java:46-63 | no screen, none current |
| WallLayout.WallView.DisplayNextScreen | src/main/java/utils/teamcity/view/wall/WallView.java:65-81 | nothing without screens: the view and the current screen, even a dropped one, untouched; else the next screen shown and current, the previous hidden when different, no other screen touched; only the current screen is visible |
| WallLayout.WallView.UpdateLayout | src/main/java/utils/teamcity/view/wall/WallView.java:83-107 | screens cleared; one new screen per chunk of byScreen tiles, laid out in its grid; the first shown and the previous current screen hidden; with no tiles the current screen and its visibility kept; fails with the screens cleared, the current screen and its visibility kept, when the maximum per column is zero |
| WallLayout.PaneScreens | src/main/java/utils/teamcity/view/wall/WallView.java:101-105 | one new hidden screen per chunk, in order, each tile in the grid |
| CommandLine.ParseInt | src/main/java/utils/teamcity/wallt/WallApplication.java:115 | a result fits in an `int`; the empty string and a lone sign do not parse |
| CommandLine.ParseIntToString | src/main/java/utils/teamcity/wallt/WallApplication.java:115 | every `int` written in decimal parses back to itself |
| CommandLine.ParseIntOverflow | src/main/java/utils/teamcity/wallt/WallApplication.java:115 | a number beyond `Integer.MAX_VALUE` does not parse |
| CommandLine.ParseShift | src/main/java/utils/teamcity/wallt/WallApplication.java:94-117 | arguments already read do not affect the rest of the parse |
| CommandLine.ParseAppend | src/main/java/utils/teamcity/wallt/WallApplication.java:94-117 | a command line parsed to its end leaves what follows to be parsed from its options; one that stopped stops the same way |
| CommandLine.ConfigTakesValue | src/main/java/utils/teamcity/wallt/WallApplication.java:105-108 | the value of `--config` is never an option: `--config --auto` does not set the automatic mode |
| CommandLine.LaterOverrides | src/main/java/utils/teamcity/wallt/WallApplication.java:105-115 | a later `--config` or `--screen` overrides an earlier one |
| CommandLine.HelpStops | src/main/java/utils/teamcity/wallt/WallApplication.java:95-104 | `--help` ends the parse; nothing after it is read |
| CommandLine.ValueMissing | src/main/java/utils/teamcity/wallt/WallApplication.java:105-115 | `--config` or `--screen` as the last argument throws |
| CommandLine.UnknownSkipped | src/main/java/utils/teamcity/wallt/WallApplication.java:94-117 | an argument that is not an option is skipped |
| CommandLine.FlagsOnlySet | src/main/java/utils/teamcity/wallt/WallApplication.java:109-112 | a set flag stays set, and a flag is set only by its own option |
| CommandLine.WallApplication.constructor | src/main/java/utils/teamcity/wallt/WallApplication.java:73-76 | the default options |
| CommandLine.WallApplication.ParseCommandlineArgs | src/main/java/utils/teamcity/wallt/WallApplication.java:93-118 | the loop that advances its index past option values computes the parse of the whole command line |
| CommandLine.WallApplication.Init | src/main/java/utils/teamcity/wallt/WallApplication.java:134-143 | the automatic mode turns on both the automatic connection and the switch to the wall |
| CommandLine.WallApplication.Start | src/main/java/utils/teamcity/wallt/WallApplication.java:146-168 | the maximized flag is used; an out-of-range screen index throws; otherwise the configuration scene is shown and the monitoring paused |
| CommandLine.WallApplication.RequestScene | src/main/java/utils/teamcity/wallt/WallApplication.java:187-205 | the wall scene activates the monitoring, any other scene pauses it |

## Left out

- WalltApi.AttachBuildTypes: the wall's controller works on the wall package's own `ProjectData` class (src/main/java/utils/teamcity/wallt/controller/api/ApiController.java:29), which is not part of this model. Its `registerBuildType` is assumed to append like the modelled `ProjectData.registerBuildType`; `WalltApi.ApiController.LoadBuildTypeList` rests on the same assumption.
- Api0801.FetchDetails: the detail requests of the API 8.1 status poll complete in any order in the program. The model registers the answers in request order; the proved validity and membership facts do not depend on that order; the exact history is stated for request order only.
- Builds.LastBuilds: requires a non-negative count. `Stream.limit` throws on a negative count, and the only caller passes `Integer.MAX_VALUE`.
- Asynchrony: futures, callbacks, the worker pool and the event bus. Each operation runs to completion at one instant; the bus is an output sequence.
- WalltApi.ApiController.RequestLastBuildStatus: the detail requests complete in any order in the program. The model takes one order, chosen arbitrarily and returned as `order`, and handles every answer before any failure. The history is pinned as a function of that order; the other proved facts (validity, membership, retention, the failure counter) hold whatever the order.
- Api0801.ApiController.RequestLastBuildStatus: does not model `buildType.touch()`. That method belongs to an older build type class, which is not part of this model.
- Api0801.ApiController.RequestLastBuildStatus: works on the older `utils.teamcity.model.build.BuildTypeData` class, which is not part of this model (src/main/java/utils/teamcity/controller/api/json/v0801/ApiController.java:12). Its `registerBuild` and `getBuildById` are assumed to behave like the wall's: a ten-build cap, replacement by id, and descending order.
- Api0801.ApiController.LoadBuildList: the three-argument build type constructor belongs to that older class. Its build types are modelled with an empty project id and no branch. Its manager is assumed to reconcile like the wall's.
- Api0801.ApiController: the number of listed builds considered comes from a base class that is not part of this model, so it is a constructor parameter.
- Api0801.ToBuildData: the remaining time is an unbounded integer; Java `long` overflow and the `Duration` type are not modelled.
- Synchronisation (`synchronized`, the cache's concurrency level): the model is sequential.
- Guava's cache internals: the failure counter is a map from build id to count and write time, with an explicit clock in milliseconds.
- The HTTP transport and the per-version mapping tables: answers are inputs, already mapped to builds for the wall's controller. The capability table is the controller's `supported` set.
- The project registry (`IProjectManager`) is not part of this model. It is a list the fetched projects replace, and `getProject` returns the first project with the id.
- Registry.BuildTypeManager.RegisterBuildTypes: requires the incoming build types to be objects the registry does not hold yet, as both controllers create them anew.
- WallView's JavaFX parts: nodes, styles, bindings, fade and rotate animations, the timer, `double` sizes and date formatting. Screens are objects holding their cells and a visibility flag.
- WallApplication: Guice, logging, the stage geometry, `System.out`, `System.exit` (the `HelpRequested` outcome) and shutdown. Monitoring activation and pausing are a flag, as the monitoring service is not part of this model.
- CommandLine.ParseInt: accepts ASCII digits only; `Integer.parseInt` also accepts other Unicode decimal digits.
- CommandLine.WallApplication.ParseCommandlineArgs: any string is a valid configuration path; `Paths.get` rejecting a malformed path is not modelled.
- Logging everywhere.
