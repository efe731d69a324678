/**
 * A TeamCity build type as the wall keeps it: fixed identity, a branch and an
 * alias the user can change, a queued flag and the bounded history of its
 * builds, which `RegisterBuild` updates in place.
 */
module BuildTypes {
  import opened Wrappers
  import opened Builds

  class BuildTypeData {
    const id: string
    const name: string
    const projectId: string
    const projectName: string
    /** `null` in the source means "the default branch". */
    var branch: Option<string>
    var aliasName: Option<string>
    var queued: bool
    /** The cached builds, most recent first; `getBuilds` hands out a copy of it. */
    var lastBuilds: seq<BuildData>

    /** The history invariant every method keeps. */
    ghost predicate Valid()
      reads this
    {
      ValidHistory(lastBuilds)
    }

    constructor (id: string, name: string, projectId: string, projectName: string, branch: Option<string>)
      ensures this.id == id && this.name == name
      ensures this.projectId == projectId && this.projectName == projectName
      ensures this.branch == branch && aliasName == None && !queued
      ensures lastBuilds == [] && Valid()
    {
      this.id := id;
      this.name := name;
      this.projectId := projectId;
      this.projectName := projectName;
      this.branch := branch;
      aliasName := None;
      queued := false;
      lastBuilds := [];
    }

    method SetAliasName(aliasName: Option<string>)
      modifies this
      ensures this.aliasName == aliasName
      ensures branch == old(branch) && queued == old(queued) && lastBuilds == old(lastBuilds)
    {
      this.aliasName := aliasName;
    }

    method SetBranch(branch: Option<string>)
      modifies this
      ensures this.branch == branch
      ensures aliasName == old(aliasName) && queued == old(queued) && lastBuilds == old(lastBuilds)
    {
      this.branch := branch;
    }

    /** `isQueued` reads back exactly what the last `setQueued` stored. */
    method SetQueued(queued: bool)
      modifies this
      ensures this.queued == queued
      ensures branch == old(branch) && aliasName == old(aliasName) && lastBuilds == old(lastBuilds)
    {
      this.queued := queued;
    }

    /**
     * `registerBuild`: drop any build with the same id, put the new one in
     * front, sort by descending id and evict the last one beyond ten.
     */
    method RegisterBuild(b: BuildData)
      requires Valid()
      modifies this
      ensures lastBuilds == Register(old(lastBuilds), b)
      ensures Valid()
      ensures branch == old(branch) && aliasName == old(aliasName) && queued == old(queued)
    {
      ghost var h := lastBuilds;
      RegisterValid(h, b);
      lastBuilds := WithoutId(lastBuilds, b.id);
      lastBuilds := [b] + lastBuilds;
      lastBuilds := SortDescending(lastBuilds);
      if |lastBuilds| > MaxBuildSizeToCache {
        lastBuilds := lastBuilds[..|lastBuilds| - 1];
      }
    }
  }
}
