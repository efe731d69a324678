/**
 * What both API controllers report: how the future an operation returns
 * completes, and the objects they post on the event bus.
 */
module Events {
  import opened BuildTypes
  import opened Projects

  /** How the future an operation returns completes. */
  datatype Ack = Success | Failure

  /** The objects posted on the event bus. */
  datatype Event =
    | ProjectManagerPosted
    | BuildManagerPosted
    | BuildTypePosted(buildType: BuildTypeData)
    | ProjectPosted(project: ProjectData)

  /** `n` times the same posts. */
  function Repeat(block: seq<Event>, n: nat): (r: seq<Event>)
    ensures forall e :: e in r ==> e in block
  {
    if n == 0 then [] else Repeat(block, n - 1) + block
  }

  /** The posts of the queue poll: each changed build type, in order. */
  function QueuePosts(changed: seq<BuildTypeData>): (r: seq<Event>)
    ensures |r| == |changed| && forall i :: 0 <= i < |r| ==> r[i] == BuildTypePosted(changed[i])
  {
    if changed == [] then [] else [BuildTypePosted(changed[0])] + QueuePosts(changed[1..])
  }
}
