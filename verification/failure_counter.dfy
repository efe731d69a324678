/**
 * The per-build failure counter of the status poller: a cache from build id
 * to the number of failed detail requests, each entry expiring twenty minutes
 * after it was last written. A build with two live failures is ignored.
 *
 * Time is an explicit clock in milliseconds; an entry written at `w` is visible
 * at `now` while `now - w` is below the window, as with an expire-after-write
 * cache.
 */
module FailureCounter {
  import opened Wrappers

  const ErrorCountBeforeIgnoring: int := 2
  const IgnoringTimeInMinutes: int := 20
  /** The expiry window in milliseconds. */
  const IgnoringTime: int := IgnoringTimeInMinutes * 60 * 1000

  datatype Entry = Entry(count: int, writtenAt: int)

  type Counter = map<int, Entry>

  /** An entry is visible until the window since its last write has elapsed. */
  predicate Live(e: Entry, now: int) {
    now - e.writtenAt < IgnoringTime
  }

  /** `getIfPresent`: the count of a live entry, none for a missing or expired one. */
  function GetIfPresent(c: Counter, id: int, now: int): (r: Option<int>)
    ensures r.Some? <==> id in c && Live(c[id], now)
    ensures r.Some? ==> r.value == c[id].count
  {
    if id in c && Live(c[id], now) then Some(c[id].count) else None
  }

  /** `cleanUp`: drops the expired entries. */
  function CleanUp(c: Counter, now: int): (r: Counter)
    ensures r.Keys <= c.Keys
    ensures forall id :: id in r ==> r[id] == c[id] && Live(r[id], now)
  {
    map id | id in c && Live(c[id], now) :: c[id]
  }

  /** Cleaning up is invisible to lookups at the same instant or later. */
  lemma CleanUpInvisible(c: Counter, now: int, later: int, id: int)
    requires now <= later
    ensures GetIfPresent(CleanUp(c, now), id, later) == GetIfPresent(c, id, later)
  {
  }

  /** The failure callback: one more failure on a live entry, else a first one; the entry is rewritten now. */
  function RecordFailure(c: Counter, id: int, now: int): (r: Counter)
    ensures r.Keys == c.Keys + {id}
  {
    var previous := GetIfPresent(c, id, now);
    var newErrorCount := if previous.None? then 1 else previous.value + 1;
    c[id := Entry(newErrorCount, now)]
  }

  /** A build is skipped while its live failure count has reached the threshold. */
  predicate IsIgnored(c: Counter, id: int, now: int) {
    var count := GetIfPresent(c, id, now);
    count.Some? && count.value >= ErrorCountBeforeIgnoring
  }

  /**
   * After a failure at `now` the count is one more than the live count before
   * (one when there was none) and stays visible exactly for the window.
   */
  lemma RecordFailureCount(c: Counter, id: int, now: int, later: int)
    requires now <= later
    ensures var before := GetIfPresent(c, id, now);
            GetIfPresent(RecordFailure(c, id, now), id, later) ==
              if later - now < IgnoringTime then Some(if before.None? then 1 else before.value + 1) else None
  {
  }

  /** Failures of one build leave the counts of the others alone. */
  lemma RecordFailureOthers(c: Counter, id: int, other: int, now: int, later: int)
    requires other != id
    ensures GetIfPresent(RecordFailure(c, id, now), other, later) == GetIfPresent(c, other, later)
  {
  }

  /**
   * Two failures of a build without a live entry, the second within the
   * window of the first, make it ignored for the window after the second.
   */
  lemma TwoFailuresIgnore(c: Counter, id: int, t1: int, t2: int, t3: int)
    requires !IsIgnored(c, id, t1) && GetIfPresent(c, id, t1).None?
    requires t1 <= t2 < t1 + IgnoringTime && t2 <= t3 < t2 + IgnoringTime
    ensures !IsIgnored(RecordFailure(c, id, t1), id, t2)
    ensures IsIgnored(RecordFailure(RecordFailure(c, id, t1), id, t2), id, t3)
  {
    RecordFailureCount(c, id, t1, t2);
    RecordFailureCount(RecordFailure(c, id, t1), id, t2, t3);
  }

  /** A further failure of an ignored build keeps it ignored, for a fresh window. */
  lemma FailureKeepsIgnored(c: Counter, id: int, now: int, later: int)
    requires IsIgnored(c, id, now) && now <= later < now + IgnoringTime
    ensures IsIgnored(RecordFailure(c, id, now), id, later)
  {
    RecordFailureCount(c, id, now, later);
  }

  /** Once the window since the last failure has passed, the build is no longer ignored. */
  lemma IgnoringExpires(c: Counter, id: int, now: int)
    requires id in c && now >= c[id].writtenAt + IgnoringTime
    ensures !IsIgnored(c, id, now) && RecordFailure(c, id, now)[id].count == 1
  {
  }

  /** The failures of a whole polling round, all at `now`, on distinct build ids. */
  function RecordAll(c: Counter, failed: set<int>, now: int): (r: Counter)
    ensures r.Keys == c.Keys + failed
    ensures forall id :: id in failed ==> r[id] == RecordFailure(c, id, now)[id]
    ensures forall id :: id in c && id !in failed ==> r[id] == c[id]
  {
    map id | id in c.Keys + failed :: if id in failed then RecordFailure(c, id, now)[id] else c[id]
  }

  /** A round without failures leaves the counter as it is. */
  lemma RecordNothing(c: Counter, now: int)
    ensures RecordAll(c, {}, now) == c
  {
  }

  /** Recording the failures one by one, in any order, gives `RecordAll`. */
  lemma RecordAllStep(c: Counter, done: set<int>, id: int, now: int)
    requires id !in done
    ensures RecordFailure(RecordAll(c, done, now), id, now) == RecordAll(c, done + {id}, now)
  {
    var a := RecordFailure(RecordAll(c, done, now), id, now);
    var b := RecordAll(c, done + {id}, now);
    assert a.Keys == b.Keys;
    forall k | k in a.Keys ensures a[k] == b[k] {
    }
  }
}
