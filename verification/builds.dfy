/**
 * Builds and the bounded, id-ordered history a build type keeps of them.
 *
 * A history is what `BuildTypeData.getBuilds` returns: an immutable snapshot of
 * the cached builds, most recent (highest id) first. The queries below are the
 * stream filters the source runs over such a snapshot; `Register` is what
 * `registerBuild` does to the cached list.
 */
module Builds {
  import opened Wrappers

  datatype BuildStatus = SUCCESS | FAILURE | ERROR | UNKNOWN

  datatype BuildState = queued | running | finished

  /**
   * A build as the model keeps it: timestamps are opaque instants, the
   * remaining-time estimate is in seconds and may be negative.
   */
  datatype BuildData = BuildData(
    id: int,
    buildTypeId: string,
    status: BuildStatus,
    state: BuildState,
    percentageComplete: int,
    finishedDate: Option<int>,
    timeLeft: int)

  /** The number of builds a build type keeps. */
  const MaxBuildSizeToCache: nat := 10

  /** Every build of `s` is older (has a smaller id) than `id`. */
  ghost predicate AllOlder(s: seq<BuildData>, id: int) {
    forall x :: x in s ==> x.id < id
  }

  /** Ids strictly decrease along the list: most recent first, no id twice. */
  ghost predicate StrictlyDescending(h: seq<BuildData>) {
    h == [] || (AllOlder(h[1..], h[0].id) && StrictlyDescending(h[1..]))
  }

  /** What every history satisfies between two calls of `registerBuild`. */
  ghost predicate ValidHistory(h: seq<BuildData>) {
    |h| <= MaxBuildSizeToCache && StrictlyDescending(h)
  }

  // ---------------------------------------------------------------------------
  // Queries (read-only stream filters over a snapshot)
  // ---------------------------------------------------------------------------

  /** The two filters every "last build" query applies: the state asked for, and a resolved status. */
  predicate Counts(b: BuildData, state: BuildState) {
    b.state == state && b.status != UNKNOWN
  }

  /** The history restricted to the builds that count for `state`, in history order. */
  function Eligible(h: seq<BuildData>, state: BuildState): (r: seq<BuildData>)
    ensures |r| <= |h|
    ensures forall b :: b in r <==> b in h && Counts(b, state)
    ensures StrictlyDescending(h) ==> StrictlyDescending(r)
  {
    if h == [] then []
    else if Counts(h[0], state) then [h[0]] + Eligible(h[1..], state)
    else Eligible(h[1..], state)
  }

  /** `getLastBuild(state)`: the first (so, most recent) build that counts for `state`. */
  function LastBuild(h: seq<BuildData>, state: BuildState): (r: Option<BuildData>)
    ensures r.None? <==> forall b :: b in h ==> !Counts(b, state)
    ensures r.Some? ==> r.value in h && Counts(r.value, state)
    ensures r.Some? && StrictlyDescending(h) ==>
              forall b :: b in h && Counts(b, state) ==> b.id <= r.value.id
  {
    var e := Eligible(h, state);
    DescendingEnds(e);
    if e == [] then None else assert e[0] in e; Some(e[0])
  }

  /** `getOldestBuild(state)`: the first build that counts for `state` in the reversed history. */
  function OldestBuild(h: seq<BuildData>, state: BuildState): (r: Option<BuildData>)
    ensures r.None? <==> forall b :: b in h ==> !Counts(b, state)
    ensures r.Some? ==> r.value in h && Counts(r.value, state)
    ensures r.Some? && StrictlyDescending(h) ==>
              forall b :: b in h && Counts(b, state) ==> b.id >= r.value.id
  {
    var e := Eligible(h, state);
    DescendingEnds(e);
    if e == [] then None else assert e[|e| - 1] in e; Some(e[|e| - 1])
  }

  /**
   * `getLastBuilds(state, count)`: at most `count` of the builds that count for
   * `state`, most recent first. Java's `Stream.limit` rejects a negative count.
   */
  function LastBuilds(h: seq<BuildData>, state: BuildState, count: int): (r: seq<BuildData>)
    requires count >= 0
    ensures |r| <= count
    ensures |r| == if count < |Eligible(h, state)| then count else |Eligible(h, state)|
    ensures r == Eligible(h, state)[..|r|]
    ensures forall b :: b in r ==> b in h && Counts(b, state)
    ensures StrictlyDescending(h) ==> StrictlyDescending(r)
  {
    var e := Eligible(h, state);
    if count < |e| then DescendingPrefix(e, count); e[..count] else e
  }

  /** `getBuildById(id)`: the first build with that id, whatever its status. */
  function BuildById(h: seq<BuildData>, id: int): (r: Option<BuildData>)
    ensures r.None? <==> forall b :: b in h ==> b.id != id
    ensures r.Some? ==> r.value in h && r.value.id == id
  {
    if h == [] then None
    else if h[0].id == id then Some(h[0])
    else BuildById(h[1..], id)
  }

  /** `hasRunningBuild()`. */
  function HasRunningBuild(h: seq<BuildData>): (r: bool)
    ensures r <==> LastBuild(h, running).Some?
    ensures r <==> exists b :: b in h && Counts(b, running)
  {
    LastBuild(h, running).Some?
  }

  /** The pollers' test: the cached build with this id is known to be finished. */
  predicate FinishedLocally(h: seq<BuildData>, id: int) {
    var b := BuildById(h, id);
    b.Some? && b.value.state == finished
  }

  // ---------------------------------------------------------------------------
  // registerBuild: removeIf, addFirst, sort (descending id), removeLast
  // ---------------------------------------------------------------------------

  /** `removeIf(b -> b.getId() == id)`. */
  function WithoutId(h: seq<BuildData>, id: int): (r: seq<BuildData>)
    ensures |r| <= |h|
    ensures forall b :: b in r <==> b in h && b.id != id
    ensures StrictlyDescending(h) ==> StrictlyDescending(r)
  {
    if h == [] then []
    else if h[0].id == id then WithoutId(h[1..], id)
    else [h[0]] + WithoutId(h[1..], id)
  }

  /** Places `b` in front of the first build whose id is not greater than its own. */
  function InsertDescending(h: seq<BuildData>, b: BuildData): (r: seq<BuildData>)
    ensures |r| == |h| + 1
  {
    if h == [] || h[0].id <= b.id then [b] + h
    else [h[0]] + InsertDescending(h[1..], b)
  }

  /** `sort` with the comparator "descending id", as a stable insertion sort. */
  function SortDescending(s: seq<BuildData>): (r: seq<BuildData>)
    ensures |r| == |s|
  {
    if s == [] then [] else InsertDescending(SortDescending(s[1..]), s[0])
  }

  /** The cached list after `registerBuild(b)` on the cached list `h`. */
  function Register(h: seq<BuildData>, b: BuildData): seq<BuildData> {
    var sorted := SortDescending([b] + WithoutId(h, b.id));
    if |sorted| > MaxBuildSizeToCache then sorted[..|sorted| - 1] else sorted
  }

  // ---------------------------------------------------------------------------
  // Properties of Register
  // ---------------------------------------------------------------------------

  lemma {:induction false} DescendingAt(h: seq<BuildData>, i: nat, j: nat)
    requires StrictlyDescending(h)
    requires i < j < |h|
    ensures h[i].id > h[j].id
  {
    if i == 0 {
      assert h[j] in h[1..];
    } else {
      DescendingAt(h[1..], i - 1, j - 1);
    }
  }

  /** The first element of a descending list is its newest build, the last its oldest. */
  lemma DescendingEnds(h: seq<BuildData>)
    ensures StrictlyDescending(h) && h != [] ==> forall x :: x in h ==> h[0].id >= x.id >= h[|h| - 1].id
  {
    if StrictlyDescending(h) && h != [] {
      DescendingPairs(h);
      forall x | x in h ensures h[0].id >= x.id >= h[|h| - 1].id {
        var j :| 0 <= j < |h| && h[j] == x;
      }
    }
  }

  /** A prefix of a descending list is descending. */
  lemma {:induction false} DescendingPrefix(h: seq<BuildData>, n: nat)
    requires n <= |h|
    ensures StrictlyDescending(h) ==> StrictlyDescending(h[..n])
  {
    if StrictlyDescending(h) && n > 0 {
      DescendingPrefix(h[1..], n - 1);
      assert h[..n][1..] == h[1..][..n - 1];
    }
  }

  /** In a strictly descending list an element occurs at one index only. */
  lemma DescendingUnique(h: seq<BuildData>, i: nat, j: nat)
    requires StrictlyDescending(h)
    requires i < |h| && j < |h| && h[i] == h[j]
    ensures i == j
  {
    if i < j { DescendingAt(h, i, j); }
    if j < i { DescendingAt(h, j, i); }
  }

  /** Sorting a list that is already strictly descending changes nothing. */
  lemma {:induction false} SortDescendingSorted(s: seq<BuildData>)
    requires StrictlyDescending(s)
    ensures SortDescending(s) == s
  {
    if s != [] {
      SortDescendingSorted(s[1..]);
      assert SortDescending(s) == InsertDescending(s[1..], s[0]);
      assert s == [s[0]] + s[1..];
    }
  }

  /** Inserting a new id into a descending list: the newer builds, then `b`, then the older ones. */
  lemma {:induction false} InsertDescendingShape(w: seq<BuildData>, b: BuildData) returns (k: nat)
    requires StrictlyDescending(w)
    requires forall x :: x in w ==> x.id != b.id
    ensures k <= |w|
    ensures forall i :: 0 <= i < k ==> w[i].id > b.id
    ensures forall i :: k <= i < |w| ==> w[i].id < b.id
    ensures InsertDescending(w, b) == w[..k] + [b] + w[k..]
  {
    if w == [] || w[0].id <= b.id {
      k := 0;
      forall i | 0 <= i < |w| ensures w[i].id < b.id {
        assert w[0] in w;
        if i > 0 { DescendingAt(w, 0, i); }
      }
    } else {
      var k' := InsertDescendingShape(w[1..], b);
      k := k' + 1;
      forall i | 0 <= i < k ensures w[i].id > b.id {
        if i > 0 { assert w[i] == w[1..][i - 1]; }
      }
      forall i | k <= i < |w| ensures w[i].id < b.id {
        assert w[i] == w[1..][i - 1];
      }
      assert w[..k] == [w[0]] + w[1..][..k'];
      assert w[k..] == w[1..][k'..];
    }
  }

  /** Splicing `b` into `w` at index `k`, element by element. */
  lemma SpliceAt<T>(w: seq<T>, b: T, k: nat)
    requires k <= |w|
    ensures var s := w[..k] + [b] + w[k..];
            |s| == |w| + 1 &&
            forall i :: 0 <= i < |s| ==> s[i] == if i < k then w[i] else if i == k then b else w[i - 1]
  {
  }

  /**
   * The shape of the new history: `w` is the old one without `b`'s id, `k` the
   * number of its builds newer than `b`; the new history is `w` with `b`
   * spliced in at `k`, cut back to ten builds (so the least recent candidate
   * is evicted when there are eleven).
   */
  lemma RegisterShape(h: seq<BuildData>, b: BuildData) returns (w: seq<BuildData>, k: nat)
    requires ValidHistory(h)
    ensures w == WithoutId(h, b.id) && StrictlyDescending(w) && |w| <= MaxBuildSizeToCache
    ensures k <= |w|
    ensures forall i :: 0 <= i < k ==> w[i].id > b.id
    ensures forall i :: k <= i < |w| ==> w[i].id < b.id
    ensures |Register(h, b)| == if |w| < MaxBuildSizeToCache then |w| + 1 else MaxBuildSizeToCache
    ensures forall i {:trigger Register(h, b)[i]} :: 0 <= i < |Register(h, b)| ==>
              Register(h, b)[i] == if i < k then w[i] else if i == k then b else w[i - 1]
  {
    w := WithoutId(h, b.id);
    SortDescendingSorted(w);
    assert ([b] + w)[1..] == w;
    assert SortDescending([b] + w) == InsertDescending(w, b);
    k := InsertDescendingShape(w, b);
    SpliceAt(w, b, k);
  }

  /** After any `registerBuild` the history is still bounded by 10 and strictly descending by id. */
  lemma RegisterValid(h: seq<BuildData>, b: BuildData)
    requires ValidHistory(h)
    ensures ValidHistory(Register(h, b))
    ensures |Register(h, b)| <= |h| + 1
  {
    var w, k := RegisterShape(h, b);
    var r := Register(h, b);
    DescendingPairs(w);
    SpliceDescending(w, b, k, r);
    IndexDescending(r);
  }

  /** The recursive form of the ordering implies the pairwise one. */
  lemma DescendingPairs(h: seq<BuildData>)
    requires StrictlyDescending(h)
    ensures forall i, j :: 0 <= i < j < |h| ==> h[i].id > h[j].id
  {
    forall i, j | 0 <= i < j < |h| ensures h[i].id > h[j].id {
      DescendingAt(h, i, j);
    }
  }

  /** `b` spliced into a descending `w` at its place, possibly cut short, is descending. */
  lemma SpliceDescending(w: seq<BuildData>, b: BuildData, k: nat, r: seq<BuildData>)
    requires forall i, j :: 0 <= i < j < |w| ==> w[i].id > w[j].id
    requires k <= |w| && |r| <= |w| + 1
    requires forall i :: 0 <= i < k ==> w[i].id > b.id
    requires forall i :: k <= i < |w| ==> w[i].id < b.id
    requires forall i {:trigger r[i]} :: 0 <= i < |r| ==> r[i] == if i < k then w[i] else if i == k then b else w[i - 1]
    ensures forall i, j :: 0 <= i < j < |r| ==> r[i].id > r[j].id
  {
    forall i, j | 0 <= i < j < |r| ensures r[i].id > r[j].id {
      if j < k {
        assert r[i] == w[i] && r[j] == w[j];
      } else if j == k {
        assert r[i] == w[i] && r[j] == b;
      } else if i < k {
        assert r[i] == w[i] && r[j] == w[j - 1];
      } else if i == k {
        assert r[i] == b && r[j] == w[j - 1];
      } else {
        assert r[i] == w[i - 1] && r[j] == w[j - 1];
      }
    }
  }

  /** The pairwise form of the ordering implies the recursive one. */
  lemma {:induction false} IndexDescending(h: seq<BuildData>)
    requires forall i, j :: 0 <= i < j < |h| ==> h[i].id > h[j].id
    ensures StrictlyDescending(h)
  {
    if h != [] {
      IndexDescending(h[1..]);
      forall x | x in h[1..] ensures x.id < h[0].id {
        var j :| 0 <= j < |h[1..]| && h[1..][j] == x;
        assert h[j + 1] == x;
      }
    }
  }

  /** Every build in the new history is the registered one or an old build with another id. */
  lemma RegisterMembers(h: seq<BuildData>, b: BuildData, x: BuildData)
    requires ValidHistory(h)
    requires x in Register(h, b)
    ensures x == b || (x in h && x.id != b.id)
  {
    var w, k := RegisterShape(h, b);
    assert x == b || x in w;
  }

  /**
   * The registered build is in the new history unless the history already held
   * ten builds of other ids, all of them more recent; then it is the one evicted.
   */
  lemma RegisterPresent(h: seq<BuildData>, b: BuildData)
    requires ValidHistory(h)
    ensures var w := WithoutId(h, b.id);
            b in Register(h, b) <==> |w| < MaxBuildSizeToCache || w[|w| - 1].id < b.id
  {
    var w, k := RegisterShape(h, b);
    var r := Register(h, b);
    if |w| == MaxBuildSizeToCache {
      if k < |w| {
        assert r[k] == b;
      } else {
        assert b !in w;
      }
    } else {
      assert r[k] == b;
    }
  }

  /**
   * An old build with another id stays unless the history was full and it is
   * both the least recent of them and older than the registered build.
   */
  lemma RegisterKeeps(h: seq<BuildData>, b: BuildData, x: BuildData)
    requires ValidHistory(h)
    requires x in h && x.id != b.id
    ensures var w := WithoutId(h, b.id);
            x in Register(h, b) <==> |w| < MaxBuildSizeToCache || x != w[|w| - 1] || x.id > b.id
  {
    var w, k := RegisterShape(h, b);
    var r := Register(h, b);
    assert x in w;
    var j :| 0 <= j < |w| && w[j] == x;
    var n := |w| - 1;
    var at := if j < k then j else j + 1;   // where x lands after the splice
    assert at < |r| ==> r[at] == x;
    if |w| == MaxBuildSizeToCache && x == w[n] && x.id < b.id {
      DescendingUnique(w, j, n);
      assert k <= n;
      forall i | 0 <= i < |r| ensures r[i] != x {
        assert r[i] == (if i < k then w[i] else if i == k then b else w[i - 1]);
        if i < k { DescendingAt(w, i, n); }
        else if i > k { DescendingAt(w, i - 1, n); }
      }
    } else if |w| == MaxBuildSizeToCache && j == n {
      assert x == w[n];
      assert x.id > b.id;
    } else if |w| == MaxBuildSizeToCache {
      assert x != w[n] by { if x == w[n] { DescendingUnique(w, j, n); } }
    }
  }

  /** Registering a build whose id is already present replaces that record in its place. */
  lemma RegisterReplacesInPlace(h: seq<BuildData>, b: BuildData, i: nat)
    requires ValidHistory(h)
    requires i < |h| && h[i].id == b.id
    ensures Register(h, b) == h[i := b]
  {
    WithoutIdAt(h, i);
    var w, k := RegisterShape(h, b);
    assert w == h[..i] + h[i + 1..];
    assert k == i by {
      if k < i { assert w[k] == h[k]; DescendingAt(h, k, i); }
      if k > i { assert w[i] == h[i + 1]; DescendingAt(h, i, i + 1); }
    }
    assert w[..i] == h[..i];
    assert w[i..] == h[i + 1..];
  }

  /** In a strictly descending history, removing the id at index i removes exactly that element. */
  lemma {:induction false} WithoutIdAt(h: seq<BuildData>, i: nat)
    requires StrictlyDescending(h)
    requires i < |h|
    ensures WithoutId(h, h[i].id) == h[..i] + h[i + 1..]
  {
    if i == 0 {
      WithoutIdAbsent(h[1..], h[0].id);
    } else {
      var t := h[1..];
      assert t[i - 1] == h[i];
      DescendingAt(h, 0, i);
      assert WithoutId(h, h[i].id) == [h[0]] + WithoutId(t, h[i].id);
      WithoutIdAt(t, i - 1);
      DropAt(h, i);
    }
  }

  /** Dropping index `i > 0` of a list keeps its head. */
  lemma DropAt<T>(h: seq<T>, i: nat)
    requires 0 < i < |h|
    ensures h[..i] + h[i + 1..] == [h[0]] + (h[1..][..i - 1] + h[1..][i..])
  {
    assert h[..i] == [h[0]] + h[1..][..i - 1];
    assert h[i + 1..] == h[1..][i..];
  }

  lemma {:induction false} WithoutIdAbsent(h: seq<BuildData>, id: int)
    requires forall b :: b in h ==> b.id != id
    ensures WithoutId(h, id) == h
  {
    if h != [] {
      assert h[0] in h;
      WithoutIdAbsent(h[1..], id);
      assert h == [h[0]] + h[1..];
    }
  }

  /**
   * A build once registered stays visible: it is in the history, or the history
   * is full of more recent builds.
   */
  ghost predicate Retained(h: seq<BuildData>, b: BuildData) {
    b in h || (|h| == MaxBuildSizeToCache && forall x :: x in h ==> x.id > b.id)
  }

  /** A registered build is retained by the history it was registered into. */
  lemma RegisterRetainsItself(h: seq<BuildData>, b: BuildData)
    requires ValidHistory(h)
    ensures Retained(Register(h, b), b)
  {
    var w, k := RegisterShape(h, b);
    if |w| < MaxBuildSizeToCache || k < |w| {
      assert Register(h, b)[k] == b;
    } else {
      forall x | x in w ensures x.id > b.id {
        var j :| 0 <= j < |w| && w[j] == x;
      }
    }
  }

  /** Registering a build of another id never loses a retained build. */
  lemma RegisterRetainsOthers(h: seq<BuildData>, b: BuildData, c: BuildData)
    requires ValidHistory(h)
    requires Retained(h, b) && c.id != b.id
    ensures Retained(Register(h, c), b)
  {
    if b in h {
      RetainsPresent(h, b, c);
    } else if c.id < b.id {
      RetainsOlder(h, b, c);
    } else {
      RetainsNewer(h, b, c);
    }
  }

  lemma RetainsPresent(h: seq<BuildData>, b: BuildData, c: BuildData)
    requires ValidHistory(h)
    requires b in h && c.id != b.id
    ensures Retained(Register(h, c), b)
  {
    var w, k := RegisterShape(h, c);
    var r := Register(h, c);
    if b !in r {
      RegisterKeeps(h, c, b);
      assert |w| == MaxBuildSizeToCache && b == w[|w| - 1] && b.id < c.id;
      DescendingPairs(w);
      SpliceDropsLast(w, c, k, r);
    }
  }

  /** A full history of builds newer than `b` is untouched by an older one. */
  lemma RetainsOlder(h: seq<BuildData>, b: BuildData, c: BuildData)
    requires ValidHistory(h)
    requires |h| == MaxBuildSizeToCache && (forall x :: x in h ==> x.id > b.id) && c.id < b.id
    ensures Register(h, c) == h
  {
    WithoutIdAbsent(h, c.id);
    SortDescendingSorted(h);
    assert ([c] + h)[1..] == h;
    InsertOldest(h, c);
    assert (h + [c])[..|h|] == h;
  }

  /** A build older than every build of the list goes to its end. */
  lemma {:induction false} InsertOldest(w: seq<BuildData>, b: BuildData)
    requires forall x :: x in w ==> x.id > b.id
    ensures InsertDescending(w, b) == w + [b]
  {
    if w != [] {
      assert w[0] in w;
      InsertOldest(w[1..], b);
      assert w == [w[0]] + w[1..];
    }
  }

  lemma RetainsNewer(h: seq<BuildData>, b: BuildData, c: BuildData)
    requires ValidHistory(h)
    requires |h| == MaxBuildSizeToCache && (forall x :: x in h ==> x.id > b.id) && c.id > b.id
    ensures Retained(Register(h, c), b)
  {
    var w, k := RegisterShape(h, c);
    var r := Register(h, c);
    forall x | x in r ensures x.id > b.id {
      RegisterMembers(h, c, x);
    }
    WithoutIdAbsentOrOne(h, c.id);
  }

  /** When the splice of `b` is cut back to `|w|` builds, every build left is newer than `w`'s last. */
  lemma SpliceDropsLast(w: seq<BuildData>, b: BuildData, k: nat, r: seq<BuildData>)
    requires forall i, j :: 0 <= i < j < |w| ==> w[i].id > w[j].id
    requires k <= |w| && |r| == |w| > 0 && w[|w| - 1].id < b.id
    requires forall i :: 0 <= i < k ==> w[i].id > b.id
    requires forall i {:trigger r[i]} :: 0 <= i < |r| ==> r[i] == if i < k then w[i] else if i == k then b else w[i - 1]
    ensures forall x :: x in r ==> x.id > w[|w| - 1].id
  {
    var n := |w| - 1;
    assert k <= n;
    forall x | x in r ensures x.id > w[n].id {
      var j :| 0 <= j < |r| && r[j] == x;
      if j < k {
        assert r[j] == w[j];
      } else if j > k {
        assert r[j] == w[j - 1];
      }
    }
  }

  /** Removing one id from a history shortens it by one when the id is present, not at all otherwise. */
  lemma WithoutIdAbsentOrOne(h: seq<BuildData>, id: int)
    requires StrictlyDescending(h)
    ensures (forall b :: b in h ==> b.id != id) ==> WithoutId(h, id) == h
    ensures (exists b :: b in h && b.id == id) ==> |WithoutId(h, id)| == |h| - 1
  {
    if forall b :: b in h ==> b.id != id {
      WithoutIdAbsent(h, id);
    } else {
      var b :| b in h && b.id == id;
      var i :| 0 <= i < |h| && h[i] == b;
      WithoutIdAt(h, i);
    }
  }

  /** In a history without repeated ids, `getBuildById` finds the one build with that id. */
  lemma {:induction false} BuildByIdUnique(h: seq<BuildData>, b: BuildData)
    requires StrictlyDescending(h) && b in h
    ensures BuildById(h, b.id) == Some(b)
  {
    if h[0] != b {
      assert b in h[1..];
      BuildByIdUnique(h[1..], b);
    }
  }

  /** A build newer than every cached one goes to the front of the history. */
  lemma RegisterNewest(h: seq<BuildData>, b: BuildData)
    requires ValidHistory(h) && forall x :: x in h ==> x.id < b.id
    ensures Register(h, b) != [] && Register(h, b)[0] == b
  {
    WithoutIdAbsent(h, b.id);
    SortDescendingSorted(h);
    assert ([b] + h)[1..] == h;
    assert h != [] ==> h[0] in h;
  }

  /** ... so when it counts for its state it becomes the last build of that state. */
  lemma NewestIsLast(h: seq<BuildData>, b: BuildData)
    requires ValidHistory(h) && forall x :: x in h ==> x.id < b.id
    requires b.status != UNKNOWN
    ensures LastBuild(Register(h, b), b.state) == Some(b)
  {
    RegisterNewest(h, b);
  }

  /** Registering several builds one after the other. */
  function RegisterEach(h: seq<BuildData>, bs: seq<BuildData>): seq<BuildData>
    decreases |bs|
  {
    if bs == [] then h else RegisterEach(Register(h, bs[0]), bs[1..])
  }

  /** Any series of registrations keeps the history bounded and strictly descending. */
  lemma {:induction false} RegisterEachValid(h: seq<BuildData>, bs: seq<BuildData>)
    requires ValidHistory(h)
    ensures ValidHistory(RegisterEach(h, bs))
    decreases |bs|
  {
    if bs != [] {
      RegisterValid(h, bs[0]);
      RegisterEachValid(Register(h, bs[0]), bs[1..]);
    }
  }

  /** A retained build stays retained through registrations of other ids. */
  lemma {:induction false} RegisterEachRetainsOthers(h: seq<BuildData>, bs: seq<BuildData>, b: BuildData)
    requires ValidHistory(h) && Retained(h, b)
    requires forall c :: c in bs ==> c.id != b.id
    ensures Retained(RegisterEach(h, bs), b)
    decreases |bs|
  {
    if bs != [] {
      assert bs[0] in bs;
      RegisterRetainsOthers(h, b, bs[0]);
      RegisterValid(h, bs[0]);
      forall c | c in bs[1..] ensures c.id != b.id {
        assert c in bs;
      }
      RegisterEachRetainsOthers(Register(h, bs[0]), bs[1..], b);
    }
  }

  /** When the registered builds have distinct ids, every one of them is retained. */
  lemma {:induction false} RegisterEachRetains(h: seq<BuildData>, bs: seq<BuildData>)
    requires ValidHistory(h)
    requires forall i, j :: 0 <= i < j < |bs| ==> bs[i].id != bs[j].id
    ensures forall b :: b in bs ==> Retained(RegisterEach(h, bs), b)
    decreases |bs|
  {
    if bs != [] {
      var h1 := Register(h, bs[0]);
      RegisterValid(h, bs[0]);
      RegisterRetainsItself(h, bs[0]);
      forall c | c in bs[1..] ensures c.id != bs[0].id {
        var j :| 0 <= j < |bs[1..]| && bs[1..][j] == c;
        assert bs[j + 1] == c;
      }
      RegisterEachRetainsOthers(h1, bs[1..], bs[0]);
      forall i, j | 0 <= i < j < |bs[1..]| ensures bs[1..][i].id != bs[1..][j].id {
        assert bs[1..][i] == bs[i + 1] && bs[1..][j] == bs[j + 1];
      }
      RegisterEachRetains(h1, bs[1..]);
      forall b | b in bs ensures Retained(RegisterEach(h, bs), b) {
        if b != bs[0] {
          assert b in bs[1..];
        }
      }
    }
  }

  /** Registering one more build after a series is the series extended by that build. */
  lemma {:induction false} RegisterEachSnoc(h: seq<BuildData>, bs: seq<BuildData>, b: BuildData)
    ensures RegisterEach(h, bs + [b]) == Register(RegisterEach(h, bs), b)
    decreases |bs|
  {
    if bs == [] {
      assert [] + [b] == [b];
      assert [b][1..] == [];
    } else {
      assert (bs + [b])[0] == bs[0];
      assert (bs + [b])[1..] == bs[1..] + [b];
      RegisterEachSnoc(Register(h, bs[0]), bs[1..], b);
    }
  }

  /** After a series of registrations every cached build was cached before or is one of the registered builds. */
  lemma {:induction false} RegisterEachMembers(h: seq<BuildData>, bs: seq<BuildData>, x: BuildData)
    requires ValidHistory(h)
    requires x in RegisterEach(h, bs)
    ensures x in h || x in bs
    decreases |bs|
  {
    if bs != [] {
      var h1 := Register(h, bs[0]);
      RegisterValid(h, bs[0]);
      RegisterEachMembers(h1, bs[1..], x);
      if x in h1 {
        RegisterMembers(h, bs[0], x);
      }
    }
  }
}
