/**
 * The layout of the wall: how many tiles go on a screen and in a column, the
 * split of the tiles into screens and of a screen into columns, the grid
 * coordinates of each tile, and the rotation through the screens.
 *
 * Tiles are values of any type `T`. Counts follow Java `int` arithmetic; the
 * number of tiles is at most `Integer.MAX_VALUE`, as a collection's size is.
 */
module WallLayout {
  import opened Wrappers
  import opened JavaInt
  import opened JavaList

  // ---------------------------------------------------------------------------
  // Ceiling division
  // ---------------------------------------------------------------------------

  function Max(a: int, b: int): int {
    if a < b then b else a
  }

  /** The mathematical ceiling of `a / b`. */
  function Ceil(a: nat, b: nat): nat
    requires b >= 1
  {
    (a + b - 1) / b
  }

  /** `Ceil(a, b)` is the least number of `b`-sized groups that hold `a`. */
  lemma CeilBounds(a: nat, b: nat)
    requires b >= 1
    ensures Ceil(a, b) * b >= a
    ensures Ceil(a, b) >= 1 ==> (Ceil(a, b) - 1) * b < a
  {
    var q := Ceil(a, b);
    assert (a + b - 1) == q * b + (a + b - 1) % b;
  }

  /** Any number of `b`-sized groups that holds `a` is at least the ceiling. */
  lemma CeilLeast(a: nat, b: nat, m: int)
    requires b >= 1 && m * b >= a
    ensures Ceil(a, b) <= Max(1, m) || a == 0
    ensures Ceil(a, b) <= m || a == 0
  {
    CeilBounds(a, b);
    var q := Ceil(a, b);
    if a > 0 && q > m {
      assert q - 1 >= m;
      MulMonotone(m, q - 1, b);
    }
  }

  lemma MulMonotone(x: int, y: int, b: nat)
    requires x <= y
    ensures x * b <= y * b
  {
  }

  /**
   * `a / b + (a % b > 0 ? 1 : 0)` on Java ints, for a count `a`: the ceiling
   * of `a / b` for a positive `b`, at most one for a negative `b`.
   */
  function CeilDiv(a: int, b: int): (r: int)
    requires 0 <= a <= IntMax && IsInt32(b) && b != 0
    ensures IsInt32(r)
    ensures b > 0 ==> r == Ceil(a, b)
    ensures b < 0 ==> r <= 1
  {
    var q := Div(a, b);
    var m := Rem(a, b);
    var r := q + (if m > 0 then 1 else 0);
    if b > 0 then
      assert a == q * b + m && 0 <= m < b;
      CeilOf(a, b, q, m);
      r
    else
      r
  }

  /** Splitting `a` as `q * b + m` gives the ceiling `q` or `q + 1`. */
  lemma CeilOf(a: nat, b: nat, q: int, m: int)
    requires b >= 1 && a == q * b + m && 0 <= m < b
    ensures Ceil(a, b) == q + (if m > 0 then 1 else 0)
    ensures q + (if m > 0 then 1 else 0) <= IntMax || a > IntMax
  {
    assert q >= 0 by {
      if q < 0 {
        MulMonotone(q, -1, b);
      }
    }
    var c := q + (if m > 0 then 1 else 0);
    assert a + b - 1 == c * b + (if m > 0 then m - 1 else b - 1);
    DivUnique(a + b - 1, b, c, if m > 0 then m - 1 else b - 1);
    if m > 0 {
      MulMonotone(1, b, q);
      assert q * b >= q;
    }
  }

  lemma DivUnique(n: nat, b: nat, q: int, m: int)
    requires b >= 1 && n == q * b + m && 0 <= m < b
    ensures n / b == q
  {
    var q' := n / b;
    var m' := n % b;
    assert n == q' * b + m';
    if q' < q {
      MulMonotone(q' + 1, q, b);
    } else if q' > q {
      MulMonotone(q + 1, q', b);
    }
  }

  // ---------------------------------------------------------------------------
  // Counts of `updateLayout`
  // ---------------------------------------------------------------------------

  /** The counts `updateLayout` derives from the number of tiles and the maximum tiles per column and per row. */
  datatype Layout = Layout(maxByScreens: int, nbScreen: int, byScreen: int, nbColums: int, byColums: int)

  /**
   * The counts of `updateLayout`: tiles per screen at most, screens, tiles
   * per screen, columns and tiles per column. A maximum of zero tiles per
   * column divides by zero: there is no layout then.
   */
  function ComputeLayout(n: nat, maxTilesByColumn: int, maxTilesByRow: int): (r: Option<Layout>)
    requires n <= IntMax && IsInt32(maxTilesByColumn) && IsInt32(maxTilesByRow)
    ensures r.None? <==> maxTilesByColumn == 0
  {
    var maxByScreens := Max(1, Wrap32(maxTilesByColumn * maxTilesByRow));
    var nbScreen := Max(1, CeilDiv(n, maxByScreens));
    var byScreen := Max(1, CeilDiv(n, nbScreen));
    if maxTilesByColumn == 0 then None
    else
      var nbColums := Max(1, CeilDiv(byScreen, maxTilesByColumn));
      var byColums := Max(1, CeilDiv(byScreen, nbColums));
      Some(Layout(maxByScreens, nbScreen, byScreen, nbColums, byColums))
  }

  /**
   * Every count is at least one; the screens hold all the tiles, no screen
   * holds more than the maximum, the columns of a screen hold its tiles, and
   * a column holds no more than the maximum per column when that is
   * positive. A product of the maxima that fits in an `int` is the maximum
   * per screen.
   */
  lemma LayoutBounds(n: nat, maxTilesByColumn: int, maxTilesByRow: int)
    requires n <= IntMax && IsInt32(maxTilesByColumn) && IsInt32(maxTilesByRow) && maxTilesByColumn != 0
    ensures var l := ComputeLayout(n, maxTilesByColumn, maxTilesByRow).value;
            l.maxByScreens >= 1 && l.nbScreen >= 1 && l.byScreen >= 1 && l.nbColums >= 1 && l.byColums >= 1 &&
            l.nbScreen * l.maxByScreens >= n &&
            l.nbScreen * l.byScreen >= n &&
            l.byScreen <= l.maxByScreens &&
            l.nbColums * l.byColums >= l.byScreen &&
            (maxTilesByColumn >= 1 ==> l.byColums <= maxTilesByColumn) &&
            (maxTilesByColumn >= 1 && maxTilesByRow >= 1 && maxTilesByColumn * maxTilesByRow <= IntMax ==>
               l.maxByScreens == maxTilesByColumn * maxTilesByRow)
  {
    var ms := Max(1, Wrap32(maxTilesByColumn * maxTilesByRow));
    if maxTilesByColumn >= 1 && maxTilesByRow >= 1 && maxTilesByColumn * maxTilesByRow <= IntMax {
      MulMonotone(1, maxTilesByColumn, maxTilesByRow);
      assert ms == maxTilesByColumn * maxTilesByRow;
    }
    ScreenCounts(n, ms);
    var byScreen := Max(1, CeilDiv(n, Max(1, CeilDiv(n, ms))));
    ColumnCounts(byScreen, maxTilesByColumn);
  }

  /** The screen counts: `nbScreen` screens of `byScreen` tiles hold the `n` tiles, and `byScreen` is at most `ms`. */
  lemma ScreenCounts(n: nat, ms: int)
    requires n <= IntMax && 1 <= ms <= IntMax
    ensures var nbScreen := Max(1, CeilDiv(n, ms));
            var byScreen := Max(1, CeilDiv(n, nbScreen));
            nbScreen * ms >= n && nbScreen * byScreen >= n && byScreen <= ms
  {
    var nbScreen := Max(1, CeilDiv(n, ms));
    CeilBounds(n, ms);
    MulMonotone(Ceil(n, ms), nbScreen, ms);
    var byScreen := Max(1, CeilDiv(n, nbScreen));
    CeilBounds(n, nbScreen);
    MulMonotone(Ceil(n, nbScreen), byScreen, nbScreen);
    assert ms * nbScreen >= n;
    CeilLeast(n, nbScreen, ms);
  }

  /** The column counts: `nbColums` columns of `byColums` tiles hold a screen, and `byColums` is at most a positive maximum `c`. */
  lemma ColumnCounts(byScreen: int, c: int)
    requires 1 <= byScreen <= IntMax && IsInt32(c) && c != 0
    ensures var nbColums := Max(1, CeilDiv(byScreen, c));
            var byColums := Max(1, CeilDiv(byScreen, nbColums));
            nbColums * byColums >= byScreen && (c >= 1 ==> byColums <= c)
  {
    var nbColums := Max(1, CeilDiv(byScreen, c));
    var byColums := Max(1, CeilDiv(byScreen, nbColums));
    CeilBounds(byScreen, nbColums);
    MulMonotone(Ceil(byScreen, nbColums), byColums, nbColums);
    if c >= 1 {
      CeilBounds(byScreen, c);
      MulMonotone(Ceil(byScreen, c), nbColums, c);
      assert c * nbColums >= byScreen;
      CeilLeast(byScreen, nbColums, c);
    }
  }

  // ---------------------------------------------------------------------------
  // Partitions (`Iterables.partition`)
  // ---------------------------------------------------------------------------

  /** `Iterables.partition(s, k)`: consecutive chunks of `k` elements, the last one possibly shorter. */
  function Chunks<T>(s: seq<T>, k: nat): (r: seq<seq<T>>)
    requires k >= 1
    decreases |s|
  {
    if s == [] then []
    else if |s| <= k then [s]
    else [s[..k]] + Chunks(s[k..], k)
  }

  function Flatten<T>(ss: seq<seq<T>>): seq<T> {
    if ss == [] then [] else ss[0] + Flatten(ss[1..])
  }

  /** Chunking keeps every element once and in order. */
  lemma {:induction false} ChunksFlatten<T>(s: seq<T>, k: nat)
    requires k >= 1
    ensures Flatten(Chunks(s, k)) == s
    decreases |s|
  {
    if |s| > k {
      ChunksFlatten(s[k..], k);
      assert s == s[..k] + s[k..];
    } else if s != [] {
      assert Flatten([s]) == s + Flatten<T>([]);
    }
  }

  /**
   * Chunk `j` starts at element `j * k`; it is not empty, holds at most `k`
   * elements and exactly `k` unless it is the last one, which ends the list.
   */
  lemma {:induction false} ChunkAt<T>(s: seq<T>, k: nat, j: nat)
    requires k >= 1 && j < |Chunks(s, k)|
    ensures var c := Chunks(s, k)[j];
            1 <= |c| <= k && j * k + |c| <= |s| &&
            (j < |Chunks(s, k)| - 1 ==> |c| == k) &&
            (j == |Chunks(s, k)| - 1 ==> j * k + |c| == |s|) &&
            forall i :: 0 <= i < |c| ==> c[i] == s[j * k + i]
    decreases |s|
  {
    var cs := Chunks(s, k);
    if |s| > k {
      assert cs == [s[..k]] + Chunks(s[k..], k);
      if j > 0 {
        ChunkAt(s[k..], k, j - 1);
        var c := cs[j];
        assert c == Chunks(s[k..], k)[j - 1];
        var base := (j - 1) * k;
        assert base + k == j * k;
        forall i | 0 <= i < |c|
          ensures c[i] == s[j * k + i]
        {
          assert c[i] == s[k..][base + i];
        }
      }
    }
  }

  /** No chunk holds more than `k` elements. */
  lemma {:induction false} ChunksAtMost<T>(s: seq<T>, k: nat)
    requires k >= 1
    ensures forall j :: 0 <= j < |Chunks(s, k)| ==> |Chunks(s, k)[j]| <= k
    decreases |s|
  {
    if |s| > k {
      ChunksAtMost(s[k..], k);
    }
  }

  /** The number of chunks is the ceiling of `|s| / k`. */
  lemma {:induction false} ChunksCount<T>(s: seq<T>, k: nat)
    requires k >= 1
    ensures |Chunks(s, k)| == Ceil(|s|, k)
    decreases |s|
  {
    if |s| > k {
      ChunksCount(s[k..], k);
      DivUnique(|s| + k - 1, k, Ceil(|s| - k, k) + 1, (|s| - k + k - 1) % k);
    } else if s != [] {
      DivUnique(|s| + k - 1, k, 1, |s| - 1);
    }
  }

  /** The tiles make no more screens than `nbScreen`. */
  lemma ScreensCount<T>(tiles: seq<T>, l: Layout)
    requires l.byScreen >= 1 && l.nbScreen * l.byScreen >= |tiles|
    ensures |Chunks(tiles, l.byScreen)| <= Max(1, l.nbScreen)
  {
    ChunksCount(tiles, l.byScreen);
    CeilLeast(|tiles|, l.byScreen, l.nbScreen);
  }

  // ---------------------------------------------------------------------------
  // A screen (`buildScreenPane`)
  // ---------------------------------------------------------------------------

  /** A tile placed in the grid of a screen at column `x`, row `y`. */
  datatype Cell<T> = Cell(tile: T, x: int, y: int)

  /**
   * The grid of `buildScreenPane`: the tiles go in columns of `byColums`,
   * column after column, so tile `i` sits at column `i / byColums` and row
   * `i % byColums`.
   */
  method BuildScreenPane<T>(buildsInScreen: seq<T>, byColums: nat) returns (cells: seq<Cell<T>>)
    requires byColums >= 1
    ensures |cells| == |buildsInScreen|
    ensures forall i :: 0 <= i < |cells| ==>
              cells[i].tile == buildsInScreen[i] && 0 <= cells[i].x && 0 <= cells[i].y < byColums &&
              cells[i].x * byColums + cells[i].y == i
  {
    var partition := Chunks(buildsInScreen, byColums);
    cells := [];
    var x := 0;
    var y := 0;
    while x < |partition|
      invariant 0 <= x <= |partition| && y == 0
      invariant x < |partition| ==> |cells| == x * byColums
      invariant x == |partition| ==> |cells| == |buildsInScreen|
      invariant |cells| <= |buildsInScreen|
      invariant forall i :: 0 <= i < |cells| ==>
                  cells[i].tile == buildsInScreen[i] && 0 <= cells[i].x && 0 <= cells[i].y < byColums &&
                  cells[i].x * byColums + cells[i].y == i
    {
      var buildList := partition[x];
      ChunkAt(buildsInScreen, byColums, x);
      var j := 0;
      while j < |buildList|
        invariant 0 <= j <= |buildList| && y == j
        invariant |cells| == x * byColums + j
        invariant forall i :: 0 <= i < |cells| ==>
                    cells[i].tile == buildsInScreen[i] && 0 <= cells[i].x && 0 <= cells[i].y < byColums &&
                    cells[i].x * byColums + cells[i].y == i
      {
        cells := cells + [Cell(buildList[j], x, y)];
        y := y + 1;
        j := j + 1;
      }
      y := 0;
      x := x + 1;
    }
  }

  /** On a screen of at most `nbColums * byColums` tiles every tile is inside the grid. */
  lemma CellsInGrid<T>(cells: seq<Cell<T>>, nbColums: nat, byColums: nat)
    requires byColums >= 1 && |cells| <= nbColums * byColums
    requires forall i :: 0 <= i < |cells| ==> 0 <= cells[i].y < byColums && cells[i].x * byColums + cells[i].y == i
    ensures forall i :: 0 <= i < |cells| ==> cells[i].x < nbColums
  {
    forall i | 0 <= i < |cells| ensures cells[i].x < nbColums {
      if cells[i].x >= nbColums {
        MulMonotone(nbColums, cells[i].x, byColums);
      }
    }
  }

  /** Two tiles of a screen never share a cell. */
  lemma CellsDistinct<T>(cells: seq<Cell<T>>, byColums: nat, i: nat, j: nat)
    requires byColums >= 1 && i < j < |cells|
    requires forall i :: 0 <= i < |cells| ==> 0 <= cells[i].y < byColums && cells[i].x * byColums + cells[i].y == i
    ensures (cells[i].x, cells[i].y) != (cells[j].x, cells[j].y)
  {
  }

  // ---------------------------------------------------------------------------
  // The wall
  // ---------------------------------------------------------------------------

  /** A screen of the wall: its grid of tiles, shown or hidden. */
  class ScreenPane<T> {
    const cells: seq<Cell<T>>
    var visible: bool

    constructor (cells: seq<Cell<T>>)
      ensures this.cells == cells && !visible
    {
      this.cells := cells;
      visible := false;
    }
  }

  /**
   * The screen `displayNextScreen` shows: the first one when no screen is
   * shown or the shown one is gone, else the one after it, cyclically.
   */
  function NextScreenIndex<T>(children: seq<ScreenPane<T>>, current: Option<ScreenPane<T>>): (k: nat)
    requires children != []
    ensures k < |children|
  {
    var index := if current.None? then -1 else IndexOf(children, current.value);
    (if index == -1 then 0 else index + 1) % |children|
  }

  /** Screen `i` of a wall whose screens are distinct is followed by screen `i + 1`, and the last by the first. */
  lemma NextScreenCycles<T>(children: seq<ScreenPane<T>>, i: nat)
    requires i < |children|
    requires forall a, b :: 0 <= a < b < |children| ==> children[a] != children[b]
    ensures NextScreenIndex(children, Some(children[i])) == if i + 1 < |children| then i + 1 else 0
  {
    forall j | 0 <= j < i
      ensures children[..i][j] != children[i]
    {
    }
    IndexOfFirst(children, i);
    NextOrWrap(i + 1, |children|);
  }

  lemma NextOrWrap(x: int, n: int)
    requires 0 <= x <= n && n > 0
    ensures x % n == if x < n then x else 0
  {
    if x == n {
      DivUnique(x, n, 1, 0);
    } else {
      DivUnique(x, n, 0, x);
    }
  }

  /** After a layout, which screen is shown first. */
  lemma NextScreenFromStale<T>(children: seq<ScreenPane<T>>, current: Option<ScreenPane<T>>)
    requires children != [] && (current.Some? ==> current.value !in children)
    ensures NextScreenIndex(children, current) == 0
  {
  }

  class WallView<T> {
    /** The screens, in tile order. */
    var children: seq<ScreenPane<T>>
    /** The screen last shown; it may be one a later layout has dropped. */
    var current: Option<ScreenPane<T>>

    /** The children are shown exactly when they are the current screen. */
    ghost predicate ShowsOnlyCurrent()
      reads this, children
    {
      forall s :: s in children ==> (s.visible <==> current == Some(s))
    }

    constructor ()
      ensures children == [] && current == None && ShowsOnlyCurrent()
    {
      children := [];
      current := None;
    }

    /**
     * `displayNextScreen`: nothing when there is no screen; else the next
     * screen is shown and becomes current, and the previous one is hidden
     * when it is another screen.
     */
    method DisplayNextScreen()
      modifies this, children, if current.Some? then {current.value} else {}
      ensures children == old(children)
      ensures old(children) == [] ==>
                unchanged(this) && (old(current).Some? ==> unchanged(old(current).value))
      ensures old(children) != [] ==>
                var next := children[NextScreenIndex(children, old(current))];
                current == Some(next) && next.visible &&
                (old(current).Some? && old(current).value != next ==> !old(current).value.visible) &&
                forall s :: s in children && s != next && Some(s) != old(current) ==> s.visible == old(s.visible)
      ensures old(ShowsOnlyCurrent()) ==> ShowsOnlyCurrent()
    {
      if children == [] {
        return;
      }
      var previousScreen := current;
      var nextIndex := NextScreenIndex(children, previousScreen);
      var nextScreen := children[nextIndex];
      nextScreen.visible := true;
      if previousScreen.Some? && previousScreen.value != nextScreen {
        previousScreen.value.visible := false;
      }
      current := Some(nextScreen);
    }

    /**
     * `updateLayout`: the screens are replaced by one new hidden screen per
     * chunk of `byScreen` tiles, each laid out in columns of `byColums`, and
     * the first one is shown. With no layout (zero tiles per column) the
     * screens are already cleared when the division fails.
     */
    method UpdateLayout(builds: seq<T>, maxTilesByColumn: int, maxTilesByRow: int) returns (ok: bool)
      requires |builds| <= IntMax && IsInt32(maxTilesByColumn) && IsInt32(maxTilesByRow)
      modifies this, if current.Some? then {current.value} else {}
      ensures ok <==> maxTilesByColumn != 0
      ensures !ok ==> children == [] && current == old(current)
      ensures ok ==>
                var l := ComputeLayout(|builds|, maxTilesByColumn, maxTilesByRow).value;
                var screens := Chunks(builds, l.byScreen);
                |children| == |screens| &&
                forall j :: 0 <= j < |children| ==>
                  fresh(children[j]) && |children[j].cells| == |screens[j]| &&
                  forall i :: 0 <= i < |screens[j]| ==>
                    children[j].cells[i].tile == screens[j][i] &&
                    0 <= children[j].cells[i].x < l.nbColums && 0 <= children[j].cells[i].y < l.byColums &&
                    children[j].cells[i].x * l.byColums + children[j].cells[i].y == i
      ensures ok && builds != [] ==> children != [] && current == Some(children[0])
      ensures !ok || builds == [] ==>
                current == old(current) && (old(current).Some? ==> unchanged(old(current).value))
      ensures ok && builds != [] && old(current).Some? ==> !old(current).value.visible
      ensures ShowsOnlyCurrent()
    {
      children := [];
      var layout := ComputeLayout(|builds|, maxTilesByColumn, maxTilesByRow);
      if layout.None? {
        return false;
      }
      var l := layout.value;
      LayoutBounds(|builds|, maxTilesByColumn, maxTilesByRow);
      var screenPartition := Chunks(builds, l.byScreen);
      ChunksAtMost(builds, l.byScreen);
      var screens := PaneScreens(screenPartition, l.byScreen, l.nbColums, l.byColums);
      children := screens;
      if builds != [] {
        NextScreenFromStale(children, current);
      }
      DisplayNextScreen();
      ok := true;
    }
  }

  /** The loop of `updateLayout`: one new hidden screen per chunk, in order. */
  method PaneScreens<T>(partition: seq<seq<T>>, byScreen: nat, nbColums: nat, byColums: nat)
    returns (screens: seq<ScreenPane<T>>)
    requires byColums >= 1 && byScreen <= nbColums * byColums
    requires forall j :: 0 <= j < |partition| ==> |partition[j]| <= byScreen
    ensures |screens| == |partition|
    ensures forall j :: 0 <= j < |screens| ==>
              fresh(screens[j]) && !screens[j].visible && |screens[j].cells| == |partition[j]| &&
              forall i :: 0 <= i < |partition[j]| ==>
                screens[j].cells[i].tile == partition[j][i] &&
                0 <= screens[j].cells[i].x < nbColums && 0 <= screens[j].cells[i].y < byColums &&
                screens[j].cells[i].x * byColums + screens[j].cells[i].y == i
  {
    screens := [];
    var j := 0;
    while j < |partition|
      invariant 0 <= j <= |partition| && |screens| == j
      invariant forall k :: 0 <= k < j ==>
                  fresh(screens[k]) && !screens[k].visible && |screens[k].cells| == |partition[k]| &&
                  forall i :: 0 <= i < |partition[k]| ==>
                    screens[k].cells[i].tile == partition[k][i] &&
                    0 <= screens[k].cells[i].x < nbColums && 0 <= screens[k].cells[i].y < byColums &&
                    screens[k].cells[i].x * byColums + screens[k].cells[i].y == i
    {
      var cells := BuildScreenPane(partition[j], byColums);
      CellsInGrid(cells, nbColums, byColums);
      var screenPane := new ScreenPane(cells);
      screens := screens + [screenPane];
      j := j + 1;
    }
  }
}
