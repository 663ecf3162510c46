/**
 * The grid layout of `populate` in both programs: the brute-force search
 * over column counts, the derived rows and tile size, and the placement of
 * the tiles row by row. Pixel quantities are exact reals; the programs
 * compute them in IEEE doubles.
 */
module Layout {
  import opened Optional
  import opened Windows
  import opened Icons

  /** `column_spacing` / `row_spacing` in the search. */
  const Spacing: real := 22.0
  /** The `4 / 3` aspect factor. */
  const Aspect: real := 4.0 / 3.0

  /** The share of the window width the grid may use. */
  function WidthFraction(v: Variant): real {
    if v == WlOverview then 0.9 else 0.85
  }

  /** The share of the window height the grid may use. */
  function HeightFraction(v: Variant): real {
    if v == WlOverview then 0.8 else 0.6
  }

  /** `math.ceil(count / cols)`. */
  function CeilDiv(count: nat, cols: nat): nat
    requires cols >= 1
  {
    (count + cols - 1) / cols
  }

  lemma {:induction false} MulMonotone(a: nat, b: nat, c: nat)
    requires a <= b
    ensures a * c <= b * c
  {
    if a < b {
      MulMonotone(a, b - 1, c);
      assert b * c == (b - 1) * c + c;
    }
  }

  /** `CeilDiv` is the ceiling: the fewest rows of `cols` that hold `count` items. */
  lemma CeilDivIsCeiling(count: nat, cols: nat)
    requires cols >= 1
    ensures CeilDiv(count, cols) * cols >= count
    ensures (CeilDiv(count, cols) - 1) * cols < count || count == 0
    ensures count >= 1 ==> CeilDiv(count, cols) >= 1
  {
    var q, m := CeilDiv(count, cols), (count + cols - 1) % cols;
    assert q * cols + m == count + cols - 1;
  }

  /** Some windows need at least one row. */
  lemma CeilDivPositive(count: nat, cols: nat)
    requires count >= 1 && cols >= 1
    ensures CeilDiv(count, cols) >= 1
  {
    var q, m := CeilDiv(count, cols), (count + cols - 1) % cols;
    assert q * cols + m == count + cols - 1;
    assert m < cols;
  }

  lemma CeilDivMonotone(n: nat, m: nat, cols: nat)
    requires cols >= 1 && n <= m
    ensures CeilDiv(n, cols) <= CeilDiv(m, cols)
  {
    CeilDivIsCeiling(n, cols);
    CeilDivIsCeiling(m, cols);
    var qn, qm := CeilDiv(n, cols), CeilDiv(m, cols);
    if qn > qm {
      MulMonotone(qm, qn - 1, cols);
      assert false;
    }
  }

  /** Every window count fits a single row when there are as many columns. */
  lemma CeilDivSelf(n: nat)
    requires n >= 1
    ensures CeilDiv(n, n) == 1
  {
    assert n + n - 1 == n * 1 + (n - 1);
  }

  /** `max_w`: the widest tile for which `cols` tiles and their gaps fit the usable width. */
  function MaxWidth(v: Variant, w: int, cols: nat): real
    requires cols >= 1
  {
    ((w as real) * WidthFraction(v) - ((cols - 1) as real) * Spacing) / (cols as real)
  }

  /** `max_h`: the tallest tile for which `rows` tiles and their gaps fit the usable height. */
  function MaxHeight(v: Variant, h: int, rows: nat): real
    requires rows >= 1
  {
    ((h as real) * HeightFraction(v) - ((rows - 1) as real) * Spacing) / (rows as real)
  }

  /** `tw`: the tile width with `cols` columns, bounded by the width and by the height through the aspect. */
  function Candidate(v: Variant, w: int, h: int, count: nat, cols: nat): real
    requires 1 <= cols && count >= 1
  {
    var mw, mh := MaxWidth(v, w, cols), MaxHeight(v, h, CeilDiv(count, cols)) * Aspect;
    if mw <= mh then mw else mh
  }

  /** The value of `best_w` after the search has tried the column counts `1..k`. */
  function Best(v: Variant, w: int, h: int, count: nat, k: nat): (r: real)
    requires 1 <= count && k <= count
    ensures r >= 0.0
    ensures forall c :: 1 <= c <= k ==> Candidate(v, w, h, count, c) <= r
  {
    if k == 0 then 0.0
    else
      var prev, tw := Best(v, w, h, count, k - 1), Candidate(v, w, h, count, k);
      if tw > prev then tw else prev
  }

  /** What the search has established once the column counts `1..cols-1` have been tried. */
  predicate Searched(v: Variant, w: int, h: int, count: nat, cols: nat, bestCols: nat, bestW: real)
    requires count >= 1
  {
    1 <= cols <= count + 1 && 1 <= bestCols <= count &&
    (bestW > 0.0 ==> bestCols < cols) &&
    (bestW == 0.0 ==> bestCols == 1) &&
    bestW == Best(v, w, h, count, cols - 1) &&
    (bestW > 0.0 ==> Candidate(v, w, h, count, bestCols) == bestW) &&
    (bestW > 0.0 ==> forall c :: 1 <= c < bestCols ==> Candidate(v, w, h, count, c) < bestW)
  }

  /** One iteration of the search keeps `Searched`: a strictly wider candidate replaces the incumbent. */
  lemma SearchStep(v: Variant, w: int, h: int, count: nat, cols: nat, bestCols: nat, bestW: real)
    requires count >= 1 && cols <= count
    requires Searched(v, w, h, count, cols, bestCols, bestW)
    ensures var tw := Candidate(v, w, h, count, cols);
      if tw > bestW then Searched(v, w, h, count, cols + 1, cols, tw)
      else Searched(v, w, h, count, cols + 1, bestCols, bestW)
  {
    var tw := Candidate(v, w, h, count, cols);
    assert Best(v, w, h, count, cols) == if tw > bestW then tw else bestW;
  }

  /**
   * The search loop of `populate`. `best_w` ends as the largest candidate
   * width (or 0 when none is positive), and `best_cols` as the smallest
   * column count reaching it, since only a strictly wider candidate replaces
   * the incumbent.
   */
  method SolveColumns(v: Variant, w: int, h: int, count: nat) returns (bestCols: nat, bestW: real)
    requires count >= 1
    ensures 1 <= bestCols <= count
    ensures bestW >= 0.0 && bestW == Best(v, w, h, count, count)
    ensures forall c :: 1 <= c <= count ==> Candidate(v, w, h, count, c) <= bestW
    ensures bestW > 0.0 ==> Candidate(v, w, h, count, bestCols) == bestW
    ensures bestW > 0.0 ==> forall c :: 1 <= c < bestCols ==> Candidate(v, w, h, count, c) < bestW
    ensures bestW == 0.0 ==> bestCols == 1
  {
    bestCols, bestW := 1, 0.0;
    var cols := 1;
    while cols <= count
      invariant Searched(v, w, h, count, cols, bestCols, bestW)
    {
      CeilDivPositive(count, cols);
      var rows := CeilDiv(count, cols);
      var maxW := MaxWidth(v, w, cols);
      var maxH := MaxHeight(v, h, rows);
      var tw := if maxW <= maxH * Aspect then maxW else maxH * Aspect;
      assert tw == Candidate(v, w, h, count, cols);
      SearchStep(v, w, h, count, cols, bestCols, bestW);
      if tw > bestW {
        bestW, bestCols := tw, cols;
      }
      cols := cols + 1;
    }
  }

  /** A tile of the grid: the window it shows, its cell, and its icon. */
  datatype Tile = Tile(window: Window, col: nat, row: nat, icon: string, iconSize: int)

  /** The grid geometry `populate` settles on. */
  datatype Geometry = Geometry(cols: nat, rows: nat, tileW: int, tileH: int)

  /** `int(tile_w * 0.75)` for a non-negative width. */
  function TileHeight(tileW: int): int {
    ((tileW as real) * 0.75).Floor
  }

  /** Tile `i` of a grid with `cols` columns: column `i mod cols`, row `i div cols`. */
  predicate AtCell(t: Tile, i: nat, cols: nat) {
    t.col < cols && t.row * cols + t.col == i
  }

  lemma {:induction false} MulAtLeast(d: nat, cols: nat)
    requires d >= 1
    ensures d * cols >= cols
  {
    if d > 1 {
      MulAtLeast(d - 1, cols);
      assert d * cols == (d - 1) * cols + cols;
    }
  }

  /** The cell a tile index lands in is its quotient and remainder by the column count. */
  lemma AtCellIsDivMod(t: Tile, i: nat, cols: nat)
    requires cols >= 1 && AtCell(t, i, cols)
    ensures t.row == i / cols && t.col == i % cols
  {
    var q, m := i / cols, i % cols;
    assert q * cols + m == i;
    if t.row > q {
      var d := t.row - q;
      MulAtLeast(d, cols);
      assert false;
    } else if t.row < q {
      var d := q - t.row;
      MulAtLeast(d, cols);
      assert false;
    }
  }

  /**
   * The nested row/column loop of `populate`, which walks the cells row by
   * row and attaches window `i` while `i < count`.
   */
  method PlaceTiles(v: Variant, hasIcon: string -> bool, wins: seq<Window>, cols: nat, rows: nat, tileW: int)
    returns (tiles: seq<Tile>)
    requires cols >= 1 && rows == CeilDiv(|wins|, cols)
    ensures |tiles| == |wins|
    ensures forall i :: 0 <= i < |wins| ==> AtCell(tiles[i], i, cols) && tiles[i].window == wins[i]
    ensures forall i :: 0 <= i < |wins| ==>
      tiles[i].icon == TileIcon(v, hasIcon, wins[i].appId) && tiles[i].iconSize == TileIconSize(v, tileW)
  {
    var count := |wins|;
    CeilDivIsCeiling(count, cols);
    tiles := [];
    var i := 0;
    var r := 0;
    while r < rows
      invariant 0 <= r <= rows
      invariant i == if r * cols <= count then r * cols else count
      invariant |tiles| == i
      invariant forall j :: 0 <= j < i ==> AtCell(tiles[j], j, cols) && tiles[j].window == wins[j]
      invariant forall j :: 0 <= j < i ==>
        tiles[j].icon == TileIcon(v, hasIcon, wins[j].appId) && tiles[j].iconSize == TileIconSize(v, tileW)
    {
      var c := 0;
      while c < cols
        invariant 0 <= c <= cols
        invariant i == if r * cols + c <= count then r * cols + c else count
        invariant |tiles| == i
        invariant forall j :: 0 <= j < i ==> AtCell(tiles[j], j, cols) && tiles[j].window == wins[j]
        invariant forall j :: 0 <= j < i ==>
          tiles[j].icon == TileIcon(v, hasIcon, wins[j].appId) && tiles[j].iconSize == TileIconSize(v, tileW)
      {
        if i >= count {
          break;
        }
        var win := wins[i];
        tiles := tiles + [Tile(win, c, r, TileIcon(v, hasIcon, win.appId), TileIconSize(v, tileW))];
        i := i + 1;
        c := c + 1;
      }
      assert (r + 1) * cols == r * cols + cols;
      r := r + 1;
    }
    assert rows * cols >= count;
  }

  /**
   * `populate` after fetching the windows: not ready (`None`, retried by the
   * caller) without windows or while the window is smaller than 200 pixels
   * either way; otherwise the solved geometry and one tile per window.
   */
  method Populate(v: Variant, hasIcon: string -> bool, wins: seq<Window>, w: int, h: int)
    returns (g: Option<Geometry>, tiles: seq<Tile>)
    ensures g.None? <==> wins == [] || w < 200 || h < 200
    ensures g.None? ==> tiles == []
    ensures g.Some? ==>
      var count := |wins|;
      var best := Best(v, w, h, count, count);
      1 <= g.value.cols <= count &&
      g.value.rows == CeilDiv(count, g.value.cols) &&
      (best > 0.0 ==> Candidate(v, w, h, count, g.value.cols) == best) &&
      (best > 0.0 ==> forall c :: 1 <= c < g.value.cols ==> Candidate(v, w, h, count, c) < best) &&
      (best == 0.0 ==> g.value.cols == 1) &&
      g.value.tileW == best.Floor && g.value.tileH == TileHeight(g.value.tileW)
    ensures g.Some? ==> |tiles| == |wins|
    ensures g.Some? ==> forall i :: 0 <= i < |wins| ==>
      AtCell(tiles[i], i, g.value.cols) && tiles[i].window == wins[i] &&
      tiles[i].icon == TileIcon(v, hasIcon, wins[i].appId) && tiles[i].iconSize == TileIconSize(v, g.value.tileW)
  {
    if wins == [] || w < 200 || h < 200 {
      return None, [];
    }
    var count := |wins|;
    var bestCols, bestW := SolveColumns(v, w, h, count);
    var rows := CeilDiv(count, bestCols);
    var tileW := bestW.Floor;
    var tileH := ((tileW as real) * 0.75).Floor;
    tiles := PlaceTiles(v, hasIcon, wins, bestCols, rows, tileW);
    g := Some(Geometry(bestCols, rows, tileW, tileH));
  }

  lemma DivAntitone(k: real, x: real, y: real)
    requires k > 0.0 && 0.0 < x <= y
    ensures k / y <= k / x
  {
    var a, b := k / x, k / y;
    assert a * x == k && b * y == k;
    assert a > 0.0;
    assert a * x <= a * y;
  }

  /** `(a - (c - 1)·s) / c` is `(a + s) / c - s`. */
  lemma QuotientShift(a: real, s: real, c: nat)
    requires c >= 1
    ensures (a - ((c - 1) as real) * s) / (c as real) == (a + s) / (c as real) - s
  {
    var x := c as real;
    assert ((c - 1) as real) == x - 1.0;
    var q := (a + s) / x;
    assert q * x == a + s;
    assert (q - s) * x == a - (x - 1.0) * s;
  }

  /** With more slots, each slot of a fixed share is no larger. */
  lemma ShareMonotone(a: real, c1: nat, c2: nat)
    requires a >= 0.0 && 1 <= c1 <= c2
    ensures (a - ((c2 - 1) as real) * Spacing) / (c2 as real) <= (a - ((c1 - 1) as real) * Spacing) / (c1 as real)
  {
    QuotientShift(a, Spacing, c1);
    QuotientShift(a, Spacing, c2);
    DivAntitone(a + Spacing, c1 as real, c2 as real);
  }

  lemma MaxWidthMonotone(v: Variant, w: int, c1: nat, c2: nat)
    requires w >= 0 && 1 <= c1 <= c2
    ensures MaxWidth(v, w, c2) <= MaxWidth(v, w, c1)
  {
    ShareMonotone((w as real) * WidthFraction(v), c1, c2);
  }

  lemma MaxHeightMonotone(v: Variant, h: int, r1: nat, r2: nat)
    requires h >= 0 && 1 <= r1 <= r2
    ensures MaxHeight(v, h, r2) <= MaxHeight(v, h, r1)
  {
    ShareMonotone((h as real) * HeightFraction(v), r1, r2);
  }

  /** An extra window never widens the tile a fixed column count allows. */
  lemma CandidateMoreWindows(v: Variant, w: int, h: int, n: nat, c: nat)
    requires w >= 0 && h >= 0 && 1 <= c && n >= 1
    ensures Candidate(v, w, h, n + 1, c) <= Candidate(v, w, h, n, c)
  {
    CeilDivMonotone(n, n + 1, c);
    MaxHeightMonotone(v, h, CeilDiv(n, c), CeilDiv(n + 1, c));
  }

  lemma {:induction false} BestAtMost(v: Variant, w: int, h: int, count: nat, k: nat, m: real)
    requires 1 <= count && k <= count && m >= 0.0
    requires forall c :: 1 <= c <= k ==> Candidate(v, w, h, count, c) <= m
    ensures Best(v, w, h, count, k) <= m
  {
    if k > 0 {
      BestAtMost(v, w, h, count, k - 1, m);
    }
  }

  /** For a fixed window size, more windows never give wider tiles. */
  lemma TileWidthMonotone(v: Variant, w: int, h: int, n: nat)
    requires w >= 0 && h >= 0 && n >= 1
    ensures Best(v, w, h, n + 1, n + 1) <= Best(v, w, h, n, n)
  {
    var m, n1 := Best(v, w, h, n, n), n + 1;
    forall c | 1 <= c <= n1 ensures Candidate(v, w, h, n1, c) <= m {
      if c <= n {
        CandidateMoreWindows(v, w, h, n, c);
      } else {
        CeilDivSelf(n);
        CeilDivSelf(n1);
        MaxWidthMonotone(v, w, n, n1);
      }
    }
    BestAtMost(v, w, h, n1, n1, m);
  }

  /** `n` tiles of size `t` and the `n - 1` gaps between them fit `total` when `t` is at most the per-tile share. */
  lemma FitsBudget(n: nat, t: real, total: real)
    requires n >= 1 && t <= (total - ((n - 1) as real) * Spacing) / (n as real)
    ensures (n as real) * t + ((n - 1) as real) * Spacing <= total
  {
    var share := (total - ((n - 1) as real) * Spacing) / (n as real);
    assert (n as real) * share == total - ((n - 1) as real) * Spacing;
    assert (n as real) * t <= (n as real) * share;
  }

  /** With a positive tile width, `cols` tiles and their gaps fit the usable width. */
  lemma GridFitsWidth(v: Variant, w: int, h: int, count: nat, cols: nat)
    requires count >= 1 && 1 <= cols <= count && Candidate(v, w, h, count, cols) > 0.0
    ensures (cols as real) * (Candidate(v, w, h, count, cols).Floor as real) + ((cols - 1) as real) * Spacing
            <= (w as real) * WidthFraction(v)
  {
    var tileW := Candidate(v, w, h, count, cols).Floor;
    assert (tileW as real) <= MaxWidth(v, w, cols);
    FitsBudget(cols, tileW as real, (w as real) * WidthFraction(v));
  }

  lemma TileHeightBound(bw: real, mh: real)
    requires 0.0 < bw <= mh * Aspect
    ensures (TileHeight(bw.Floor) as real) <= mh
  {
    var tileW := bw.Floor;
    assert tileW >= 0;
    var x := (tileW as real) * 0.75;
    assert (TileHeight(tileW) as real) <= x;
    assert x <= bw * 0.75;
    assert bw * 0.75 <= mh;
  }

  /** With a positive tile width, the rows of tiles and their gaps fit the usable height. */
  lemma GridFitsHeight(v: Variant, w: int, h: int, count: nat, cols: nat, rows: nat)
    requires count >= 1 && 1 <= cols <= count && Candidate(v, w, h, count, cols) > 0.0
    requires rows == CeilDiv(count, cols)
    ensures (rows as real) * (TileHeight(Candidate(v, w, h, count, cols).Floor) as real) + ((rows - 1) as real) * Spacing
            <= (h as real) * HeightFraction(v)
  {
    var bw := Candidate(v, w, h, count, cols);
    var mh := MaxHeight(v, h, rows);
    TileHeightBound(bw, mh);
    FitsBudget(rows, TileHeight(bw.Floor) as real, (h as real) * HeightFraction(v));
  }

  lemma ExampleRows()
    ensures CeilDiv(5, 1) == 5 && CeilDiv(5, 2) == 3 && CeilDiv(5, 3) == 2
  {
  }

  lemma ExampleTallRows()
    ensures MaxHeight(WlOverview, 700, 5) * Aspect < 856.0 / 3.0
    ensures MaxHeight(WlOverview, 700, 3) * Aspect < 856.0 / 3.0
  {
    assert MaxHeight(WlOverview, 700, 5) == 94.4;
    assert MaxHeight(WlOverview, 700, 3) == 172.0;
  }

  lemma ExampleColumns1()
    ensures Candidate(WlOverview, 1000, 700, 5, 1) < 856.0 / 3.0
  {
    ExampleRows();
    ExampleTallRows();
  }

  lemma ExampleColumns2()
    ensures Candidate(WlOverview, 1000, 700, 5, 2) < 856.0 / 3.0
  {
    ExampleRows();
    ExampleTallRows();
  }

  lemma ExampleColumns3()
    ensures Candidate(WlOverview, 1000, 700, 5, 3) == 856.0 / 3.0
  {
    assert CeilDiv(5, 3) == 2;
    assert MaxWidth(WlOverview, 1000, 3) == 856.0 / 3.0;
    assert MaxHeight(WlOverview, 700, 2) == 269.0;
  }

  lemma ExampleColumns4()
    ensures Candidate(WlOverview, 1000, 700, 5, 4) < 856.0 / 3.0
  {
    assert MaxWidth(WlOverview, 1000, 4) == 208.5;
  }

  lemma ExampleColumns5()
    ensures Candidate(WlOverview, 1000, 700, 5, 5) < 856.0 / 3.0
  {
    assert MaxWidth(WlOverview, 1000, 5) == 162.4;
  }

  /** A client of the solver: a 1000 by 700 window with five windows in wloverview.py. */
  method ExampleFiveWindows()
  {
    var cols, bw := SolveColumns(WlOverview, 1000, 700, 5);
    ExampleColumns1();
    ExampleColumns2();
    ExampleColumns3();
    ExampleColumns4();
    ExampleColumns5();
    assert bw == 856.0 / 3.0;
    assert cols == 3;
    assert bw.Floor == 285 && TileHeight(285) == 213 && IconSize(285) == 96;
  }
}
