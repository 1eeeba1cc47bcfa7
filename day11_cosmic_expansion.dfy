/** Day 11, cosmic expansion: an image of galaxies ('#') and empty space.
    Every row and every column without a galaxy is doubled, and the answer
    is the sum of the Manhattan distances between all pairs of galaxies. */
module CosmicExpansion {
  import opened Wrappers
  import opened Text

  datatype Galaxy = Galaxy(row: int, col: int)

  function Abs(x: int): nat
  {
    if x < 0 then -x else x
  }

  /** `Galaxy::dist`: the Manhattan distance. */
  function Dist(a: Galaxy, b: Galaxy): (d: nat)
    ensures d == 0 <==> a == b
  {
    Abs(a.row - b.row) + Abs(a.col - b.col)
  }

  /** The distance is symmetric and is zero exactly from a galaxy to itself. */
  lemma DistMetric(a: Galaxy, b: Galaxy)
    ensures Dist(a, b) == Dist(b, a)
    ensures Dist(a, b) == 0 <==> a == b
  {
  }

  /** and it obeys the triangle inequality. */
  lemma DistTriangle(a: Galaxy, b: Galaxy, c: Galaxy)
    ensures Dist(a, c) <= Dist(a, b) + Dist(b, c)
  {
  }

  // ---------------------------------------------------------------------
  // Transposition

  /** One pass of `transpose`'s inner map: element `j` taken from every
      row's iterator in turn, or None where a row has run out and
      `next().unwrap()` panics. */
  function Column<T>(v: seq<seq<T>>, j: nat): (r: Option<seq<T>>)
    ensures r.Some? <==> forall i | 0 <= i < |v| :: j < |v[i]|
    ensures r.Some? ==> |r.value| == |v| && forall i | 0 <= i < |v| :: r.value[i] == v[i][j]
  {
    if v == [] then Some([])
    else if j < |v[0]| then
      match Column(v[1..], j)
      case None => None
      case Some(rest) => Some([v[0][j]] + rest)
    else None
  }

  /** Columns `j` up to `len`, in order. */
  function Columns<T>(v: seq<seq<T>>, j: nat, len: nat): (r: Option<seq<seq<T>>>)
    requires j <= len
    ensures r.Some? <==> forall i | 0 <= i < |v| :: j == len || len <= |v[i]|
    ensures r.Some? ==> |r.value| == len - j
    ensures r.Some? ==> forall k | 0 <= k < len - j :: Column(v, j + k) == Some(r.value[k])
    decreases len - j
  {
    if j == len then Some([])
    else
      match (Column(v, j), Columns(v, j + 1, len))
      case (Some(c), Some(cs)) => Some([c] + cs)
      case _ =>
        assert Column(v, len - 1).Some? ==> forall i | 0 <= i < |v| :: len <= |v[i]|;
        None
  }

  /** `transpose`: None for no rows (the `assert!`) or when a row is
      shorter than the first; longer rows are cut to the first's length. */
  function Transpose<T>(v: seq<seq<T>>): (r: Option<seq<seq<T>>>)
    ensures r.Some? <==> |v| > 0 && forall i | 0 <= i < |v| :: |v[0]| <= |v[i]|
    ensures r.Some? ==> |r.value| == |v[0]|
    ensures r.Some? ==> forall j | 0 <= j < |r.value| ::
      |r.value[j]| == |v| && forall i | 0 <= i < |v| :: r.value[j][i] == v[i][j]
  {
    if v == [] then None
    else
      var r := Columns(v, 0, |v[0]|);
      assert r.Some? ==> forall j | 0 <= j < |v[0]| :: Column(v, j) == Some(r.value[j]);
      r
  }

  predicate Rectangular<T>(v: seq<seq<T>>)
  {
    forall i | 0 <= i < |v| :: |v[i]| == |v[0]|
  }

  /** Transposing a rectangular grid with at least one column twice gives
      the grid back. */
  lemma TransposeTwice<T>(v: seq<seq<T>>)
    requires |v| > 0 && |v[0]| > 0 && Rectangular(v)
    ensures Transpose(v).Some? && Rectangular(Transpose(v).value)
    ensures Transpose(Transpose(v).value) == Some(v)
  {
    var t := Transpose(v).value;
    assert |t| > 0 && Rectangular(t);
    var tt := Transpose(t).value;
    assert |tt| == |v|;
    forall i | 0 <= i < |v|
      ensures tt[i] == v[i]
    {
      assert |tt[i]| == |v[i]|;
      forall j | 0 <= j < |v[i]|
        ensures tt[i][j] == v[i][j]
      {
        assert tt[i][j] == t[j][i];
      }
    }
    assert tt == v;
  }

  /** With no columns, the first transpose gives no rows and the second
      panics. */
  lemma TransposeNoColumns<T>(v: seq<seq<T>>)
    requires |v| > 0 && |v[0]| == 0
    ensures Transpose(v) == Some([])
    ensures Transpose(Transpose(v).value).None?
  {
  }

  // ---------------------------------------------------------------------
  // Expansion

  predicate NoGalaxy(row: seq<bool>)
  {
    forall k | 0 <= k < |row| :: !row[k]
  }

  /** `expand_empty_lines`: every row without a galaxy doubled, every
      other row kept, in order. */
  function ExpandEmptyLines(grid: seq<seq<bool>>): (r: seq<seq<bool>>)
    ensures forall k | 0 <= k < |r| :: r[k] in grid
  {
    if grid == [] then []
    else if NoGalaxy(grid[0]) then [grid[0], grid[0]] + ExpandEmptyLines(grid[1..])
    else [grid[0]] + ExpandEmptyLines(grid[1..])
  }

  /** The rows that hold a galaxy. */
  function Occupied(grid: seq<seq<bool>>): (r: seq<seq<bool>>)
    ensures forall k | 0 <= k < |r| :: !NoGalaxy(r[k])
  {
    if grid == [] then []
    else if NoGalaxy(grid[0]) then Occupied(grid[1..])
    else [grid[0]] + Occupied(grid[1..])
  }

  function EmptyRows(grid: seq<seq<bool>>): nat
  {
    if grid == [] then 0
    else (if NoGalaxy(grid[0]) then 1 else 0) + EmptyRows(grid[1..])
  }

  /** Expansion keeps the rows with galaxies unchanged and in order. */
  lemma {:induction false} ExpandKeepsOccupied(grid: seq<seq<bool>>)
    ensures Occupied(ExpandEmptyLines(grid)) == Occupied(grid)
  {
    if grid != [] {
      var rest := ExpandEmptyLines(grid[1..]);
      ExpandKeepsOccupied(grid[1..]);
      if NoGalaxy(grid[0]) {
        var r := [grid[0], grid[0]] + rest;
        assert r[1..] == [grid[0]] + rest && r[1..][1..] == rest;
      } else {
        assert ([grid[0]] + rest)[1..] == rest;
      }
    }
  }

  /** Expansion doubles the empty rows, and so adds one row per empty row. */
  lemma {:induction false} ExpandDoublesEmpty(grid: seq<seq<bool>>)
    ensures EmptyRows(ExpandEmptyLines(grid)) == 2 * EmptyRows(grid)
    ensures |ExpandEmptyLines(grid)| == |grid| + EmptyRows(grid)
  {
    if grid != [] {
      var rest := ExpandEmptyLines(grid[1..]);
      ExpandDoublesEmpty(grid[1..]);
      if NoGalaxy(grid[0]) {
        var r := [grid[0], grid[0]] + rest;
        assert r[1..] == [grid[0]] + rest && r[1..][1..] == rest;
      } else {
        assert ([grid[0]] + rest)[1..] == rest;
      }
    }
  }

  /** Expansion distributes over stacking grids. */
  lemma {:induction false} ExpandAppend(top: seq<seq<bool>>, bottom: seq<seq<bool>>)
    ensures ExpandEmptyLines(top + bottom) == ExpandEmptyLines(top) + ExpandEmptyLines(bottom)
  {
    if top == [] {
      assert top + bottom == bottom;
    } else {
      assert (top + bottom)[0] == top[0] && (top + bottom)[1..] == top[1..] + bottom;
      ExpandAppend(top[1..], bottom);
    }
  }

  /** Expansion keeps every row's width, so a rectangular grid stays one. */
  lemma ExpandRectangular(grid: seq<seq<bool>>)
    requires |grid| > 0 && Rectangular(grid)
    ensures |ExpandEmptyLines(grid)| > 0 && Rectangular(ExpandEmptyLines(grid))
    ensures |ExpandEmptyLines(grid)[0]| == |grid[0]|
  {
  }

  function RowCount(row: seq<bool>): nat
  {
    if row == [] then 0 else (if row[0] then 1 else 0) + RowCount(row[1..])
  }

  lemma {:induction false} RowCountEmpty(row: seq<bool>)
    ensures RowCount(row) == 0 <==> NoGalaxy(row)
  {
    if row != [] {
      RowCountEmpty(row[1..]);
      if !row[0] {
        assert NoGalaxy(row[1..]) ==> NoGalaxy(row) by {
          if NoGalaxy(row[1..]) {
            forall k | 0 <= k < |row| ensures !row[k] {
              if k > 0 { assert row[k] == row[1..][k - 1]; }
            }
          }
        }
      }
    }
  }

  /** The number of galaxies in a grid. */
  function GalaxyCount(grid: seq<seq<bool>>): nat
  {
    if grid == [] then 0 else RowCount(grid[0]) + GalaxyCount(grid[1..])
  }

  /** Expansion adds no galaxy and loses none. */
  lemma {:induction false} ExpandKeepsCount(grid: seq<seq<bool>>)
    ensures GalaxyCount(ExpandEmptyLines(grid)) == GalaxyCount(grid)
  {
    if grid != [] {
      ExpandKeepsCount(grid[1..]);
      var rest := ExpandEmptyLines(grid[1..]);
      if NoGalaxy(grid[0]) {
        RowCountEmpty(grid[0]);
        var r := [grid[0], grid[0]] + rest;
        assert r[1..] == [grid[0]] + rest && r[1..][1..] == rest;
      } else {
        assert ([grid[0]] + rest)[1..] == rest;
      }
    }
  }

  // ---------------------------------------------------------------------
  // Finding galaxies

  /** Row-major order. */
  predicate Before(a: Galaxy, b: Galaxy)
  {
    a.row < b.row || (a.row == b.row && a.col < b.col)
  }

  predicate IsGalaxyOf(grid: seq<seq<bool>>, g: Galaxy)
  {
    0 <= g.row < |grid| && 0 <= g.col < |grid[g.row]| && grid[g.row][g.col]
  }

  /** The galaxies among the first `n` cells of row `r`, left to right. */
  function RowGalaxies(row: seq<bool>, r: nat, n: nat): (gs: seq<Galaxy>)
    requires n <= |row|
    ensures forall g :: g in gs <==> g.row == r && 0 <= g.col < n && row[g.col]
    ensures forall i, j | 0 <= i < j < |gs| :: Before(gs[i], gs[j])
    ensures forall i | 0 <= i < |gs| :: gs[i].row == r
  {
    if n == 0 then []
    else if row[n - 1] then RowGalaxies(row, r, n - 1) + [Galaxy(r, n - 1)]
    else RowGalaxies(row, r, n - 1)
  }

  /** The galaxies of the first `n` rows, in row-major order. */
  function GridGalaxies(grid: seq<seq<bool>>, n: nat): (gs: seq<Galaxy>)
    requires n <= |grid|
    ensures forall g :: g in gs <==> g.row < n && IsGalaxyOf(grid, g)
    ensures forall i, j | 0 <= i < j < |gs| :: Before(gs[i], gs[j])
    ensures forall i | 0 <= i < |gs| :: gs[i].row < n
  {
    if n == 0 then []
    else
      var above := GridGalaxies(grid, n - 1);
      var row := RowGalaxies(grid[n - 1], n - 1, |grid[n - 1]|);
      assert forall i, j | 0 <= i < |above| && 0 <= j < |row| :: Before(above[i], row[j]);
      above + row
  }

  /** The image as a grid of "is a galaxy" flags. */
  function ImageGrid(lines: seq<string>): (grid: seq<seq<bool>>)
    ensures |grid| == |lines|
    ensures forall i | 0 <= i < |lines| :: |grid[i]| == |lines[i]|
    ensures forall i, j | 0 <= i < |lines| && 0 <= j < |lines[i]| :: grid[i][j] <==> lines[i][j] == '#'
  {
    seq(|lines|, i requires 0 <= i < |lines| =>
      seq(|lines[i]|, j requires 0 <= j < |lines[i]| => lines[i][j] == '#'))
  }

  /** The image expanded in both directions: rows, then (through the
      transposes) columns. None where a transpose panics. */
  function ExpandedImage(input: string): (r: Option<seq<seq<bool>>>)
    ensures r.Some? ==> |r.value| > 0 && |r.value[0]| > 0 && Rectangular(r.value)
  {
    match Transpose(ExpandEmptyLines(ImageGrid(Lines(input))))
    case None => None
    case Some(t) => Transpose(ExpandEmptyLines(t))
  }

  /** `find_galaxies`: the positions of every galaxy of the expanded image,
      in row-major order. */
  function FindGalaxies(input: string): (r: Option<seq<Galaxy>>)
    ensures r.Some? <==> ExpandedImage(input).Some?
    ensures r.Some? ==> forall g :: g in r.value <==> IsGalaxyOf(ExpandedImage(input).value, g)
    ensures r.Some? ==> forall i, j | 0 <= i < j < |r.value| :: Before(r.value[i], r.value[j])
  {
    match ExpandedImage(input)
    case None => None
    case Some(grid) => Some(GridGalaxies(grid, |grid|))
  }

  /** A rectangular image with at least one row and one column expands
      without a panic. */
  lemma ExpandedImageDefined(input: string)
    requires var grid := ImageGrid(Lines(input)); |grid| > 0 && |grid[0]| > 0 && Rectangular(grid)
    ensures ExpandedImage(input).Some?
  {
    var grid := ImageGrid(Lines(input));
    ExpandRectangular(grid);
    var t := Transpose(ExpandEmptyLines(grid)).value;
    assert Rectangular(t);
    ExpandRectangular(t);
  }

  // ---------------------------------------------------------------------
  // The number of galaxies survives every step

  lemma {:induction false} RowCountAppend(a: seq<bool>, b: seq<bool>)
    ensures RowCount(a + b) == RowCount(a) + RowCount(b)
  {
    if a == [] {
      assert a + b == b;
    } else {
      assert (a + b)[0] == a[0] && (a + b)[1..] == a[1..] + b;
      RowCountAppend(a[1..], b);
    }
  }

  lemma {:induction false} GalaxyCountAppend(a: seq<seq<bool>>, b: seq<seq<bool>>)
    ensures GalaxyCount(a + b) == GalaxyCount(a) + GalaxyCount(b)
  {
    if a == [] {
      assert a + b == b;
    } else {
      assert (a + b)[0] == a[0] && (a + b)[1..] == a[1..] + b;
      GalaxyCountAppend(a[1..], b);
    }
  }

  /** Column `j` of the first rows of `v` (rows at least `w` wide), for
      every `j < w`: the transpose without its panics. */
  function Cols(v: seq<seq<bool>>, w: nat): (c: seq<seq<bool>>)
    requires forall i | 0 <= i < |v| :: w <= |v[i]|
    ensures |c| == w && forall j | 0 <= j < w :: |c[j]| == |v|
  {
    seq(w, j requires 0 <= j < w => seq(|v|, i requires 0 <= i < |v| => v[i][j]))
  }

  /** Adding one element to the end of every row adds that column's count. */
  lemma {:induction false} WidenCount(g: seq<seq<bool>>, col: seq<bool>, h: seq<seq<bool>>)
    requires |g| == |col| == |h|
    requires forall j | 0 <= j < |g| :: h[j] == g[j] + [col[j]]
    ensures GalaxyCount(h) == GalaxyCount(g) + RowCount(col)
  {
    if g != [] {
      WidenCount(g[1..], col[1..], h[1..]);
      RowCountAppend(g[0], [col[0]]);
    }
  }

  /** Reading a grid by columns counts the same galaxies as reading it by
      rows. */
  lemma {:induction false} ColsCount(v: seq<seq<bool>>, w: nat)
    requires forall i | 0 <= i < |v| :: |v[i]| == w
    ensures GalaxyCount(Cols(v, w)) == GalaxyCount(v)
    decreases |v|
  {
    if v == [] {
      EmptyColsCount(w);
    } else {
      var init, last := v[..|v| - 1], v[|v| - 1];
      ColsCount(init, w);
      assert last == seq(w, j requires 0 <= j < w => v[|v| - 1][j]);
      WidenCount(Cols(init, w), last, Cols(v, w));
      GalaxyCountAppend(init, [last]);
      assert init + [last] == v;
    }
  }

  lemma {:induction false} EmptyColsCount(w: nat)
    ensures GalaxyCount(Cols([], w)) == 0
  {
    var c := Cols([], w);
    if w > 0 {
      EmptyColsCount(w - 1);
      assert c[1..] == Cols([], w - 1);
    }
  }

  /** Transposing a rectangular grid keeps its galaxy count. */
  lemma TransposeCount(v: seq<seq<bool>>)
    requires |v| > 0 && Rectangular(v)
    ensures Transpose(v).Some? && GalaxyCount(Transpose(v).value) == GalaxyCount(v)
  {
    var t, c := Transpose(v).value, Cols(v, |v[0]|);
    forall j | 0 <= j < |c|
      ensures t[j] == c[j]
    {
      assert forall i | 0 <= i < |v| :: t[j][i] == c[j][i];
    }
    assert t == c;
    ColsCount(v, |v[0]|);
  }

  lemma {:induction false} RowGalaxiesCount(row: seq<bool>, r: nat, n: nat)
    requires n <= |row|
    ensures |RowGalaxies(row, r, n)| == RowCount(row[..n])
  {
    if n > 0 {
      RowGalaxiesCount(row, r, n - 1);
      assert row[..n] == row[..n - 1] + [row[n - 1]];
      RowCountAppend(row[..n - 1], [row[n - 1]]);
    }
  }

  lemma {:induction false} GridGalaxiesCount(grid: seq<seq<bool>>, n: nat)
    requires n <= |grid|
    ensures |GridGalaxies(grid, n)| == GalaxyCount(grid[..n])
  {
    if n > 0 {
      GridGalaxiesCount(grid, n - 1);
      RowGalaxiesCount(grid[n - 1], n - 1, |grid[n - 1]|);
      assert grid[n - 1][..|grid[n - 1]|] == grid[n - 1];
      assert grid[..n] == grid[..n - 1] + [grid[n - 1]];
      GalaxyCountAppend(grid[..n - 1], [grid[n - 1]]);
    }
  }

  /** For a rectangular image with at least one row and one column,
      `find_galaxies` finds exactly as many galaxies as the image holds. */
  lemma FindGalaxiesCount(input: string)
    requires var grid := ImageGrid(Lines(input)); |grid| > 0 && |grid[0]| > 0 && Rectangular(grid)
    ensures FindGalaxies(input).Some?
    ensures |FindGalaxies(input).value| == GalaxyCount(ImageGrid(Lines(input)))
  {
    var grid := ImageGrid(Lines(input));
    ExpandedImageDefined(input);
    var e1 := ExpandEmptyLines(grid);
    ExpandRectangular(grid);
    ExpandKeepsCount(grid);
    TransposeCount(e1);
    var t := Transpose(e1).value;
    assert |t| > 0 && Rectangular(t);
    ExpandRectangular(t);
    ExpandKeepsCount(t);
    TransposeCount(ExpandEmptyLines(t));
    var image := ExpandedImage(input).value;
    GridGalaxiesCount(image, |image|);
    assert image[..|image|] == image;
  }

  // ---------------------------------------------------------------------
  // Summing the distances

  /** The distances from `a` to each galaxy of `gs`, summed. */
  function DistSum(a: Galaxy, gs: seq<Galaxy>): (r: nat)
    ensures forall k | 0 <= k < |gs| :: Dist(a, gs[k]) <= r
  {
    if gs == [] then 0 else Dist(a, gs[0]) + DistSum(a, gs[1..])
  }

  /** `sum_paths`: the distance of every unordered pair (i < j), summed. */
  function SumPaths(gs: seq<Galaxy>): (r: nat)
    ensures |gs| <= 1 ==> r == 0
    ensures forall i, j | 0 <= i < j < |gs| :: Dist(gs[i], gs[j]) <= r
  {
    if gs == [] then 0
    else
      var rest := gs[1..];
      assert forall j | 0 < j < |gs| :: gs[j] == rest[j - 1];
      DistSum(gs[0], rest) + SumPaths(rest)
  }

  /** The distances over all ordered pairs, the galaxy with itself included. */
  function AllPairs(gs: seq<Galaxy>, of: seq<Galaxy>): nat
  {
    if of == [] then 0 else DistSum(of[0], gs) + AllPairs(gs, of[1..])
  }

  /** Distances to a galaxy put in front of `rest`, summed over `of`. */
  lemma {:induction false} AllPairsCons(g: Galaxy, rest: seq<Galaxy>, of: seq<Galaxy>)
    ensures AllPairs([g] + rest, of) == DistSum(g, of) + AllPairs(rest, of)
  {
    if of != [] {
      AllPairsCons(g, rest, of[1..]);
      assert ([g] + rest)[1..] == rest;
      DistMetric(of[0], g);
    }
  }

  /** Every unordered pair counted once is half of every ordered pair, since
      the distance is symmetric and zero from a galaxy to itself. */
  lemma {:induction false} SumPathsHalf(gs: seq<Galaxy>)
    ensures 2 * SumPaths(gs) == AllPairs(gs, gs)
  {
    if gs != [] {
      var g, rest := gs[0], gs[1..];
      assert gs == [g] + rest;
      SumPathsHalf(rest);
      AllPairsCons(g, rest, rest);
      assert DistSum(g, gs) == Dist(g, g) + DistSum(g, rest);
      DistMetric(g, g);
    }
  }
}
