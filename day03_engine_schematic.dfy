/** Day 3, gear ratios: an engine schematic is a grid of characters. A part
    number is a maximal run of digits in one row, with a value above zero,
    of which some digit has a symbol (neither a digit nor '.') among its
    eight neighbours. The first result adds up the part numbers; the second
    adds up, over every '*' touched by exactly two part numbers, the product
    of those two numbers. Positions are (row, column). */
module EngineSchematic {
  import opened Text
  import opened Folds

  type Grid = seq<seq<char>>

  type Pos = (nat, nat)

  /** `parse_input`: one row of characters per line of the input. */
  function ParseInput(input: string): (g: Grid)
    ensures forall r | 0 <= r < |g| :: '\n' !in g[r]
  {
    Lines(input)
  }

  /** Rows joined by line breaks, blank rows included, read back as the same
      rows when the last one is not blank. */
  lemma ParseInputOfRows(rows: Grid)
    requires |rows| >= 1 && |rows[|rows| - 1]| > 0
    requires forall r | 0 <= r < |rows| :: '\n' !in rows[r] && (|rows[r]| > 0 ==> rows[r][|rows[r]| - 1] != '\r')
    ensures ParseInput(Join(rows, '\n')) == rows
  {
    LinesOfJoined(rows);
  }

  // ---------------------------------------------------------------------
  // Neighbourhoods

  predicate InGrid(g: Grid, r: nat, c: nat)
  {
    r < |g| && c < |g[r]|
  }

  predicate IsSymbol(ch: char)
  {
    !IsDigit(ch) && ch != '.'
  }

  /** `checked_sub(1).unwrap_or(0)`. */
  function Below(x: nat): nat
  {
    if x == 0 then 0 else x - 1
  }

  /** The cells of the grid in rows [r0, r1) and columns [c0, c1); cells
      that a shorter row does not have are left out. */
  function Window(g: Grid, r0: nat, r1: nat, c0: nat, c1: nat): set<Pos>
  {
    set r: nat, c: nat | r0 <= r < r1 && c0 <= c < c1 && InGrid(g, r, c) :: (r, c)
  }

  /** The cells the scan looks at around (r, c): itself and its eight
      neighbours, as far as they are inside the grid. */
  function Neighbourhood(g: Grid, r: nat, c: nat): set<Pos>
  {
    Window(g, Below(r), r + 2, Below(c), c + 2)
  }

  predicate SymbolIn(g: Grid, w: set<Pos>)
  {
    exists q | q in w :: InGrid(g, q.0, q.1) && IsSymbol(g[q.0][q.1])
  }

  function GearsIn(g: Grid, w: set<Pos>): set<Pos>
  {
    set q | q in w && InGrid(g, q.0, q.1) && g[q.0][q.1] == '*'
  }

  predicate TouchesSymbol(g: Grid, r: nat, c: nat)
  {
    SymbolIn(g, Neighbourhood(g, r, c))
  }

  function GearsNear(g: Grid, r: nat, c: nat): set<Pos>
  {
    GearsIn(g, Neighbourhood(g, r, c))
  }

  /** The neighbourhood is exactly the in-grid cells at most one row and
      one column away, so the scan never reads outside the grid. */
  lemma NeighbourhoodIsAdjacent(g: Grid, r: nat, c: nat, q: Pos)
    ensures q in Neighbourhood(g, r, c) <==>
      InGrid(g, q.0, q.1) && q.0 <= r + 1 && r <= q.0 + 1 && q.1 <= c + 1 && c <= q.1 + 1
  {
  }

  lemma WindowRows(g: Grid, r0: nat, r: nat, c0: nat, c1: nat)
    requires r0 <= r
    ensures Window(g, r0, r + 1, c0, c1) == Window(g, r0, r, c0, c1) + Window(g, r, r + 1, c0, c1)
  {
  }

  lemma WindowCols(g: Grid, r: nat, c0: nat, c: nat)
    requires c0 <= c
    ensures Window(g, r, r + 1, c0, c + 1) == Window(g, r, r + 1, c0, c) + Window(g, r, r + 1, c, c + 1)
  {
  }

  lemma WindowCell(g: Grid, r: nat, c: nat)
    ensures Window(g, r, r + 1, c, c + 1) == if InGrid(g, r, c) then {(r, c)} else {}
  {
    if InGrid(g, r, c) {
      assert (r, c) in Window(g, r, r + 1, c, c + 1);
    }
  }

  lemma InUnion(g: Grid, a: set<Pos>, b: set<Pos>)
    ensures SymbolIn(g, a + b) == (SymbolIn(g, a) || SymbolIn(g, b))
    ensures GearsIn(g, a + b) == GearsIn(g, a) + GearsIn(g, b)
  {
  }

  lemma InCell(g: Grid, r: nat, c: nat)
    requires InGrid(g, r, c)
    ensures SymbolIn(g, {(r, c)}) == IsSymbol(g[r][c])
    ensures GearsIn(g, {(r, c)}) == if g[r][c] == '*' then {(r, c)} else {}
  {
    assert (r, c) in {(r, c)};
  }

  /** One more column of a row window adds that cell, if it is in the grid. */
  lemma ScanCell(g: Grid, rr: nat, c0: nat, cc: nat)
    requires c0 <= cc
    ensures SymbolIn(g, Window(g, rr, rr + 1, c0, cc + 1)) ==
      (SymbolIn(g, Window(g, rr, rr + 1, c0, cc)) || (InGrid(g, rr, cc) && IsSymbol(g[rr][cc])))
    ensures GearsIn(g, Window(g, rr, rr + 1, c0, cc + 1)) ==
      GearsIn(g, Window(g, rr, rr + 1, c0, cc)) + if InGrid(g, rr, cc) && g[rr][cc] == '*' then {(rr, cc)} else {}
  {
    WindowCols(g, rr, c0, cc);
    InUnion(g, Window(g, rr, rr + 1, c0, cc), Window(g, rr, rr + 1, cc, cc + 1));
    WindowCell(g, rr, cc);
    if InGrid(g, rr, cc) {
      InCell(g, rr, cc);
    }
  }

  /** The inner loop around a digit: columns [c0, c1) of row `rr`, skipping
      cells outside the grid. */
  method ScanRow(g: Grid, rr: nat, c0: nat, c1: nat) returns (touches: bool, gears: set<Pos>)
    requires c0 <= c1
    ensures touches == SymbolIn(g, Window(g, rr, rr + 1, c0, c1))
    ensures gears == GearsIn(g, Window(g, rr, rr + 1, c0, c1))
  {
    touches, gears := false, {};
    var cc := c0;
    while cc < c1
      invariant c0 <= cc <= c1
      invariant touches == SymbolIn(g, Window(g, rr, rr + 1, c0, cc))
      invariant gears == GearsIn(g, Window(g, rr, rr + 1, c0, cc))
    {
      ScanCell(g, rr, c0, cc);
      if rr >= |g| || cc >= |g[rr]| {
        cc := cc + 1;
        continue;
      }
      if !IsDigit(g[rr][cc]) && g[rr][cc] != '.' {
        touches := true;
      }
      if g[rr][cc] == '*' {
        var gear: Pos := (rr, cc);
        gears := gears + {gear};
      }
      cc := cc + 1;
    }
  }

  /** The two nested loops around a digit: whether a symbol is among the
      neighbours, and which neighbours are gears ('*'). */
  method ScanNeighbours(g: Grid, r: nat, c: nat) returns (touches: bool, gears: set<Pos>)
    ensures touches == TouchesSymbol(g, r, c)
    ensures gears == GearsNear(g, r, c)
  {
    touches, gears := false, {};
    var r0, c0 := Below(r), Below(c);
    var rr := r0;
    while rr <= r + 1
      invariant r0 <= rr <= r + 2
      invariant touches == SymbolIn(g, Window(g, r0, rr, c0, c + 2))
      invariant gears == GearsIn(g, Window(g, r0, rr, c0, c + 2))
    {
      var t, gs := ScanRow(g, rr, c0, c + 2);
      WindowRows(g, r0, rr, c0, c + 2);
      InUnion(g, Window(g, r0, rr, c0, c + 2), Window(g, rr, rr + 1, c0, c + 2));
      touches := touches || t;
      gears := gears + gs;
      rr := rr + 1;
    }
  }

  // ---------------------------------------------------------------------
  // Runs of digits and part numbers

  /** A maximal run of digits of row `s` ends just before column `e`. */
  predicate RunEndsAt(s: string, e: nat)
  {
    0 < e <= |s| && IsDigit(s[e - 1]) && (e == |s| || !IsDigit(s[e]))
  }

  /** The first column of the run of digits that reaches column e - 1. */
  function RunStart(s: string, e: nat): (st: nat)
    requires 0 < e <= |s| && IsDigit(s[e - 1])
    ensures st < e && (st == 0 || !IsDigit(s[st - 1]))
    ensures forall k | st <= k < e :: IsDigit(s[k])
    decreases e
  {
    if e > 1 && IsDigit(s[e - 2]) then RunStart(s, e - 1) else e - 1
  }

  predicate RunTouches(g: Grid, r: nat, st: nat, e: nat)
  {
    exists k | st <= k < e :: TouchesSymbol(g, r, k)
  }

  /** The gears next to any digit of the run. */
  function RunGears(g: Grid, r: nat, st: nat, e: nat): set<Pos>
    decreases e
  {
    if e <= st then {} else RunGears(g, r, st, e - 1) + GearsNear(g, r, e - 1)
  }

  /** A part number as found: its row, its columns [start, stop), its value
      and the gears it touches. */
  datatype Part = Part(row: nat, start: nat, stop: nat, value: nat, gears: set<Pos>)

  /** The run of row r ending before column e is a part number. */
  predicate IsPart(g: Grid, r: nat, e: nat)
  {
    r < |g| && RunEndsAt(g[r], e) &&
    var st := RunStart(g[r], e);
    DecimalValue(g[r][st..e]) > 0 && RunTouches(g, r, st, e)
  }

  function PartAt(g: Grid, r: nat, e: nat): (p: Part)
    requires r < |g| && RunEndsAt(g[r], e)
  {
    var st := RunStart(g[r], e);
    Part(r, st, e, DecimalValue(g[r][st..e]), RunGears(g, r, st, e))
  }

  /** The part numbers of row r whose runs end before column n, left to right. */
  function RowPartsBefore(g: Grid, r: nat, n: nat): (ps: seq<Part>)
    requires r < |g|
    ensures forall i | 0 <= i < |ps| :: ps[i].row == r && ps[i].stop < n && IsPart(g, r, ps[i].stop) && ps[i] == PartAt(g, r, ps[i].stop)
    decreases n
  {
    if n == 0 then []
    else RowPartsBefore(g, r, n - 1) + if IsPart(g, r, n - 1) then [PartAt(g, r, n - 1)] else []
  }

  function RowParts(g: Grid, r: nat): seq<Part>
    requires r < |g|
  {
    RowPartsBefore(g, r, |g[r]| + 1)
  }

  /** The part numbers of rows [0, r), row by row. */
  function PartsBefore(g: Grid, r: nat): (ps: seq<Part>)
    requires r <= |g|
    ensures forall i | 0 <= i < |ps| :: ps[i].row < r && IsPart(g, ps[i].row, ps[i].stop) && ps[i] == PartAt(g, ps[i].row, ps[i].stop)
  {
    if r == 0 then [] else PartsBefore(g, r - 1) + RowParts(g, r - 1)
  }

  /** Every part number of the schematic, in reading order. */
  function Parts(g: Grid): seq<Part>
  {
    PartsBefore(g, |g|)
  }

  function ValueSum(ps: seq<Part>): nat
  {
    if ps == [] then 0 else ValueSum(ps[..|ps| - 1]) + ps[|ps| - 1].value
  }

  // ---------------------------------------------------------------------
  // Gears

  type GearMap = map<Pos, seq<nat>>

  /** `value` appended to the list of each gear in `gears`, a missing list
      starting out empty. */
  function AddValue(m: GearMap, value: nat, gears: set<Pos>): GearMap
  {
    map q | q in m.Keys + gears :: (if q in m then m[q] else []) + (if q in gears then [value] else [])
  }

  /** The gear table built from the part numbers in order. */
  function GearMapOf(ps: seq<Part>): GearMap
  {
    if ps == [] then map[]
    else
      var last := ps[|ps| - 1];
      AddValue(GearMapOf(ps[..|ps| - 1]), last.value, last.gears)
  }

  /** The ratio a gear contributes: the product of its two part numbers when
      it has exactly two, nothing otherwise. */
  function Ratio(values: seq<nat>): nat
  {
    if |values| == 2 then values[0] * values[1] else 0
  }

  function RatioMap(m: GearMap): map<Pos, int>
  {
    map q | q in m :: Ratio(m[q])
  }

  ghost function GearRatios(g: Grid): int
  {
    SumValues(RatioMap(GearMapOf(Parts(g))))
  }

  /** The loop that pushes a part number onto the list of every gear it
      touches; the order of the gears does not matter. */
  method RecordPart(m: GearMap, value: nat, gears: set<Pos>) returns (m': GearMap)
    ensures m' == AddValue(m, value, gears)
  {
    m' := m;
    var todo := gears;
    ghost var done: set<Pos> := {};
    AddNothing(m, value);
    while todo != {}
      invariant done + todo == gears && done !! todo
      invariant m' == AddValue(m, value, done)
      decreases |todo|
    {
      var q :| q in todo;
      AddOne(m, value, done, q);
      var list := if q in m' then m'[q] else [];
      m' := m'[q := list + [value]];
      MoveOne(done, todo, q);
      done, todo := done + {q}, todo - {q};
    }
  }

  lemma MoveOne<T>(done: set<T>, todo: set<T>, q: T)
    requires q in todo && done !! todo
    ensures (done + {q}) + (todo - {q}) == done + todo
    ensures (done + {q}) !! (todo - {q})
  {
  }

  lemma AddNothing(m: GearMap, value: nat)
    ensures AddValue(m, value, {}) == m
  {
    var a := AddValue(m, value, {});
    assert a.Keys == m.Keys;
    forall q | q in m
      ensures a[q] == m[q]
    {
      assert m[q] + [] == m[q];
    }
  }

  lemma AddOne(m: GearMap, value: nat, gears: set<Pos>, q: Pos)
    requires q !in gears
    ensures var before := AddValue(m, value, gears);
      AddValue(m, value, gears + {q}) == before[q := (if q in before then before[q] else []) + [value]]
  {
    var before := AddValue(m, value, gears);
    var after := AddValue(m, value, gears + {q});
    var expected := before[q := (if q in before then before[q] else []) + [value]];
    assert after.Keys == expected.Keys;
    forall k | k in after
      ensures after[k] == expected[k]
    {
      if k != q {
        assert after[k] == before[k];
      } else if q in m {
        assert after[k] == m[q] + [value];
      }
    }
  }

  // ---------------------------------------------------------------------
  // The scan

  /** What the scan knows at column c of row r: the value, the symbol flag
      and the gears of the run of digits just before c, or nothing when
      c - 1 is not a digit. */
  predicate Scanning(g: Grid, r: nat, c: nat, current: nat, touches: bool, gears: set<Pos>)
    requires r < |g| && c <= |g[r]|
  {
    if c > 0 && IsDigit(g[r][c - 1]) then
      var st := RunStart(g[r], c);
      current == DecimalValue(g[r][st..c]) && touches == RunTouches(g, r, st, c) && gears == RunGears(g, r, st, c)
    else
      current == 0 && !touches && gears == {}
  }

  /** A digit at column c extends the run (or starts one). */
  lemma ScanDigit(g: Grid, r: nat, c: nat, current: nat, touches: bool, gears: set<Pos>)
    requires r < |g| && c < |g[r]| && IsDigit(g[r][c])
    requires Scanning(g, r, c, current, touches, gears)
    ensures Scanning(g, r, c + 1, current * 10 + DigitValue(g[r][c]),
      touches || TouchesSymbol(g, r, c), gears + GearsNear(g, r, c))
    ensures RowPartsBefore(g, r, c + 1) == RowPartsBefore(g, r, c)
  {
    var s := g[r];
    var st := RunStart(s, c + 1);
    assert s[st..c + 1][..c - st] == s[st..c];
    if c > 0 && IsDigit(s[c - 1]) {
      assert st == RunStart(s, c);
    } else {
      assert st == c;
    }
  }

  /** At a non-digit or at the end of the row, the run before c (if any)
      is complete: it is a part number exactly when the scan's value is
      positive and it touched a symbol. */
  lemma ScanStop(g: Grid, r: nat, c: nat, current: nat, touches: bool, gears: set<Pos>)
    requires r < |g| && c <= |g[r]| && (c == |g[r]| || !IsDigit(g[r][c]))
    requires Scanning(g, r, c, current, touches, gears)
    ensures IsPart(g, r, c) == (current > 0 && touches)
    ensures IsPart(g, r, c) ==> PartAt(g, r, c).value == current && PartAt(g, r, c).gears == gears
    ensures !(current > 0 && touches) ==> RowPartsBefore(g, r, c + 1) == RowPartsBefore(g, r, c)
    ensures current > 0 && touches ==> RowPartsBefore(g, r, c + 1) == RowPartsBefore(g, r, c) + [PartAt(g, r, c)]
  {
  }

  /** A part found after `done` and the row's earlier parts adds its value
      to the sum and to the lists of its gears. */
  lemma AppendPart(done: seq<Part>, ps: seq<Part>, p: Part)
    ensures ValueSum(done + (ps + [p])) == ValueSum(done + ps) + p.value
    ensures GearMapOf(done + (ps + [p])) == AddValue(GearMapOf(done + ps), p.value, p.gears)
  {
    var all := done + (ps + [p]);
    assert all[..|all| - 1] == done + ps;
  }

  /** One pass of the outer loop of `sum_parts`: the columns of row r left
      to right, adding each part number of the row to the running sum and
      to the gear table. */
  method ScanRowParts(g: Grid, r: nat, done: seq<Part>, sum0: nat, m0: GearMap) returns (sum: nat, m: GearMap)
    requires r < |g| && sum0 == ValueSum(done) && m0 == GearMapOf(done)
    ensures sum == ValueSum(done + RowParts(g, r))
    ensures m == GearMapOf(done + RowParts(g, r))
  {
    sum, m := sum0, m0;
    var current: nat, touches: bool, gears: set<Pos> := 0, false, {};
    assert done + RowPartsBefore(g, r, 0) == done;
    var c := 0;
    while c < |g[r]|
      invariant c <= |g[r]|
      invariant Scanning(g, r, c, current, touches, gears)
      invariant sum == ValueSum(done + RowPartsBefore(g, r, c))
      invariant m == GearMapOf(done + RowPartsBefore(g, r, c))
    {
      if IsDigit(g[r][c]) {
        ScanDigit(g, r, c, current, touches, gears);
        var t, gs := ScanNeighbours(g, r, c);
        current := current * 10 + DigitValue(g[r][c]);
        touches := touches || t;
        gears := gears + gs;
      } else {
        sum, m := ClosePart(g, r, c, done, current, touches, gears, sum, m);
        current, touches, gears := 0, false, {};
      }
      c := c + 1;
    }
    sum, m := ClosePart(g, r, c, done, current, touches, gears, sum, m);
  }

  /** The block run at a non-digit and at the end of a row: a run with a
      positive value that touched a symbol is added to the sum and pushed
      onto the lists of the gears it touched. */
  method ClosePart(g: Grid, r: nat, c: nat, done: seq<Part>, current: nat, touches: bool, gears: set<Pos>,
                   sum0: nat, m0: GearMap) returns (sum: nat, m: GearMap)
    requires r < |g| && c <= |g[r]| && (c == |g[r]| || !IsDigit(g[r][c]))
    requires Scanning(g, r, c, current, touches, gears)
    requires sum0 == ValueSum(done + RowPartsBefore(g, r, c)) && m0 == GearMapOf(done + RowPartsBefore(g, r, c))
    ensures sum == ValueSum(done + RowPartsBefore(g, r, c + 1))
    ensures m == GearMapOf(done + RowPartsBefore(g, r, c + 1))
  {
    sum, m := sum0, m0;
    ScanStop(g, r, c, current, touches, gears);
    if current > 0 && touches {
      AppendPart(done, RowPartsBefore(g, r, c), PartAt(g, r, c));
      sum := sum + current;
      m := RecordPart(m, current, gears);
    }
  }

  /** `sum_parts`: the sum of all part numbers and the sum of the gear
      ratios, scanning each row left to right. */
  method SumParts(g: Grid) returns (sum: nat, ratios: int)
    ensures sum == ValueSum(Parts(g))
    ensures ratios == GearRatios(g)
  {
    sum := 0;
    var gearMap: GearMap := map[];
    var r := 0;
    while r < |g|
      invariant r <= |g|
      invariant sum == ValueSum(PartsBefore(g, r))
      invariant gearMap == GearMapOf(PartsBefore(g, r))
    {
      sum, gearMap := ScanRowParts(g, r, PartsBefore(g, r), sum, gearMap);
      r := r + 1;
    }
    ratios := SumMap(RatioMap(gearMap));
  }

  // ---------------------------------------------------------------------
  // What the part numbers and the gear table are

  /** The gears a run touches are those next to one of its digits. */
  lemma {:induction false} RunGearsNear(g: Grid, r: nat, st: nat, e: nat, q: Pos)
    ensures q in RunGears(g, r, st, e) <==> exists k | st <= k < e :: q in GearsNear(g, r, k)
    decreases e
  {
    if e > st {
      RunGearsNear(g, r, st, e - 1, q);
    }
  }

  lemma {:induction false} InRowPartsBefore(g: Grid, r: nat, n: nat, e: nat)
    requires r < |g| && IsPart(g, r, e) && e < n
    ensures PartAt(g, r, e) in RowPartsBefore(g, r, n)
    decreases n
  {
    if e < n - 1 {
      InRowPartsBefore(g, r, n - 1, e);
    }
  }

  lemma {:induction false} InPartsBefore(g: Grid, r: nat, n: nat, p: Part)
    requires r < n <= |g| && p in RowParts(g, r)
    ensures p in PartsBefore(g, n)
    decreases n
  {
    if r < n - 1 {
      InPartsBefore(g, r, n - 1, p);
    }
  }

  /** The part numbers are exactly the maximal runs of digits with a
      positive value that touch a symbol: every listed part is one, and
      every such run is listed. */
  lemma PartsAreRuns(g: Grid, p: Part)
    ensures p in Parts(g) <==> p.row < |g| && IsPart(g, p.row, p.stop) && p == PartAt(g, p.row, p.stop)
  {
    if p.row < |g| && IsPart(g, p.row, p.stop) && p == PartAt(g, p.row, p.stop) {
      InRowPartsBefore(g, p.row, |g[p.row]| + 1, p.stop);
      InPartsBefore(g, p.row, |g|, p);
    }
  }

  /** What makes a run a part number, spelled out: its digits fill
      [start, stop) of its row and neither neighbouring column is a digit,
      its value is positive, and some digit is next to a symbol. */
  lemma PartMeaning(g: Grid, p: Part)
    requires p in Parts(g)
    ensures p.row < |g| && p.start < p.stop <= |g[p.row]|
    ensures forall k | p.start <= k < p.stop :: IsDigit(g[p.row][k])
    ensures p.start == 0 || !IsDigit(g[p.row][p.start - 1])
    ensures p.stop == |g[p.row]| || !IsDigit(g[p.row][p.stop])
    ensures p.value == DecimalValue(g[p.row][p.start..p.stop]) && p.value > 0
    ensures exists k | p.start <= k < p.stop :: TouchesSymbol(g, p.row, k)
  {
    PartsAreRuns(g, p);
  }

  /** The values of the parts in `ps` that touch gear q, in order. */
  function Touching(ps: seq<Part>, q: Pos): (vs: seq<nat>)
    ensures vs != [] <==> exists i | 0 <= i < |ps| :: q in ps[i].gears
  {
    if ps == [] then []
    else
      var last := ps[|ps| - 1];
      Touching(ps[..|ps| - 1], q) + if q in last.gears then [last.value] else []
  }

  /** The gear table lists, for each gear touched by some part number, the
      part numbers touching it in reading order, and has no other keys. */
  lemma {:induction false} GearMapLists(ps: seq<Part>, q: Pos)
    ensures q in GearMapOf(ps) <==> Touching(ps, q) != []
    ensures q in GearMapOf(ps) ==> GearMapOf(ps)[q] == Touching(ps, q)
  {
    if ps != [] {
      GearMapLists(ps[..|ps| - 1], q);
    }
  }
}
