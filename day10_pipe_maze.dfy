/** Day 10: a grid of pipe cells read from text, the kind of the start cell
    inferred from its neighbours, and the walk along the pipes from the start
    that never returns to a visited cell. Positions are (row, column); north
    is row - 1 and west is column - 1. */
module PipeMaze {
  import W = Wrappers
  import Text

  datatype PipeKind = None | Vertical | Horizontal | NorthEast | NorthWest | SouthWest | SouthEast

  type Position = (int, int)

  datatype Pipe = Pipe(kind: PipeKind, position: Position)

  /** `Pipes`: the grid (the source calls it `map`) and the start position. */
  datatype Pipes = Pipes(grid: seq<seq<Pipe>>, start: Position)

  // ---------------------------------------------------------------------
  // Connections

  /** The positions a pipe of `kind` at `p` opens towards. */
  function Openings(kind: PipeKind, p: Position): set<Position>
  {
    var north, south, west, east := (p.0 - 1, p.1), (p.0 + 1, p.1), (p.0, p.1 - 1), (p.0, p.1 + 1);
    match kind
    case None => {}
    case Vertical => {north, south}
    case Horizontal => {west, east}
    case NorthEast => {north, east}
    case NorthWest => {north, west}
    case SouthWest => {south, west}
    case SouthEast => {south, east}
  }

  /** `connects_to_position`: whether the pipe opens towards `other`. */
  function ConnectsTo(pipe: Pipe, other: Position): (b: bool)
    ensures b <==> other in Openings(pipe.kind, pipe.position)
  {
    var p, q := pipe.position, other;
    match pipe.kind
    case None => false
    case Vertical => p.1 == q.1 && (p.0 == q.0 - 1 || p.0 == q.0 + 1)
    case Horizontal => p.0 == q.0 && (p.1 == q.1 - 1 || p.1 == q.1 + 1)
    case NorthEast => (p.1 == q.1 - 1 && p.0 == q.0) || (p.1 == q.1 && p.0 == q.0 + 1)
    case NorthWest => (p.1 == q.1 + 1 && p.0 == q.0) || (p.1 == q.1 && p.0 == q.0 + 1)
    case SouthWest => (p.1 == q.1 + 1 && p.0 == q.0) || (p.1 == q.1 && p.0 == q.0 - 1)
    case SouthEast => (p.1 == q.1 - 1 && p.0 == q.0) || (p.1 == q.1 && p.0 == q.0 - 1)
  }

  function Abs(x: int): nat { if x < 0 then -x else x }

  function Manhattan(p: Position, q: Position): nat
  {
    Abs(p.0 - q.0) + Abs(p.1 - q.1)
  }

  /** An empty cell opens nowhere; every pipe opens towards exactly two cells,
      each a direct neighbour. */
  lemma OpeningsShape(kind: PipeKind, p: Position)
    ensures kind == None <==> Openings(kind, p) == {}
    ensures kind != None ==> |Openings(kind, p)| == 2
    ensures forall q | q in Openings(kind, p) :: Manhattan(p, q) == 1
  {
    var north, south, west, east := (p.0 - 1, p.1), (p.0 + 1, p.1), (p.0, p.1 - 1), (p.0, p.1 + 1);
    assert north != south && north != west && north != east;
    assert south != west && south != east && west != east;
    if kind == None {
    } else {
      assert |{north, south}| == 2 && |{west, east}| == 2 && |{north, east}| == 2;
      assert |{north, west}| == 2 && |{south, west}| == 2 && |{south, east}| == 2;
    }
  }

  /** The connections the source checks one by one. */
  lemma ConnectionExamples()
    ensures ConnectsTo(Pipe(Vertical, (0, 0)), (1, 0)) && ConnectsTo(Pipe(Vertical, (1, 0)), (0, 0))
    ensures ConnectsTo(Pipe(Horizontal, (0, 0)), (0, 1)) && ConnectsTo(Pipe(Horizontal, (0, 1)), (0, 0))
    ensures ConnectsTo(Pipe(NorthEast, (1, 1)), (0, 1)) && ConnectsTo(Pipe(NorthEast, (1, 1)), (1, 2))
    ensures ConnectsTo(Pipe(NorthWest, (1, 1)), (0, 1)) && ConnectsTo(Pipe(NorthWest, (1, 1)), (1, 0))
    ensures ConnectsTo(Pipe(SouthWest, (1, 1)), (2, 1)) && ConnectsTo(Pipe(SouthWest, (1, 1)), (1, 0))
    ensures ConnectsTo(Pipe(SouthEast, (1, 1)), (2, 1)) && ConnectsTo(Pipe(SouthEast, (1, 1)), (1, 2))
  {
  }

  // ---------------------------------------------------------------------
  // Reading the grid

  /** The kind a character stands for; 'S' is stored as `None` until the scan
      is over. Any other character stops the program (`None`). */
  function CellKind(c: char): (k: W.Option<PipeKind>)
    ensures k.Some? <==> c in "-|LJ7F.S"
  {
    match c
    case '-' => W.Some(Horizontal)
    case '|' => W.Some(Vertical)
    case 'L' => W.Some(NorthEast)
    case 'J' => W.Some(NorthWest)
    case '7' => W.Some(SouthWest)
    case 'F' => W.Some(SouthEast)
    case '.' => W.Some(None)
    case 'S' => W.Some(None)
    case _ => W.None
  }

  /** The character drawing each kind; it reads back as that kind. */
  function KindChar(k: PipeKind): (c: char)
    ensures CellKind(c) == W.Some(k) && c != 'S'
  {
    match k
    case Horizontal => '-'
    case Vertical => '|'
    case NorthEast => 'L'
    case NorthWest => 'J'
    case SouthWest => '7'
    case SouthEast => 'F'
    case None => '.'
  }

  predicate ValidLine(line: string)
  {
    forall j | 0 <= j < |line| :: CellKind(line[j]).Some?
  }

  predicate ValidLines(lines: seq<string>)
  {
    forall i | 0 <= i < |lines| :: ValidLine(lines[i])
  }

  /** Row `i` of the scanned grid: every cell holds the kind of its character
      and its own position. */
  function GridRow(line: string, i: int): (row: seq<Pipe>)
    requires ValidLine(line)
    ensures |row| == |line|
    ensures forall j | 0 <= j < |line| :: row[j] == Pipe(CellKind(line[j]).value, (i, j))
  {
    if line == [] then []
    else
      var j := |line| - 1;
      GridRow(line[..j], i) + [Pipe(CellKind(line[j]).value, (i, j))]
  }

  function Grid(lines: seq<string>): (grid: seq<seq<Pipe>>)
    requires ValidLines(lines)
    ensures |grid| == |lines|
    ensures forall i | 0 <= i < |lines| :: grid[i] == GridRow(lines[i], i)
  {
    if lines == [] then []
    else
      var i := |lines| - 1;
      Grid(lines[..i]) + [GridRow(lines[i], i)]
  }

  /** Where the scan of row `i` leaves `start`: at the last 'S' of the row, or
      where it was before the row if the row has none. */
  function LastStartInLine(line: string, i: int, before: Position): Position
  {
    if line == [] then before
    else if line[|line| - 1] == 'S' then (i, |line| - 1)
    else LastStartInLine(line[..|line| - 1], i, before)
  }

  /** Where the scan of all rows leaves `start`, which begins at (0, 0). */
  function LastStart(lines: seq<string>): Position
  {
    if lines == [] then (0, 0)
    else
      var i := |lines| - 1;
      LastStartInLine(lines[i], i, LastStart(lines[..i]))
  }

  predicate HasStart(lines: seq<string>)
  {
    exists i | 0 <= i < |lines| :: 'S' in lines[i]
  }

  lemma {:induction false} LastStartInLineSpec(line: string, i: int, before: Position)
    ensures var s := LastStartInLine(line, i, before);
      && ('S' !in line ==> s == before)
      && ('S' in line ==> s.0 == i && 0 <= s.1 < |line| && line[s.1] == 'S')
      && (forall j | 0 <= j < |line| && line[j] == 'S' :: s == (i, s.1) && j <= s.1)
  {
    if line != [] {
      var j := |line| - 1;
      LastStartInLineSpec(line[..j], i, before);
      assert line == line[..j] + [line[j]];
      if line[j] != 'S' {
        assert forall k | 0 <= k < j :: line[..j][k] == line[k];
      }
    }
  }

  /** The scan leaves `start` at the last 'S' in reading order, and at (0, 0)
      when there is none. */
  lemma {:induction false} LastStartSpec(lines: seq<string>)
    ensures var s := LastStart(lines);
      && (!HasStart(lines) ==> s == (0, 0))
      && (HasStart(lines) ==> 0 <= s.0 < |lines| && 0 <= s.1 < |lines[s.0]| && lines[s.0][s.1] == 'S')
      && (forall i, j | 0 <= i < |lines| && 0 <= j < |lines[i]| && lines[i][j] == 'S' ::
            i < s.0 || (i == s.0 && j <= s.1))
  {
    if lines != [] {
      var i := |lines| - 1;
      var before := LastStart(lines[..i]);
      LastStartSpec(lines[..i]);
      LastStartInLineSpec(lines[i], i, before);
      assert forall k | 0 <= k < i :: lines[..i][k] == lines[k];
      if HasStart(lines) && 'S' !in lines[i] {
        var k :| 0 <= k < |lines| && 'S' in lines[k];
        assert HasStart(lines[..i]);
      }
      if HasStart(lines[..i]) {
        var k :| 0 <= k < i && 'S' in lines[..i][k];
        assert 'S' in lines[k];
      }
    }
  }

  // ---------------------------------------------------------------------
  // The start cell

  predicate InGrid(grid: seq<seq<Pipe>>, p: Position)
  {
    0 <= p.0 < |grid| && 0 <= p.1 < |grid[p.0]|
  }

  /** Whether the cell at `at` connects to `target`; reading a cell outside the
      grid stops the program (`None`). */
  function ConnectsAt(grid: seq<seq<Pipe>>, at: Position, target: Position): (r: W.Option<bool>)
    ensures r.Some? <==> InGrid(grid, at)
  {
    if InGrid(grid, at) then W.Some(ConnectsTo(grid[at.0][at.1], target)) else W.None
  }

  /** The kind the source gives the start cell: the west neighbour is read
      first, then the north or south one. When the west neighbour does not
      connect, the two outcomes `NorthEast` and `Vertical` are swapped with
      respect to the neighbours that connect (see StartKindAsWrittenSwapped). */
  function StartKindAsWritten(grid: seq<seq<Pipe>>, s: Position): (r: W.Option<PipeKind>)
    ensures r.Some? ==> InGrid(grid, (s.0, s.1 - 1)) && r.value != None
  {
    var north, south, west := (s.0 - 1, s.1), (s.0 + 1, s.1), (s.0, s.1 - 1);
    match ConnectsAt(grid, west, s)
    case None => W.None
    case Some(true) =>
      (match ConnectsAt(grid, north, s)
       case None => W.None
       case Some(true) => W.Some(NorthWest)
       case Some(false) =>
         match ConnectsAt(grid, south, s)
         case None => W.None
         case Some(true) => W.Some(SouthWest)
         case Some(false) => W.Some(Horizontal))
    case Some(false) =>
      match ConnectsAt(grid, south, s)
      case None => W.None
      case Some(true) =>
        (match ConnectsAt(grid, north, s)
         case None => W.None
         case Some(true) => W.Some(NorthEast)
         case Some(false) => W.Some(SouthEast))
      case Some(false) => W.Some(Vertical)
  }

  /** The start kind with the two swapped outcomes put right: the same cells are
      read in the same order, so the same grids stop the program. */
  function StartKind(grid: seq<seq<Pipe>>, s: Position): (r: W.Option<PipeKind>)
    ensures r.Some? <==> StartKindAsWritten(grid, s).Some?
    ensures ConnectsAt(grid, (s.0, s.1 - 1), s) == W.Some(true) ==> r == StartKindAsWritten(grid, s)
    ensures r.Some? ==> r.value != None
  {
    var north, south, west := (s.0 - 1, s.1), (s.0 + 1, s.1), (s.0, s.1 - 1);
    match ConnectsAt(grid, west, s)
    case None => W.None
    case Some(true) =>
      (match ConnectsAt(grid, north, s)
       case None => W.None
       case Some(true) => W.Some(NorthWest)
       case Some(false) =>
         match ConnectsAt(grid, south, s)
         case None => W.None
         case Some(true) => W.Some(SouthWest)
         case Some(false) => W.Some(Horizontal))
    case Some(false) =>
      match ConnectsAt(grid, south, s)
      case None => W.None
      case Some(true) =>
        (match ConnectsAt(grid, north, s)
         case None => W.None
         case Some(true) => W.Some(Vertical)
         case Some(false) => W.Some(SouthEast))
      case Some(false) => W.Some(NorthEast)
  }

  /** The four neighbours of `s` whose cells connect back to it. */
  function Connecting(grid: seq<seq<Pipe>>, s: Position): set<Position>
  {
    var north, south, west, east := (s.0 - 1, s.1), (s.0 + 1, s.1), (s.0, s.1 - 1), (s.0, s.1 + 1);
    set q | q in {north, south, west, east} && ConnectsAt(grid, q, s) == W.Some(true)
  }

  /** When exactly two neighbours connect to the start, the inferred kind opens
      towards exactly those two. */
  lemma StartKindOpensToConnecting(grid: seq<seq<Pipe>>, s: Position)
    requires |Connecting(grid, s)| == 2 && StartKind(grid, s).Some?
    ensures Openings(StartKind(grid, s).value, s) == Connecting(grid, s)
  {
    var c, k := Connecting(grid, s), StartKind(grid, s).value;
    OpeningsShape(k, s);
    if Openings(k, s) <= c {
      SubsetOfEqualSize(Openings(k, s), c);
    } else {
      assert c <= Openings(k, s);
      SubsetOfEqualSize(c, Openings(k, s));
    }
  }

  lemma SubsetOfEqualSize(a: set<Position>, b: set<Position>)
    requires a <= b && |a| == |b|
    ensures a == b
  {
    assert b == (b - a) + a && (b - a) * a == {};
    assert |b - a| == 0;
  }

  /** The source's start kind on a start whose north and south neighbours
      connect to it: it picks `NorthEast`, which does not open south. */
  lemma StartKindAsWrittenSwapped(grid: seq<seq<Pipe>>)
    requires grid == [
      [Pipe(None, (0, 0)), Pipe(Vertical, (0, 1)), Pipe(None, (0, 2))],
      [Pipe(None, (1, 0)), Pipe(None, (1, 1)), Pipe(None, (1, 2))],
      [Pipe(None, (2, 0)), Pipe(Vertical, (2, 1)), Pipe(None, (2, 2))]]
    ensures ConnectsAt(grid, (0, 1), (1, 1)) == W.Some(true)
    ensures ConnectsAt(grid, (2, 1), (1, 1)) == W.Some(true)
    ensures StartKindAsWritten(grid, (1, 1)) == W.Some(NorthEast)
    ensures (2, 1) !in Openings(NorthEast, (1, 1))
    ensures StartKind(grid, (1, 1)) == W.Some(Vertical)
  {
  }

  // ---------------------------------------------------------------------
  // Parsing

  /** `Pipes::parse` as a function of the input: every character is scanned,
      then the start cell is given its inferred kind. */
  function ParseSpec(input: string): (r: W.Option<Pipes>)
    ensures r.Some? ==> ValidLines(Text.Lines(input)) && HasStart(Text.Lines(input))
    ensures r.Some? ==> r.value.start == LastStart(Text.Lines(input)) && InGrid(r.value.grid, r.value.start)
  {
    var lines := Text.Lines(input);
    if !ValidLines(lines) then W.None
    else
      var grid, s := Grid(lines), LastStart(lines);
      match StartKind(grid, s)
      case None => W.None
      case Some(k) =>
        StartInGrid(lines);
        assert 'S' in lines[s.0];
        W.Some(Pipes(grid[s.0 := grid[s.0][s.1 := Pipe(k, s)]], s))
  }

  /** A start kind can only be inferred around an 'S' that is in the grid. */
  lemma StartInGrid(lines: seq<string>)
    requires ValidLines(lines) && StartKind(Grid(lines), LastStart(lines)).Some?
    ensures var s := LastStart(lines);
      InGrid(Grid(lines), s) && lines[s.0][s.1] == 'S'
  {
    var grid, s := Grid(lines), LastStart(lines);
    LastStartSpec(lines);
    assert ConnectsAt(grid, (s.0, s.1 - 1), s).Some?;
  }

  lemma RowStep(line: string, i: int, j: nat, before: Position)
    requires j < |line| && ValidLine(line[..j]) && CellKind(line[j]).Some?
    ensures ValidLine(line[..j + 1])
    ensures GridRow(line[..j + 1], i) == GridRow(line[..j], i) + [Pipe(CellKind(line[j]).value, (i, j))]
    ensures LastStartInLine(line[..j + 1], i, before)
      == if line[j] == 'S' then (i, j) else LastStartInLine(line[..j], i, before)
  {
    assert line[..j + 1][..j] == line[..j];
  }

  lemma GridStep(lines: seq<string>, i: nat)
    requires i < |lines| && ValidLines(lines[..i]) && ValidLine(lines[i])
    ensures ValidLines(lines[..i + 1])
    ensures Grid(lines[..i + 1]) == Grid(lines[..i]) + [GridRow(lines[i], i)]
    ensures LastStart(lines[..i + 1]) == LastStartInLine(lines[i], i, LastStart(lines[..i]))
  {
    assert lines[..i + 1][..i] == lines[..i];
  }

  /** `Pipes::parse`: rows of cells are pushed one character at a time while
      `start` follows the 'S'; then the start cell is overwritten. */
  method Parse(input: string) returns (r: W.Option<Pipes>)
    ensures r == ParseSpec(input)
  {
    var lines := Text.Lines(input);
    var grid: seq<seq<Pipe>> := [];
    var start: Position := (0, 0);
    var i := 0;
    while i < |lines|
      invariant 0 <= i <= |lines|
      invariant ValidLines(lines[..i]) && grid == Grid(lines[..i])
      invariant start == LastStart(lines[..i])
    {
      var line := lines[i];
      var row: seq<Pipe> := [];
      var j := 0;
      while j < |line|
        invariant 0 <= j <= |line|
        invariant ValidLine(line[..j]) && row == GridRow(line[..j], i)
        invariant start == LastStartInLine(line[..j], i, LastStart(lines[..i]))
      {
        var kind := CellKind(line[j]);
        if kind.None? {
          assert !ValidLine(lines[i]);
          return W.None;
        }
        if line[j] == 'S' {
          start := (i, j);
        }
        RowStep(line, i, j, LastStart(lines[..i]));
        row := row + [Pipe(kind.value, (i, j))];
        j := j + 1;
      }
      assert line[..j] == line;
      GridStep(lines, i);
      grid := grid + [row];
      i := i + 1;
    }
    assert lines[..i] == lines;
    var kind := StartKind(grid, start);
    if kind.None? {
      return W.None;
    }
    StartInGrid(lines);
    grid := grid[start.0 := grid[start.0][start.1 := Pipe(kind.value, start)]];
    r := W.Some(Pipes(grid, start));
  }

  /** Every parsed cell holds its own position; every cell but the start has
      the kind of its character, and the start is an 'S' given the inferred
      kind. */
  lemma ParsedCells(input: string)
    requires ParseSpec(input).Some?
    ensures var lines, p := Text.Lines(input), ParseSpec(input).value;
      && |p.grid| == |lines|
      && (forall i | 0 <= i < |lines| :: |p.grid[i]| == |lines[i]|)
      && (forall i, j | 0 <= i < |lines| && 0 <= j < |lines[i]| ::
            p.grid[i][j].position == (i, j)
            && ((i, j) != p.start ==> p.grid[i][j].kind == CellKind(lines[i][j]).value))
      && InGrid(p.grid, p.start) && lines[p.start.0][p.start.1] == 'S'
      && W.Some(p.grid[p.start.0][p.start.1].kind) == StartKind(Grid(lines), p.start)
  {
    var lines := Text.Lines(input);
    StartInGrid(lines);
    var grid, s := Grid(lines), LastStart(lines);
    var k := StartKind(grid, s).value;
    assert ParseSpec(input) == W.Some(Pipes(grid[s.0 := grid[s.0][s.1 := Pipe(k, s)]], s));
    StartCellSet(lines, s, k);
  }

  /** The scanned grid with the start cell given kind `k`. */
  lemma StartCellSet(lines: seq<string>, s: Position, k: PipeKind)
    requires ValidLines(lines) && InGrid(Grid(lines), s)
    ensures var grid := Grid(lines); var g := grid[s.0 := grid[s.0][s.1 := Pipe(k, s)]];
      && |g| == |lines|
      && (forall i | 0 <= i < |lines| :: |g[i]| == |lines[i]|)
      && (forall i, j | 0 <= i < |lines| && 0 <= j < |lines[i]| ::
            g[i][j].position == (i, j)
            && ((i, j) != s ==> g[i][j].kind == CellKind(lines[i][j]).value))
      && g[s.0][s.1] == Pipe(k, s)
  {
    Overwrite(Grid(lines), s, Pipe(k, s));
    GridCells(lines);
  }

  lemma GridCells(lines: seq<string>)
    requires ValidLines(lines)
    ensures var grid := Grid(lines);
      forall i, j | 0 <= i < |lines| && 0 <= j < |lines[i]| ::
        |grid[i]| == |lines[i]| && grid[i][j] == Pipe(CellKind(lines[i][j]).value, (i, j))
  {
  }

  /** Overwriting one cell of a grid changes that cell and nothing else. */
  lemma Overwrite(grid: seq<seq<Pipe>>, s: Position, x: Pipe)
    requires InGrid(grid, s)
    ensures var g := grid[s.0 := grid[s.0][s.1 := x]];
      && |g| == |grid| && (forall i | 0 <= i < |grid| :: |g[i]| == |grid[i]|)
      && g[s.0][s.1] == x
      && (forall i, j | 0 <= i < |grid| && 0 <= j < |grid[i]| && (i, j) != s :: g[i][j] == grid[i][j])
  {
  }

  /** A character other than the seven pipe characters and 'S' stops the
      program, and so does a grid without an 'S'. */
  lemma ParseRejects(input: string)
    ensures var lines := Text.Lines(input);
      (exists i | 0 <= i < |lines| :: !ValidLine(lines[i])) || !HasStart(lines) ==> ParseSpec(input) == W.None
  {
    var lines := Text.Lines(input);
    if ValidLines(lines) && !HasStart(lines) {
      LastStartSpec(lines);
      assert !ConnectsAt(Grid(lines), (0, -1), (0, 0)).Some?;
    }
  }

  // ---------------------------------------------------------------------
  // The walk

  /** The neighbours tried from `p`, in the source's order: west, east, north,
      south. */
  function Candidates(p: Position): seq<Position>
  {
    [(p.0, p.1 - 1), (p.0, p.1 + 1), (p.0 - 1, p.1), (p.0 + 1, p.1)]
  }

  /** The index of the first candidate from `k` on that is not yet visited and
      that `pipe` connects to. */
  function FirstMove(pipe: Pipe, cands: seq<Position>, been: set<Position>, k: nat): (r: W.Option<nat>)
    requires k <= |cands|
    ensures r.Some? ==> k <= r.value < |cands| && cands[r.value] !in been && ConnectsTo(pipe, cands[r.value])
    ensures r.Some? ==> forall m | k <= m < r.value :: cands[m] in been || !ConnectsTo(pipe, cands[m])
    ensures r.None? ==> forall m | k <= m < |cands| :: cands[m] in been || !ConnectsTo(pipe, cands[m])
    decreases |cands| - k
  {
    if k == |cands| then W.None
    else if cands[k] !in been && ConnectsTo(pipe, cands[k]) then W.Some(k)
    else FirstMove(pipe, cands, been, k + 1)
  }

  /** All positions of the grid. */
  function Cells(grid: seq<seq<Pipe>>): (c: set<Position>)
    ensures forall p | p in c :: InGrid(grid, p)
  {
    set i, j | 0 <= i < |grid| && 0 <= j < |grid[i]| :: (i, j)
  }

  lemma FewerUnvisited(grid: seq<seq<Pipe>>, been: set<Position>, next: Position)
    requires InGrid(grid, next) && next !in been
    ensures |Cells(grid) - (been + {next})| < |Cells(grid) - been|
  {
    assert next in Cells(grid);
    assert Cells(grid) - (been + {next}) == (Cells(grid) - been) - {next};
  }

  /** `find_path_rec`: from `current`, step to the first candidate not yet in
      `been` that the current pipe connects to; when there is none, the walk
      ends and counts one more step. Reading a cell outside the grid stops
      the program (`None`). The walk ends because every step visits a new cell
      of the grid. */
  function FindPathRec(grid: seq<seq<Pipe>>, current: Position, steps: int, been: set<Position>)
    : (r: W.Option<(int, set<Position>)>)
    ensures r.Some? ==> InGrid(grid, current)
    ensures r.Some? ==> been <= r.value.1 && r.value.1 - been <= Cells(grid)
    ensures r.Some? ==> |r.value.1| == |been| + r.value.0 - steps - 1
    decreases |Cells(grid) - been|
  {
    if !InGrid(grid, current) then W.None
    else
      var pipe, cands := grid[current.0][current.1], Candidates(current);
      match FirstMove(pipe, cands, been, 0)
      case None => W.Some((steps + 1, been))
      case Some(k) =>
        var next := cands[k];
        if !InGrid(grid, next) then W.None
        else
          FewerUnvisited(grid, been, next);
          FindPathRec(grid, next, steps + 1, been + {next})
  }

  /** `find_path`: half the step count of the walk from the start. */
  function FindPath(pipes: Pipes): (r: W.Option<int>)
    ensures r.Some? ==> InGrid(pipes.grid, pipes.start)
    ensures r.Some? ==> 0 <= 2 * r.value <= |Cells(pipes.grid)|
  {
    match FindPathRec(pipes.grid, pipes.start, 0, {pipes.start})
    case None => W.None
    case Some((steps, seen)) =>
      var cells := Cells(pipes.grid);
      assert (pipes.start.0, pipes.start.1) in cells;
      SubsetSize(seen, cells);
      W.Some(steps / 2)
  }

  lemma SubsetSize(a: set<Position>, b: set<Position>)
    requires a <= b
    ensures |a| <= |b|
  {
    assert b == (b - a) + a && (b - a) * a == {};
  }

  /** The walk's step count is the number of distinct cells it visits, the
      start included, so the answer is half of that. */
  lemma FindPathHalfVisited(pipes: Pipes)
    requires FindPath(pipes).Some?
    ensures var r := FindPathRec(pipes.grid, pipes.start, 0, {pipes.start});
      && r.Some? && r.value.0 == |r.value.1| && pipes.start in r.value.1
      && FindPath(pipes) == W.Some(|r.value.1| / 2)
  {
  }

  /** The smallest loop, four bends around a square: the walk visits its four
      cells, so the farthest cell is two steps away. */
  lemma SquareLoop(pipes: Pipes)
    requires pipes == Pipes(Square(), (0, 0))
    ensures FindPath(pipes) == W.Some(2)
  {
    SquareLast(pipes.grid);
    SquareThird(pipes.grid);
    SquareSecond(pipes.grid);
    SquareFirst(pipes.grid);
  }

  function Square(): seq<seq<Pipe>>
  {
    [[Pipe(SouthEast, (0, 0)), Pipe(SouthWest, (0, 1))],
     [Pipe(NorthEast, (1, 0)), Pipe(NorthWest, (1, 1))]]
  }

  lemma SquareLast(g: seq<seq<Pipe>>)
    requires g == Square()
    ensures FindPathRec(g, (1, 0), 3, {(0, 0), (0, 1), (1, 1), (1, 0)}) == W.Some((4, {(0, 0), (0, 1), (1, 1), (1, 0)}))
  {
    assert FirstMove(g[1][0], Candidates((1, 0)), {(0, 0), (0, 1), (1, 1), (1, 0)}, 0) == W.None;
  }

  lemma SquareThird(g: seq<seq<Pipe>>)
    requires g == Square()
    ensures FindPathRec(g, (1, 1), 2, {(0, 0), (0, 1), (1, 1)})
      == FindPathRec(g, (1, 0), 3, {(0, 0), (0, 1), (1, 1), (1, 0)})
  {
    assert FirstMove(g[1][1], Candidates((1, 1)), {(0, 0), (0, 1), (1, 1)}, 0) == W.Some(0);
    assert {(0, 0), (0, 1), (1, 1)} + {(1, 0)} == {(0, 0), (0, 1), (1, 1), (1, 0)};
  }

  lemma SquareSecond(g: seq<seq<Pipe>>)
    requires g == Square()
    ensures FindPathRec(g, (0, 1), 1, {(0, 0), (0, 1)})
      == FindPathRec(g, (1, 1), 2, {(0, 0), (0, 1), (1, 1)})
  {
    assert FirstMove(g[0][1], Candidates((0, 1)), {(0, 0), (0, 1)}, 0) == W.Some(3);
    assert {(0, 0), (0, 1)} + {(1, 1)} == {(0, 0), (0, 1), (1, 1)};
  }

  lemma SquareFirst(g: seq<seq<Pipe>>)
    requires g == Square()
    ensures FindPathRec(g, (0, 0), 0, {(0, 0)}) == FindPathRec(g, (0, 1), 1, {(0, 0), (0, 1)})
  {
    assert FirstMove(g[0][0], Candidates((0, 0)), {(0, 0)}, 0) == W.Some(1);
    assert {(0, 0)} + {(0, 1)} == {(0, 0), (0, 1)};
  }
}
