/** Day 12, hot springs: a row of springs, each operational (`.`), damaged (`#`)
    or unknown (`?`), followed by the lengths of the row's runs of damaged
    springs. The program counts, for each row, the ways of reading the unknown
    springs that agree with the run lengths, and adds the counts up. */
module HotSprings {
  import opened Wrappers
  import opened Text

  datatype Spring = Operational | Damaged | Unknown

  /** One input line: the springs and the damaged-run lengths it claims. */
  datatype Row = Row(springs: seq<Spring>, groups: seq<int>)

  // ---------------------------------------------------------------------
  // Formatting and parsing

  /** The `Debug` spelling of a spring. */
  function SpringChar(s: Spring): char
  {
    match s
    case Operational => '.'
    case Damaged => '#'
    case Unknown => '?'
  }

  /** `parse_spring`: exactly one of `#`, `.`, `?`. */
  function ParseSpring(input: string): (r: Parse<Spring>)
    ensures r.Parsed? <==> |input| > 0 && input[0] in "#.?"
    ensures r.Parsed? ==> SpringChar(r.value) == input[0] && r.rest == input[1..]
  {
    if |input| == 0 then Failed
    else if input[0] == '#' then Parsed(Damaged, input[1..])
    else if input[0] == '.' then Parsed(Operational, input[1..])
    else if input[0] == '?' then Parsed(Unknown, input[1..])
    else Failed
  }

  /** `parse_springs`: one or more springs, as many as there are. */
  function ParseSprings(input: string): (r: Parse<seq<Spring>>)
    ensures r.Parsed? ==> |r.value| > 0 && |r.rest| < |input|
    decreases |input|
  {
    match ParseSpring(input)
    case Failed => Failed
    case Parsed(s, rest) =>
      match ParseSprings(rest)
      case Failed => Parsed([s], rest)
      case Parsed(more, rest') => Parsed([s] + more, rest')
  }

  /** `parse_group`: one or more comma-separated decimal numbers, each within
      the range of `i64`. */
  function ParseGroup(input: string): (r: Parse<seq<int>>)
    ensures r.Parsed? ==> |r.value| > 0 && |r.rest| < |input|
    decreases |input|
  {
    match Unsigned(input, I64_MAX)
    case Failed => Failed
    case Parsed(n, rest) =>
      if |rest| > 0 && rest[0] == ',' then
        match ParseGroup(rest[1..])
        case Failed => Parsed([n], rest)
        case Parsed(ns, rest') => Parsed([n] + ns, rest')
      else Parsed([n], rest)
  }

  /** `line_ending`, made optional: skips `\n` or `\r\n` if one comes next. */
  function SkipLineEnding(input: string): string
  {
    if StartsWith(input, "\n") then input[1..]
    else if StartsWith(input, "\r\n") then input[2..]
    else input
  }

  /** `parse_line`: springs, one space, the run lengths, an optional line ending. */
  function ParseLine(input: string): (r: Parse<Row>)
    ensures r.Parsed? ==> |r.rest| < |input|
  {
    match ParseSprings(input)
    case Failed => Failed
    case Parsed(springs, rest) =>
      match Tag(rest, " ")
      case Failed => Failed
      case Parsed(_, rest) =>
        match ParseGroup(rest)
        case Failed => Failed
        case Parsed(groups, rest) => Parsed(Row(springs, groups), SkipLineEnding(rest))
  }

  /** `parse_input`: one or more lines. */
  function ParseInput(input: string): (r: Parse<seq<Row>>)
    ensures r.Parsed? ==> |r.value| > 0
    decreases |input|
  {
    match ParseLine(input)
    case Failed => Failed
    case Parsed(row, rest) =>
      match ParseInput(rest)
      case Failed => Parsed([row], rest)
      case Parsed(rows, rest') => Parsed([row] + rows, rest')
  }

  // Rendering a row as the puzzle input spells it, for the round trips below.

  function RenderSprings(ss: seq<Spring>): string
  {
    if ss == [] then [] else [SpringChar(ss[0])] + RenderSprings(ss[1..])
  }

  function RenderGroups(gs: seq<int>): string
    requires |gs| > 0 && forall i | 0 <= i < |gs| :: gs[i] >= 0
  {
    if |gs| == 1 then Decimal(gs[0]) else Decimal(gs[0]) + "," + RenderGroups(gs[1..])
  }

  function RenderRow(row: Row): string
    requires Renderable(row)
  {
    RenderSprings(row.springs) + " " + RenderGroups(row.groups) + "\n"
  }

  function RenderRows(rows: seq<Row>): string
    requires AllRenderable(rows)
  {
    if rows == [] then [] else RenderRow(rows[0]) + RenderRows(rows[1..])
  }

  /** A row that an input file can spell: at least one spring, at least one
      run length, every length a non-negative `i64`. */
  predicate Renderable(row: Row)
  {
    |row.springs| > 0 && |row.groups| > 0 && GroupsInRange(row.groups)
  }

  predicate AllRenderable(rows: seq<Row>)
  {
    forall i | 0 <= i < |rows| :: Renderable(rows[i])
  }

  /** Printing a spring with `Debug` and parsing it back gives the spring. */
  lemma SpringRoundTrip(s: Spring, rest: string)
    ensures ParseSpring([SpringChar(s)] + rest) == Parsed(s, rest)
  {
    assert ([SpringChar(s)] + rest)[1..] == rest;
  }

  lemma {:induction false} SpringsRoundTrip(ss: seq<Spring>, rest: string)
    requires |ss| > 0
    requires rest == [] || rest[0] !in "#.?"
    ensures ParseSprings(RenderSprings(ss) + rest) == Parsed(ss, rest)
  {
    var input := RenderSprings(ss) + rest;
    var after := RenderSprings(ss[1..]) + rest;
    assert input == [SpringChar(ss[0])] + after;
    SpringRoundTrip(ss[0], after);
    if |ss| > 1 {
      SpringsRoundTrip(ss[1..], rest);
      assert ParseSprings(after) == Parsed(ss[1..], rest);
      assert [ss[0]] + ss[1..] == ss;
    } else {
      assert after == rest;
      assert ParseSpring(rest) == Failed;
      assert ParseSprings(rest) == Failed;
      assert [ss[0]] == ss;
    }
  }

  /** One number followed by a comma and a list that parses: the number joins
      the front of the list. */
  lemma GroupsCons(n: nat, tail: string, ns: seq<int>, rest: string)
    requires n <= I64_MAX
    requires ParseGroup(tail) == Parsed(ns, rest)
    ensures ParseGroup(Decimal(n) + ("," + tail)) == Parsed([n] + ns, rest)
  {
    var afterFirst := "," + tail;
    UnsignedDecimal(n, I64_MAX, afterFirst);
    assert afterFirst[1..] == tail;
  }

  /** The last number of a list: what follows is neither a digit nor a comma. */
  lemma GroupsLast(n: nat, rest: string)
    requires n <= I64_MAX
    requires rest == [] || (!IsDigit(rest[0]) && rest[0] != ',')
    ensures ParseGroup(Decimal(n) + rest) == Parsed([n], rest)
  {
    UnsignedDecimal(n, I64_MAX, rest);
  }

  predicate GroupsInRange(gs: seq<int>)
  {
    forall i | 0 <= i < |gs| :: 0 <= gs[i] <= I64_MAX
  }

  lemma RenderGroupsCons(gs: seq<int>, rest: string)
    requires |gs| > 1 && GroupsInRange(gs)
    ensures GroupsInRange(gs[1..])
    ensures RenderGroups(gs) + rest == Decimal(gs[0]) + ("," + (RenderGroups(gs[1..]) + rest))
  {
    forall i | 0 <= i < |gs| - 1 ensures 0 <= gs[1..][i] <= I64_MAX {
      assert gs[1..][i] == gs[i + 1];
    }
  }

  lemma {:induction false} GroupsRoundTrip(gs: seq<int>, rest: string)
    requires |gs| > 0 && GroupsInRange(gs)
    requires rest == [] || (!IsDigit(rest[0]) && rest[0] != ',')
    ensures ParseGroup(RenderGroups(gs) + rest) == Parsed(gs, rest)
  {
    if |gs| == 1 {
      assert RenderGroups(gs) + rest == Decimal(gs[0]) + rest;
      GroupsLast(gs[0], rest);
      assert [gs[0]] == gs;
    } else {
      var more := gs[1..];
      assert [gs[0]] + more == gs;
      RenderGroupsCons(gs, rest);
      GroupsRoundTrip(more, rest);
      GroupsCons(gs[0], RenderGroups(more) + rest, more, rest);
    }
  }

  /** A rendered line parses back to the same row, and the text after it is
      left untouched. */
  lemma LineRoundTrip(row: Row, rest: string)
    requires Renderable(row)
    ensures ParseLine(RenderRow(row) + rest) == Parsed(row, rest)
  {
    var gs := row.groups;
    var afterSprings := " " + RenderGroups(gs) + "\n" + rest;
    assert RenderRow(row) + rest == RenderSprings(row.springs) + afterSprings;
    SpringsRoundTrip(row.springs, afterSprings);
    var afterSpace := RenderGroups(gs) + ("\n" + rest);
    assert afterSprings == " " + afterSpace;
    assert Tag(afterSprings, " ") == Parsed(" ", afterSpace);
    GroupsRoundTrip(gs, "\n" + rest);
    assert SkipLineEnding("\n" + rest) == rest;
  }

  lemma RenderRowsCons(rows: seq<Row>)
    requires |rows| > 0 && AllRenderable(rows)
    ensures Renderable(rows[0]) && AllRenderable(rows[1..])
    ensures RenderRows(rows) == RenderRow(rows[0]) + RenderRows(rows[1..])
  {
    forall i | 0 <= i < |rows| - 1 ensures Renderable(rows[1..][i]) {
      assert rows[1..][i] == rows[i + 1];
    }
  }

  lemma InputStep(input: string, row: Row, rest: string, rows: seq<Row>)
    requires ParseLine(input) == Parsed(row, rest)
    requires ParseInput(rest) == Parsed(rows, [])
    ensures ParseInput(input) == Parsed([row] + rows, [])
  {
  }

  lemma InputCons(row: Row, rest: string, rows: seq<Row>)
    requires Renderable(row) && ParseInput(rest) == Parsed(rows, [])
    ensures ParseInput(RenderRow(row) + rest) == Parsed([row] + rows, [])
  {
    LineRoundTrip(row, rest);
    InputStep(RenderRow(row) + rest, row, rest, rows);
  }

  lemma InputSingle(rows: seq<Row>)
    requires |rows| == 1 && AllRenderable(rows)
    ensures ParseInput(RenderRows(rows)) == Parsed(rows, [])
  {
    RenderRowsCons(rows);
    LineRoundTrip(rows[0], []);
    assert RenderRows(rows) == RenderRow(rows[0]) + [];
    assert ParseSpring([]) == Failed;
    assert ParseLine([]) == Failed;
    assert [rows[0]] == rows;
  }

  /** Rendered rows parse back to the same rows with nothing left over. */
  lemma {:induction false} InputRoundTrip(rows: seq<Row>)
    requires |rows| > 0 && AllRenderable(rows)
    ensures ParseInput(RenderRows(rows)) == Parsed(rows, [])
  {
    if |rows| > 1 {
      RenderRowsCons(rows);
      InputRoundTrip(rows[1..]);
      InputCons(rows[0], RenderRows(rows[1..]), rows[1..]);
      assert [rows[0]] + rows[1..] == rows;
    } else {
      InputSingle(rows);
    }
  }

  // ---------------------------------------------------------------------
  // Run lengths and `groups_valid`

  predicate Known(s: seq<Spring>) { forall i | 0 <= i < |s| :: s[i] != Unknown }

  /** The lengths of the maximal runs of damaged springs, left to right. */
  function RunLengths(s: seq<Spring>): (r: seq<nat>)
    ensures forall i | 0 <= i < |r| :: r[i] > 0
    ensures |s| > 0 && s[|s| - 1] == Damaged ==> |r| > 0
  {
    if s == [] then []
    else
      var r := RunLengths(s[..|s| - 1]);
      if s[|s| - 1] != Damaged then r
      else if |s| > 1 && s[|s| - 2] == Damaged then r[..|r| - 1] + [r[|r| - 1] + 1]
      else r + [1]
  }

  /** A row agrees with its run lengths: no unknown spring, and the damaged
      runs have exactly the listed lengths, in order. */
  predicate Arranged(s: seq<Spring>, groups: seq<int>)
  {
    Known(s) && RunLengths(s) == groups
  }

  predicate EndsOpen(s: seq<Spring>) { |s| > 0 && s[|s| - 1] == Damaged }

  /** Appending one spring: anything but a damaged one leaves the runs
      alone; a damaged one lengthens the open run or starts a new one. */
  lemma RunLengthsSnoc(s: seq<Spring>, x: Spring)
    ensures RunLengths(s + [x]) ==
      if x != Damaged then RunLengths(s)
      else if EndsOpen(s) then RunLengths(s)[..|RunLengths(s)| - 1] + [RunLengths(s)[|RunLengths(s)| - 1] + 1]
      else RunLengths(s) + [1]
  {
    var t := s + [x];
    assert t[..|t| - 1] == s;
    assert t[|t| - 1] == x;
    assert |t| > 1 ==> t[|t| - 2] == s[|s| - 1];
  }

  /** Appending springs never removes a run, never shortens the last run
      of the prefix, and leaves it alone when it was already finished. */
  lemma {:induction false} RunLengthsExtend(p: seq<Spring>, q: seq<Spring>)
    ensures |RunLengths(p + q)| >= |RunLengths(p)|
    ensures |RunLengths(p)| > 0 ==>
      RunLengths(p + q)[|RunLengths(p)| - 1] >= RunLengths(p)[|RunLengths(p)| - 1]
    ensures |RunLengths(p)| > 0 && !EndsOpen(p) ==>
      RunLengths(p + q)[|RunLengths(p)| - 1] == RunLengths(p)[|RunLengths(p)| - 1]
    ensures !EndsOpen(p) && EndsOpen(p + q) ==> |RunLengths(p + q)| > |RunLengths(p)|
    decreases |q|
  {
    if q == [] {
      assert p + q == p;
    } else {
      var q', x := q[..|q| - 1], q[|q| - 1];
      var s := p + q';
      RunLengthsExtend(p, q');
      assert p + q == s + [x];
      RunLengthsSnoc(s, x);
      if x == Damaged && !EndsOpen(s) && !EndsOpen(p) {
        assert |q'| > 0 ==> s[|s| - 1] == q'[|q'| - 1];
      }
    }
  }

  /** A prefix whose runs already contradict `groups` rules out the whole row:
      too many runs, a run already too long, or a finished run of the wrong
      length. */
  lemma PrefixRejects(springs: seq<Spring>, n: nat, groups: seq<int>)
    requires n <= |springs|
    requires var r := RunLengths(springs[..n]);
      |r| > 0 &&
      (|r| > |groups|
       || r[|r| - 1] > groups[|r| - 1]
       || (!EndsOpen(springs[..n]) && r[|r| - 1] != groups[|r| - 1]))
    ensures RunLengths(springs) != groups
  {
    RunLengthsExtend(springs[..n], springs[n..]);
    assert springs[..n] + springs[n..] == springs;
  }

  // One step of the scan, seen on the run lengths of the prefix read so far.

  lemma StartRun(p: seq<Spring>)
    requires !EndsOpen(p)
    ensures RunLengths(p + [Damaged]) == RunLengths(p) + [1]
    ensures EndsOpen(p + [Damaged])
  {
    RunLengthsSnoc(p, Damaged);
  }

  lemma ExtendRun(p: seq<Spring>)
    requires EndsOpen(p)
    ensures var r, r' := RunLengths(p), RunLengths(p + [Damaged]);
      |r| > 0 && |r'| == |r| && r'[..|r| - 1] == r[..|r| - 1] && r'[|r| - 1] == r[|r| - 1] + 1
    ensures EndsOpen(p + [Damaged])
  {
    RunLengthsSnoc(p, Damaged);
  }

  lemma CloseRun(p: seq<Spring>)
    ensures RunLengths(p + [Operational]) == RunLengths(p)
    ensures !EndsOpen(p + [Operational])
  {
    RunLengthsSnoc(p, Operational);
  }

  /** What `groups_valid` knows after reading the prefix `p` without
      rejecting it: `next` groups handed out, `group` the part of the current
      one still to be matched, and the prefix's runs agreeing with them. */
  ghost predicate Scanned(p: seq<Spring>, groups: seq<int>, group: Option<int>, next: int)
  {
    && Known(p) && 0 <= next <= |groups|
    && if EndsOpen(p) then
         && group.Some? && next >= 1 && |RunLengths(p)| == next
         && RunLengths(p)[..next - 1] == groups[..next - 1]
         && group.value == groups[next - 1] - RunLengths(p)[next - 1]
         && group.value >= 0
       else
         group == None && RunLengths(p) == groups[..next]
  }

  lemma ScanDamagedInRun(springs: seq<Spring>, i: nat, groups: seq<int>, g: int, next: int)
    requires i < |springs| && springs[i] == Damaged && Scanned(springs[..i], groups, Some(g), next)
    ensures g == 0 ==> !Arranged(springs, groups)
    ensures g != 0 ==> Scanned(springs[..i + 1], groups, Some(g - 1), next)
  {
    assert springs[..i + 1] == springs[..i] + [Damaged];
    ExtendRun(springs[..i]);
    if g == 0 {
      PrefixRejects(springs, i + 1, groups);
    }
  }

  lemma ScanDamagedNewRun(springs: seq<Spring>, i: nat, groups: seq<int>, next: int)
    requires i < |springs| && springs[i] == Damaged && Scanned(springs[..i], groups, None, next)
    ensures next == |groups| ==> !Arranged(springs, groups)
    ensures next < |groups| && groups[next] - 1 < 0 ==> !Arranged(springs, groups)
    ensures next < |groups| && groups[next] - 1 >= 0 ==>
      Scanned(springs[..i + 1], groups, Some(groups[next] - 1), next + 1)
  {
    var p := springs[..i];
    assert springs[..i + 1] == p + [Damaged];
    StartRun(p);
    RunOpens(RunLengths(p), groups, next);
    if next == |groups| || groups[next] - 1 < 0 {
      PrefixRejects(springs, i + 1, groups);
    }
  }

  /** A new run of one spring after runs that match the first `next` groups. */
  lemma RunOpens(r: seq<nat>, groups: seq<int>, next: int)
    requires 0 <= next <= |groups| && r == groups[..next]
    ensures |r + [1]| == next + 1 && (r + [1])[..next] == groups[..next] && (r + [1])[next] == 1
  {
    assert (r + [1])[..next] == r;
  }

  lemma ScanOperational(springs: seq<Spring>, i: nat, groups: seq<int>, group: Option<int>, next: int)
    requires i < |springs| && springs[i] == Operational && Scanned(springs[..i], groups, group, next)
    ensures group.Some? && group.value != 0 ==> !Arranged(springs, groups)
    ensures group.None? || group.value == 0 ==> Scanned(springs[..i + 1], groups, None, next)
  {
    var p := springs[..i];
    assert springs[..i + 1] == p + [Operational];
    CloseRun(p);
    if group.Some? {
      if group.value != 0 {
        PrefixRejects(springs, i + 1, groups);
      } else {
        RunClosesExactly(RunLengths(p), groups, next);
      }
    }
  }

  /** A run that has used up its group leaves the runs equal to the groups
      handed out so far. */
  lemma RunClosesExactly(r: seq<nat>, groups: seq<int>, next: int)
    requires 1 <= next <= |groups| && |r| == next
    requires r[..next - 1] == groups[..next - 1] && groups[next - 1] - r[next - 1] == 0
    ensures r == groups[..next]
  {
    assert r == r[..next - 1] + [r[next - 1]];
    assert groups[..next] == groups[..next - 1] + [groups[next - 1]];
  }

  lemma ScanEnd(springs: seq<Spring>, groups: seq<int>, group: Option<int>, next: int)
    requires Scanned(springs, groups, group, next)
    ensures Arranged(springs, groups) <==> (group == Some(0) || group == None) && next == |groups|
  {
    if EndsOpen(springs) && group == Some(0) {
      RunClosesExactly(RunLengths(springs), groups, next);
    }
  }

  /** `groups_valid`: walks the springs once, counting down the current
      group, and rejects at the first spring that cannot agree. */
  method GroupsValid(springs: seq<Spring>, groups: seq<int>) returns (valid: bool)
    ensures valid <==> Arranged(springs, groups)
  {
    var group: Option<int> := None;
    var next := 0;  // how many groups the iterator has handed out
    for i := 0 to |springs|
      invariant Scanned(springs[..i], groups, group, next)
    {
      match springs[i]
      case Unknown =>
        return false;
      case Damaged =>
        if group.Some? {
          ScanDamagedInRun(springs, i, groups, group.value, next);
          if group.value == 0 {
            return false;
          }
          group := Some(group.value - 1);
        } else {
          ScanDamagedNewRun(springs, i, groups, next);
          if next == |groups| {
            return false;
          }
          group := Some(groups[next] - 1);
          next := next + 1;
          if group.value < 0 {
            return false;
          }
        }
      case Operational =>
        ScanOperational(springs, i, groups, group, next);
        if group.Some? {
          if group.value == 0 {
            group := None;
          } else {
            return false;
          }
        }
    }
    assert springs[..|springs|] == springs;
    ScanEnd(springs, groups, group, next);
    valid := (group == Some(0) || group == None) && next == |groups|;
  }

  // ---------------------------------------------------------------------
  // Completions and `choices`

  function Prepend(x: Spring, cs: seq<seq<Spring>>): (r: seq<seq<Spring>>)
    ensures |r| == |cs| && forall i | 0 <= i < |cs| :: r[i] == [x] + cs[i]
  {
    seq(|cs|, i requires 0 <= i < |cs| => [x] + cs[i])
  }

  /** Every way of reading each unknown spring as damaged or operational, in
      the order `choices` visits them (damaged first). */
  function Completions(s: seq<Spring>): seq<seq<Spring>>
  {
    if s == [] then [[]]
    else
      var tails := Completions(s[1..]);
      if s[0] == Unknown then Prepend(Damaged, tails) + Prepend(Operational, tails)
      else Prepend(s[0], tails)
  }

  /** `c` is one way of filling in `s`: same length, nothing unknown, and
      every known spring of `s` kept. */
  predicate Completes(c: seq<Spring>, s: seq<Spring>)
  {
    |c| == |s| && Known(c) && forall i | 0 <= i < |s| && s[i] != Unknown :: c[i] == s[i]
  }

  function UnknownCount(s: seq<Spring>): nat
  {
    if s == [] then 0 else (if s[0] == Unknown then 1 else 0) + UnknownCount(s[1..])
  }

  function Pow2(n: nat): nat { if n == 0 then 1 else 2 * Pow2(n - 1) }

  lemma PrependMember(x: Spring, cs: seq<seq<Spring>>, c: seq<Spring>)
    ensures c in Prepend(x, cs) <==> |c| > 0 && c[0] == x && c[1..] in cs
  {
    if |c| > 0 && c[0] == x && c[1..] in cs {
      var k :| 0 <= k < |cs| && cs[k] == c[1..];
      assert Prepend(x, cs)[k] == c;
    }
    if c in Prepend(x, cs) {
      var k :| 0 <= k < |cs| && Prepend(x, cs)[k] == c;
      assert c[1..] == cs[k];
    }
  }

  lemma CompletesStep(c: seq<Spring>, s: seq<Spring>)
    requires |c| > 0 && |s| > 0
    ensures Completes(c, s) <==>
      (c[0] != Unknown && (s[0] != Unknown ==> c[0] == s[0]) && Completes(c[1..], s[1..]))
  {
    if Completes(c[1..], s[1..]) && c[0] != Unknown && (s[0] != Unknown ==> c[0] == s[0]) {
      forall i | 0 <= i < |c| ensures c[i] != Unknown {
        if i > 0 { assert c[i] == c[1..][i - 1]; }
      }
      forall i | 0 <= i < |s| && s[i] != Unknown ensures c[i] == s[i] {
        if i > 0 { assert c[i] == c[1..][i - 1] && s[i] == s[1..][i - 1]; }
      }
    }
  }

  /** `Completions(s)` lists exactly the ways of filling in `s`. */
  lemma {:induction false} CompletionsExact(s: seq<Spring>, c: seq<Spring>)
    ensures c in Completions(s) <==> Completes(c, s)
  {
    if s == [] {
      assert Completes(c, s) <==> c == [];
    } else {
      var tails := Completions(s[1..]);
      PrependMember(Damaged, tails, c);
      PrependMember(Operational, tails, c);
      PrependMember(s[0], tails, c);
      if |c| > 0 {
        CompletionsExact(s[1..], c[1..]);
        CompletesStep(c, s);
      }
    }
  }

  /** No way of filling in `s` is listed twice. */
  lemma {:induction false} CompletionsDistinct(s: seq<Spring>)
    ensures forall i, j | 0 <= i < j < |Completions(s)| :: Completions(s)[i] != Completions(s)[j]
  {
    if s != [] {
      var tails := Completions(s[1..]);
      CompletionsDistinct(s[1..]);
      var cs := Completions(s);
      forall i, j | 0 <= i < j < |cs| ensures cs[i] != cs[j] {
        assert cs[i][1..] == (if i < |tails| then tails[i] else tails[i - |tails|]);
        assert cs[j][1..] == (if j < |tails| then tails[j] else tails[j - |tails|]);
      }
    }
  }

  lemma {:induction false} CompletionsCount(s: seq<Spring>)
    ensures |Completions(s)| == Pow2(UnknownCount(s))
  {
    if s != [] {
      CompletionsCount(s[1..]);
    }
  }

  /** A row with nothing unknown has itself as its only completion. */
  lemma {:induction false} CompletionsKnown(s: seq<Spring>)
    requires Known(s)
    ensures Completions(s) == [s]
  {
    if s != [] {
      CompletionsKnown(s[1..]);
      assert [s[0]] + s[1..] == s;
    }
  }

  /** Splitting at the first unknown spring: its completions are those with
      that spring damaged, followed by those with it operational. */
  lemma {:induction false} CompletionsSplit(s: seq<Spring>, i: nat)
    requires i < |s| && s[i] == Unknown && Known(s[..i])
    ensures Completions(s) == Completions(s[i := Damaged]) + Completions(s[i := Operational])
  {
    var d, o := s[i := Damaged], s[i := Operational];
    if i == 0 {
      assert d[1..] == s[1..] && o[1..] == s[1..];
      CompletionsKnownHead(d);
      CompletionsKnownHead(o);
    } else {
      assert s[1..][..i - 1] == s[..i][1..];
      assert s[0] == s[..i][0];
      CompletionsSplit(s[1..], i - 1);
      assert d[1..] == s[1..][i - 1 := Damaged];
      assert o[1..] == s[1..][i - 1 := Operational];
      CompletionsKnownHead(s);
      CompletionsKnownHead(d);
      CompletionsKnownHead(o);
      PrependAppend(s[0], Completions(d[1..]), Completions(o[1..]));
    }
  }

  /** A known first spring is kept in front of every completion of the rest. */
  lemma CompletionsKnownHead(s: seq<Spring>)
    requires |s| > 0 && s[0] != Unknown
    ensures Completions(s) == Prepend(s[0], Completions(s[1..]))
  {
  }

  lemma PrependAppend(x: Spring, a: seq<seq<Spring>>, b: seq<seq<Spring>>)
    ensures Prepend(x, a + b) == Prepend(x, a) + Prepend(x, b)
  {
  }

  function CountArranged(cs: seq<seq<Spring>>, groups: seq<int>): (n: nat)
    ensures n <= |cs|
  {
    if cs == [] then 0 else (if Arranged(cs[0], groups) then 1 else 0) + CountArranged(cs[1..], groups)
  }

  lemma {:induction false} CountArrangedAppend(a: seq<seq<Spring>>, b: seq<seq<Spring>>, groups: seq<int>)
    ensures CountArranged(a + b, groups) == CountArranged(a, groups) + CountArranged(b, groups)
  {
    if a == [] {
      assert a + b == b;
    } else {
      CountArrangedAppend(a[1..], b, groups);
      assert (a + b)[0] == a[0];
      assert (a + b)[1..] == a[1..] + b;
    }
  }

  /** The number of completions of a row that agree with its run lengths. */
  function Arrangements(row: Row): (n: nat)
    ensures n <= Pow2(UnknownCount(row.springs))
  {
    CompletionsCount(row.springs);
    CountArranged(Completions(row.springs), row.groups)
  }

  /** Counting a list without repeats is counting the set of its members. */
  lemma {:induction false} CountArrangedAsSet(cs: seq<seq<Spring>>, groups: seq<int>)
    requires forall i, j | 0 <= i < j < |cs| :: cs[i] != cs[j]
    ensures CountArranged(cs, groups) == |set c | c in cs && Arranged(c, groups)|
  {
    if cs != [] {
      CountArrangedAsSet(cs[1..], groups);
      var rest := set c | c in cs[1..] && Arranged(c, groups);
      var all := set c | c in cs && Arranged(c, groups);
      assert cs[0] !in cs[1..];
      if Arranged(cs[0], groups) {
        assert all == rest + {cs[0]};
      } else {
        assert all == rest;
      }
    }
  }

  /** The count is the number of distinct fillings of the unknown springs
      that agree with the run lengths, and there are at most 2^(unknowns). */
  lemma ArrangementsMeaning(row: Row)
    ensures Arrangements(row) == |set c | c in Completions(row.springs) && Arranged(c, row.groups)|
    ensures forall c :: c in Completions(row.springs) <==> Completes(c, row.springs)
    ensures Arrangements(row) <= Pow2(UnknownCount(row.springs))
  {
    CompletionsDistinct(row.springs);
    CountArrangedAsSet(Completions(row.springs), row.groups);
    forall c { CompletionsExact(row.springs, c); }
    CompletionsCount(row.springs);
  }

  /** A row with nothing unknown counts 1 when it agrees with its run lengths
      and 0 otherwise. */
  lemma ArrangementsKnown(row: Row)
    requires Known(row.springs)
    ensures Arrangements(row) == if Arranged(row.springs, row.groups) then 1 else 0
  {
    CompletionsKnown(row.springs);
  }

  lemma {:induction false} UnknownCountUpdate(s: seq<Spring>, i: nat, x: Spring)
    requires i < |s| && s[i] == Unknown && x != Unknown
    ensures UnknownCount(s[i := x]) == UnknownCount(s) - 1
  {
    if i > 0 {
      UnknownCountUpdate(s[1..], i - 1, x);
      assert s[i := x][1..] == s[1..][i - 1 := x];
    }
  }

  /** `choices`: finds the first unknown spring, counts the completions with it
      damaged and then with it operational; with nothing unknown left, asks
      `groups_valid`. */
  method Choices(row: Row) returns (count: nat)
    ensures count == Arrangements(row)
    decreases UnknownCount(row.springs)
  {
    var springs := row.springs;
    for i := 0 to |springs|
      invariant Known(springs[..i])
    {
      if springs[i] == Unknown {
        UnknownCountUpdate(springs, i, Damaged);
        UnknownCountUpdate(springs, i, Operational);
        CompletionsSplit(springs, i);
        CountArrangedAppend(Completions(springs[i := Damaged]), Completions(springs[i := Operational]), row.groups);
        var damaged := Choices(Row(springs[i := Damaged], row.groups));
        var operational := Choices(Row(springs[i := Operational], row.groups));
        return damaged + operational;
      }
      assert springs[..i + 1] == springs[..i] + [springs[i]];
    }
    assert springs[..|springs|] == springs;
    ArrangementsKnown(row);
    var valid := GroupsValid(springs, row.groups);
    count := if valid then 1 else 0;
  }

  function TotalArrangements(rows: seq<Row>): nat
  {
    if rows == [] then 0 else Arrangements(rows[0]) + TotalArrangements(rows[1..])
  }

  lemma {:induction false} TotalArrangementsSnoc(rows: seq<Row>, row: Row)
    ensures TotalArrangements(rows + [row]) == TotalArrangements(rows) + Arrangements(row)
  {
    if rows != [] {
      assert (rows + [row])[1..] == rows[1..] + [row];
      TotalArrangementsSnoc(rows[1..], row);
    }
  }

  /** `choice_sum`: the counts of all rows added up. */
  method ChoiceSum(rows: seq<Row>) returns (sum: nat)
    ensures sum == TotalArrangements(rows)
  {
    sum := 0;
    for i := 0 to |rows|
      invariant sum == TotalArrangements(rows[..i])
    {
      var c := Choices(rows[i]);
      TotalArrangementsSnoc(rows[..i], rows[i]);
      assert rows[..i + 1] == rows[..i] + [rows[i]];
      sum := sum + c;
    }
    assert rows[..|rows|] == rows;
  }
}
