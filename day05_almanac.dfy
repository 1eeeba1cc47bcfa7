/** Day 5, seed almanac: a list of seed ids, then groups of mappings, each
    mapping a range of source ids onto a range of destination ids. A seed
    goes through the groups in order; within a group the first mapping whose
    range holds the id rewrites it and an id no mapping holds passes through
    unchanged. The answer is the lowest id any seed ends up with. */
module SeedAlmanac {
  import opened Wrappers
  import opened Text

  /** Ids [from, from + count) are rewritten to [to, to + count). */
  datatype Mapping = Mapping(from: nat, to: nat, count: nat)

  datatype Almanac = Almanac(seeds: seq<nat>, mappings: seq<seq<Mapping>>)

  // ---------------------------------------------------------------------
  // Parsing

  /** `parse::<u64>()`. */
  function ParseU64(s: string): (r: Option<nat>)
    ensures r.Some? ==> r.value <= U64_MAX
  {
    match ParseInt(s, 0, U64_MAX)
    case None => None
    case Some(v) => Some(v as nat)
  }

  /** Every word parsed, or None when one of them is not a number. */
  function ParseAll(words: seq<string>): (r: Option<seq<nat>>)
    ensures r.Some? ==> |r.value| == |words|
    ensures r.Some? ==> forall i | 0 <= i < |r.value| :: r.value[i] <= U64_MAX
  {
    if words == [] then Some([])
    else
      match (ParseU64(words[0]), ParseAll(words[1..]))
      case (Some(v), Some(vs)) => Some([v] + vs)
      case _ => None
  }

  /** The first line: "seeds: " removed, the rest split at single spaces. */
  function ParseSeeds(line: string): Option<seq<nat>>
  {
    ParseAll(Split(ReplaceAll(line, "seeds: ", ""), ' '))
  }

  /** A mapping line "to from count"; words after the third are ignored. */
  function ParseMapping(line: string): Option<Mapping>
  {
    var parts := Split(line, ' ');
    if |parts| < 3 then None
    else
      match (ParseU64(parts[1]), ParseU64(parts[0]), ParseU64(parts[2]))
      case (Some(from), Some(to), Some(count)) => Some(Mapping(from, to, count))
      case _ => None
  }

  /** The loop over the remaining lines, given the groups pushed so far and
      the group being filled: a line containing "map:" pushes a non-empty
      group and starts a new one, a blank line is skipped, any other line
      adds a mapping; at the end the last group is pushed, even if empty. */
  function GroupLines(lines: seq<string>, mappings: seq<seq<Mapping>>, group: seq<Mapping>): (r: Option<seq<seq<Mapping>>>)
    ensures r.Some? ==> |r.value| > |mappings|
    decreases |lines|
  {
    if lines == [] then Some(mappings + [group])
    else if Contains(lines[0], "map:") then
      if |group| > 0 then GroupLines(lines[1..], mappings + [group], [])
      else GroupLines(lines[1..], mappings, group)
    else if lines[0] == "" then GroupLines(lines[1..], mappings, group)
    else
      match ParseMapping(lines[0])
      case None => None
      case Some(m) => GroupLines(lines[1..], mappings, group + [m])
  }

  /** What `parse_input` yields, or None where it would panic: no first
      line, or a number that does not parse. */
  function ParseAlmanac(input: string): (r: Option<Almanac>)
    ensures r.Some? ==> |r.value.mappings| >= 1
    ensures r.Some? ==> forall i | 0 <= i < |r.value.seeds| :: r.value.seeds[i] <= U64_MAX
  {
    var lines := Lines(input);
    if lines == [] then None
    else
      match (ParseSeeds(lines[0]), GroupLines(lines[1..], [], []))
      case (Some(seeds), Some(mappings)) => Some(Almanac(seeds, mappings))
      case _ => None
  }

  /** `parse_input`: the first line gives the seeds, then one pass over the
      other lines fills the groups. */
  method ParseInput(input: string) returns (r: Option<Almanac>)
    ensures r == ParseAlmanac(input)
  {
    var lines := Lines(input);
    if lines == [] {
      return None;
    }
    var seeds := ParseSeeds(lines[0]);
    if seeds.None? {
      return None;
    }
    var mappings: seq<seq<Mapping>> := [];
    var group: seq<Mapping> := [];
    var k := 1;
    while k < |lines|
      invariant 1 <= k <= |lines|
      invariant GroupLines(lines[k..], mappings, group) == GroupLines(lines[1..], [], [])
    {
      var line := lines[k];
      assert lines[k..][1..] == lines[k + 1..];
      if Contains(line, "map:") {
        if |group| > 0 {
          mappings := mappings + [group];
          group := [];
        }
      } else if line == "" {
      } else {
        var m := ParseMapping(line);
        if m.None? {
          return None;
        }
        group := group + [m.value];
      }
      k := k + 1;
    }
    mappings := mappings + [group];
    r := Some(Almanac(seeds.value, mappings));
  }

  // ---------------------------------------------------------------------
  // The text of an almanac, and the round trip through the parser

  function SeedsLine(seeds: seq<nat>): string
    requires |seeds| > 0
  {
    "seeds: " + Join(Decimals(seeds), ' ')
  }

  function MappingLine(m: Mapping): string
  {
    Join([Decimal(m.to), Decimal(m.from), Decimal(m.count)], ' ')
  }

  function MappingLines(group: seq<Mapping>): (ls: seq<string>)
    ensures |ls| == |group|
    ensures forall i | 0 <= i < |group| :: ls[i] == MappingLine(group[i])
  {
    if group == [] then [] else [MappingLine(group[0])] + MappingLines(group[1..])
  }

  /** Each group under its own header line. */
  function GroupsText(headers: seq<string>, groups: seq<seq<Mapping>>): seq<string>
    requires |headers| == |groups|
  {
    if groups == [] then []
    else [headers[0]] + MappingLines(groups[0]) + GroupsText(headers[1..], groups[1..])
  }

  function AlmanacLines(a: Almanac, headers: seq<string>): seq<string>
    requires |a.seeds| > 0 && |headers| == |a.mappings|
  {
    [SeedsLine(a.seeds)] + GroupsText(headers, a.mappings)
  }

  predicate MappingWritable(m: Mapping)
  {
    m.from <= U64_MAX && m.to <= U64_MAX && m.count <= U64_MAX
  }

  /** What the text form can carry: at least one seed, at least one group,
      no empty group, every number a u64, and headers that contain "map:"
      on a line of their own. */
  predicate Writable(a: Almanac, headers: seq<string>)
  {
    |a.seeds| > 0 && (forall i | 0 <= i < |a.seeds| :: a.seeds[i] <= U64_MAX) &&
    |a.mappings| > 0 && |headers| == |a.mappings| &&
    GroupsWritable(a.mappings) && Headers(headers)
  }

  predicate GroupWritable(group: seq<Mapping>)
  {
    forall j | 0 <= j < |group| :: MappingWritable(group[j])
  }

  predicate GroupsWritable(groups: seq<seq<Mapping>>)
  {
    forall i | 0 <= i < |groups| :: |groups[i]| > 0 && GroupWritable(groups[i])
  }

  predicate Headers(headers: seq<string>)
  {
    forall i | 0 <= i < |headers| :: HeaderLine(headers[i])
  }

  predicate HeaderLine(h: string)
  {
    Contains(h, "map:") && '\n' !in h && |h| > 0 && h[|h| - 1] != '\r'
  }

  lemma {:induction false} NotContains(s: string, pat: string)
    requires |pat| > 0 && pat[0] !in s
    ensures !Contains(s, pat)
    decreases |s|
  {
    if |s| > 0 {
      assert s[0] != pat[0];
      NotContains(s[1..], pat);
    }
  }

  lemma {:induction false} ParseAllDecimals(ns: seq<nat>)
    requires forall i | 0 <= i < |ns| :: ns[i] <= U64_MAX
    ensures ParseAll(Decimals(ns)) == Some(ns)
  {
    if ns != [] {
      var ws := Decimals(ns);
      assert ws[1..] == Decimals(ns[1..]);
      assert ParseU64(ws[0]) == Some(ns[0]) by {
        ParseIntDecimal(ns[0], 0, U64_MAX);
      }
      assert ParseAll(ws[1..]) == Some(ns[1..]) by {
        ParseAllDecimals(ns[1..]);
      }
      HeadTail(ns);
    }
  }

  /** The numbers joined by spaces contain no 's' and no line break. */
  lemma DecimalsJoined(ns: seq<nat>, c: char)
    requires |ns| > 0 && !IsDigit(c) && c != ' '
    ensures c !in Join(Decimals(ns), ' ')
  {
    forall i | 0 <= i < |ns|
      ensures c !in Decimals(ns)[i]
    {
      DecimalHasNo(ns[i], c);
    }
    JoinExcludes(Decimals(ns), ' ', c);
  }

  lemma SeedsRoundTrip(seeds: seq<nat>)
    requires |seeds| > 0 && forall i | 0 <= i < |seeds| :: seeds[i] <= U64_MAX
    ensures ParseSeeds(SeedsLine(seeds)) == Some(seeds)
  {
    var body := Join(Decimals(seeds), ' ');
    DecimalsJoined(seeds, 's');
    ReplaceAbsent(body, "seeds: ");
    assert StartsWith("seeds: " + body, "seeds: ");
    assert ("seeds: " + body)[|"seeds: "|..] == body;
    assert ReplaceAll(SeedsLine(seeds), "seeds: ", "") == body;
    forall i | 0 <= i < |seeds|
      ensures ' ' !in Decimals(seeds)[i]
    {
      DecimalHasNo(seeds[i], ' ');
    }
    SplitJoin(Decimals(seeds), ' ');
    ParseAllDecimals(seeds);
  }

  /** A mapping line "a b c" gives to = a, from = b and count = c. */
  lemma MappingRoundTrip(m: Mapping)
    requires MappingWritable(m)
    ensures ParseMapping(MappingLine(m)) == Some(m)
    ensures !Contains(MappingLine(m), "map:") && MappingLine(m) != ""
  {
    var parts := [Decimal(m.to), Decimal(m.from), Decimal(m.count)];
    DecimalHasNo(m.to, ' ');
    DecimalHasNo(m.from, ' ');
    DecimalHasNo(m.count, ' ');
    SplitJoin(parts, ' ');
    ParseIntDecimal(m.to, 0, U64_MAX);
    ParseIntDecimal(m.from, 0, U64_MAX);
    ParseIntDecimal(m.count, 0, U64_MAX);
    DecimalHasNo(m.to, 'm');
    DecimalHasNo(m.from, 'm');
    DecimalHasNo(m.count, 'm');
    JoinExcludes(parts, ' ', 'm');
    NotContains(MappingLine(m), "map:");
    assert |MappingLine(m)| >= |parts[0]| > 0 by {
      assert MappingLine(m) == parts[0] + [' '] + Join(parts[1..], ' ');
    }
  }

  /** One mapping line adds its mapping to the group being filled. */
  lemma MappingStep(lines: seq<string>, mappings: seq<seq<Mapping>>, pending: seq<Mapping>, m: Mapping)
    requires MappingWritable(m) && |lines| > 0 && lines[0] == MappingLine(m)
    ensures GroupLines(lines, mappings, pending) == GroupLines(lines[1..], mappings, pending + [m])
  {
    MappingRoundTrip(m);
  }

  /** The first of a group's lines adds its mapping to the group being
      filled. */
  lemma FirstMappingStep(group: seq<Mapping>, rest: seq<string>, mappings: seq<seq<Mapping>>, pending: seq<Mapping>)
    requires |group| > 0 && MappingWritable(group[0])
    ensures GroupLines(MappingLines(group) + rest, mappings, pending) ==
            GroupLines(MappingLines(group[1..]) + rest, mappings, pending + [group[0]])
  {
    var lines := MappingLines(group) + rest;
    assert lines[0] == MappingLine(group[0]) && lines[1..] == MappingLines(group[1..]) + rest by {
      assert MappingLines(group) == [MappingLine(group[0])] + MappingLines(group[1..]);
    }
    MappingStep(lines, mappings, pending, group[0]);
  }

  lemma GroupTail(group: seq<Mapping>, pending: seq<Mapping>)
    requires |group| > 0 && GroupWritable(group)
    ensures GroupWritable(group[1..])
    ensures pending + [group[0]] + group[1..] == pending + group
  {
    assert forall j | 0 <= j < |group| - 1 :: group[1..][j] == group[j + 1];
  }

  /** Mapping lines fill the current group, in order. */
  lemma {:induction false} GroupLinesOfMappings(group: seq<Mapping>, rest: seq<string>, mappings: seq<seq<Mapping>>, pending: seq<Mapping>)
    requires GroupWritable(group)
    ensures GroupLines(MappingLines(group) + rest, mappings, pending) == GroupLines(rest, mappings, pending + group)
  {
    if group == [] {
      assert MappingLines(group) + rest == rest;
      assert pending + group == pending;
    } else {
      FirstMappingStep(group, rest, mappings, pending);
      GroupTail(group, pending);
      GroupLinesOfMappings(group[1..], rest, mappings, pending + [group[0]]);
    }
  }

  /** The groups once a header (or the end of the text) closes `pending`. */
  function Pushed(mappings: seq<seq<Mapping>>, pending: seq<Mapping>): (r: seq<seq<Mapping>>)
    ensures |pending| == 0 ==> r == mappings
    ensures |pending| > 0 ==> r == mappings + [pending]
  {
    if |pending| > 0 then mappings + [pending] else mappings
  }

  /** A header line pushes the group being filled, unless it is empty. */
  lemma HeaderStep(lines: seq<string>, mappings: seq<seq<Mapping>>, pending: seq<Mapping>)
    requires |lines| > 0 && Contains(lines[0], "map:")
    ensures GroupLines(lines, mappings, pending) == GroupLines(lines[1..], Pushed(mappings, pending), [])
  {
  }

  /** A header and its mapping lines: the group before is pushed and the
      header's group becomes the one being filled. */
  lemma GroupStep(header: string, group: seq<Mapping>, after: seq<string>, mappings: seq<seq<Mapping>>, pending: seq<Mapping>)
    requires Contains(header, "map:") && GroupWritable(group)
    ensures GroupLines([header] + MappingLines(group) + after, mappings, pending) ==
      GroupLines(after, Pushed(mappings, pending), group)
  {
    var lines := [header] + MappingLines(group) + after;
    var pushed := Pushed(mappings, pending);
    assert lines[1..] == MappingLines(group) + after;
    assert GroupLines(lines, mappings, pending) == GroupLines(lines[1..], pushed, []) by {
      HeaderStep(lines, mappings, pending);
    }
    assert GroupLines(lines[1..], pushed, []) == GroupLines(after, pushed, group) by {
      GroupLinesOfMappings(group, after, pushed, []);
      assert [] + group == group;
    }
  }

  lemma SplitFirst<T>(front: seq<T>, s: seq<T>)
    requires |s| > 0
    ensures front + [s[0]] + s[1..] == front + s
  {
    assert [s[0]] + s[1..] == s;
  }

  lemma GroupsTail(headers: seq<string>, groups: seq<seq<Mapping>>)
    requires |groups| > 0 && |headers| == |groups|
    requires GroupsWritable(groups) && Headers(headers)
    ensures GroupsText(headers, groups) == [headers[0]] + MappingLines(groups[0]) + GroupsText(headers[1..], groups[1..])
    ensures Contains(headers[0], "map:") && GroupWritable(groups[0])
    ensures GroupsWritable(groups[1..]) && Headers(headers[1..])
  {
    assert HeaderLine(headers[0]);
    GroupsWritableTail(groups);
    HeadersTail(headers);
  }

  lemma GroupsWritableTail(groups: seq<seq<Mapping>>)
    requires |groups| > 0 && GroupsWritable(groups)
    ensures GroupWritable(groups[0]) && GroupsWritable(groups[1..])
  {
    assert forall j | 0 <= j < |groups| - 1 :: groups[1..][j] == groups[j + 1];
  }

  lemma HeadersTail(headers: seq<string>)
    requires |headers| > 0 && Headers(headers)
    ensures HeaderLine(headers[0]) && Headers(headers[1..])
  {
    assert forall j | 0 <= j < |headers| - 1 :: headers[1..][j] == headers[j + 1];
  }

  /** Each header closes the group before it (if any), and the end of the
      text closes the last one. */
  lemma {:induction false} GroupLinesOfGroups(headers: seq<string>, groups: seq<seq<Mapping>>, mappings: seq<seq<Mapping>>, pending: seq<Mapping>)
    requires |groups| > 0 && |headers| == |groups|
    requires GroupsWritable(groups) && Headers(headers)
    ensures GroupLines(GroupsText(headers, groups), mappings, pending) == Some(Pushed(mappings, pending) + groups)
    decreases |groups|
  {
    var pushed := Pushed(mappings, pending);
    GroupsTail(headers, groups);
    SplitFirst(pushed, groups);
    GroupStep(headers[0], groups[0], GroupsText(headers[1..], groups[1..]), mappings, pending);
    if |groups| == 1 {
      assert GroupsText(headers[1..], groups[1..]) == [];
      assert groups == [groups[0]];
    } else {
      GroupLinesOfGroups(headers[1..], groups[1..], pushed, groups[0]);
    }
  }

  /** A line `lines` gives back unchanged: no break inside, and not ending
      in a carriage return. */
  predicate LineOk(l: string)
  {
    '\n' !in l && |l| > 0 && l[|l| - 1] != '\r'
  }

  lemma DecimalsLast(ns: seq<nat>)
    requires |ns| > 0
    ensures var s := Join(Decimals(ns), ' '); |s| > 0 && IsDigit(s[|s| - 1])
  {
    var ws := Decimals(ns);
    var last := ws[|ws| - 1];
    assert AllDigits(last);
    JoinLast(ws, ' ');
  }

  lemma SeedsLineOk(seeds: seq<nat>)
    requires |seeds| > 0
    ensures LineOk(SeedsLine(seeds))
  {
    DecimalsJoined(seeds, '\n');
    DecimalsLast(seeds);
  }

  lemma MappingLineOk(m: Mapping)
    ensures LineOk(MappingLine(m))
  {
    var parts := [Decimal(m.to), Decimal(m.from), Decimal(m.count)];
    DecimalHasNo(m.to, '\n');
    DecimalHasNo(m.from, '\n');
    DecimalHasNo(m.count, '\n');
    JoinExcludes(parts, ' ', '\n');
    assert AllDigits(parts[2]);
    JoinLast(parts, ' ');
  }

  lemma {:induction false} GroupsTextOk(headers: seq<string>, groups: seq<seq<Mapping>>)
    requires |headers| == |groups|
    requires Headers(headers)
    ensures forall l | l in GroupsText(headers, groups) :: LineOk(l)
    decreases |groups|
  {
    if groups != [] {
      GroupsTextOk(headers[1..], groups[1..]);
      assert HeaderLine(headers[0]);
      forall l | l in MappingLines(groups[0])
        ensures LineOk(l)
      {
        var j :| 0 <= j < |groups[0]| && MappingLines(groups[0])[j] == l;
        MappingLineOk(groups[0][j]);
      }
    }
  }

  /** The lines of an almanac's text come back out of `Lines`. */
  lemma LinesOfAlmanac(a: Almanac, headers: seq<string>)
    requires Writable(a, headers)
    ensures Lines(Join(AlmanacLines(a, headers), '\n')) == AlmanacLines(a, headers)
  {
    var lines := AlmanacLines(a, headers);
    SeedsLineOk(a.seeds);
    GroupsTextOk(headers, a.mappings);
    assert forall l | l in lines :: LineOk(l);
    assert forall i | 0 <= i < |lines| :: LineOk(lines[i]);
    LinesOfJoined(lines);
  }

  /** Writing an almanac out as lines and parsing the text gives it back. */
  lemma AlmanacRoundTrip(a: Almanac, headers: seq<string>)
    requires Writable(a, headers)
    ensures ParseAlmanac(Join(AlmanacLines(a, headers), '\n')) == Some(a)
  {
    var lines := AlmanacLines(a, headers);
    assert Lines(Join(lines, '\n')) == lines by {
      LinesOfAlmanac(a, headers);
    }
    assert ParseSeeds(lines[0]) == Some(a.seeds) by {
      SeedsRoundTrip(a.seeds);
    }
    assert GroupLines(lines[1..], [], []) == Some(a.mappings) by {
      assert lines[1..] == GroupsText(headers, a.mappings) by {
        assert lines == [SeedsLine(a.seeds)] + GroupsText(headers, a.mappings);
      }
      GroupLinesOfGroups(headers, a.mappings, [], []);
      assert Pushed([], []) + a.mappings == a.mappings;
    }
  }

  // ---------------------------------------------------------------------
  // Following a seed through the groups

  predicate Matches(m: Mapping, id: nat)
  {
    m.from <= id < m.from + m.count
  }

  function Translate(m: Mapping, id: nat): nat
    requires Matches(m, id)
  {
    m.to + (id - m.from)
  }

  /** One group: the first mapping that holds the id rewrites it; without
      one the id passes through. */
  function ApplyGroup(group: seq<Mapping>, id: nat): (r: nat)
    ensures r == id || exists k | 0 <= k < |group| :: Matches(group[k], id) && r == Translate(group[k], id)
  {
    if group == [] then id
    else if Matches(group[0], id) then Translate(group[0], id)
    else
      assert forall k | 0 <= k < |group| - 1 :: group[1..][k] == group[k + 1];
      ApplyGroup(group[1..], id)
  }

  /** The first mapping that holds the id decides, and lands it in that
      mapping's destination range. */
  lemma {:induction false} ApplyGroupFirstMatch(group: seq<Mapping>, id: nat, k: nat)
    requires k < |group| && Matches(group[k], id)
    requires forall j | 0 <= j < k :: !Matches(group[j], id)
    ensures ApplyGroup(group, id) == Translate(group[k], id)
    ensures group[k].to <= ApplyGroup(group, id) < group[k].to + group[k].count
  {
    if k > 0 {
      assert !Matches(group[0], id);
      ApplyGroupFirstMatch(group[1..], id, k - 1);
    }
  }

  /** An id no mapping of the group holds passes through unchanged. */
  lemma {:induction false} ApplyGroupNoMatch(group: seq<Mapping>, id: nat)
    requires forall j | 0 <= j < |group| :: !Matches(group[j], id)
    ensures ApplyGroup(group, id) == id
  {
    if group != [] {
      assert !Matches(group[0], id);
      ApplyGroupNoMatch(group[1..], id);
    }
  }

  /** `id` lies in the destination range of some mapping of the groups. */
  predicate InSomeDestination(groups: seq<seq<Mapping>>, id: nat)
  {
    exists g, k | 0 <= g < |groups| && 0 <= k < |groups[g]| ::
      groups[g][k].to <= id < groups[g][k].to + groups[g][k].count
  }

  /** The id after every group, in order. */
  function Location(groups: seq<seq<Mapping>>, seed: nat): (l: nat)
    ensures l == seed || InSomeDestination(groups, l)
  {
    if groups == [] then seed
    else
      var init, last := groups[..|groups| - 1], groups[|groups| - 1];
      assert forall g | 0 <= g < |groups| - 1 :: init[g] == groups[g];
      ApplyGroup(last, Location(init, seed))
  }

  /** Groups compose: the groups of `first` then those of `second`. */
  lemma {:induction false} LocationAppend(first: seq<seq<Mapping>>, second: seq<seq<Mapping>>, seed: nat)
    ensures Location(first + second, seed) == Location(second, Location(first, seed))
    decreases |second|
  {
    if second == [] {
      assert first + second == first;
    } else {
      var all := first + second;
      var init := second[..|second| - 1];
      assert all[..|all| - 1] == first + init;
      assert all[|all| - 1] == second[|second| - 1];
      LocationAppend(first, init, seed);
    }
  }

  /** The inner loop of `get_lowest_location_number` over one group. */
  method ApplyGroupLoop(group: seq<Mapping>, id: nat) returns (next: nat)
    ensures next == ApplyGroup(group, id)
  {
    next := id;
    var j := 0;
    while j < |group|
      invariant 0 <= j <= |group|
      invariant forall jj | 0 <= jj < j :: !Matches(group[jj], id)
    {
      var m := group[j];
      if id >= m.from && id < m.from + m.count {
        next := m.to + (id - m.from);
        ApplyGroupFirstMatch(group, id, j);
        return;
      }
      j := j + 1;
    }
    ApplyGroupNoMatch(group, id);
  }

  /** One seed through every group. */
  method LocationOf(groups: seq<seq<Mapping>>, seed: nat) returns (id: nat)
    ensures id == Location(groups, seed)
  {
    id := seed;
    for k := 0 to |groups|
      invariant id == Location(groups[..k], seed)
    {
      assert groups[..k + 1][..k] == groups[..k];
      id := ApplyGroupLoop(groups[k], id);
    }
    assert groups[..|groups|] == groups;
  }

  /** `min()`, or None for no values (where `unwrap` panics). */
  function Minimum(xs: seq<nat>): (r: Option<nat>)
    ensures r.None? <==> |xs| == 0
    ensures r.Some? ==> r.value in xs
    ensures r.Some? ==> forall i | 0 <= i < |xs| :: r.value <= xs[i]
  {
    if |xs| == 0 then None
    else
      match Minimum(xs[1..])
      case None => Some(xs[0])
      case Some(m) => Some(if xs[0] <= m then xs[0] else m)
  }

  /** The location of every seed, in seed order. */
  function Locations(a: Almanac): (ls: seq<nat>)
    ensures |ls| == |a.seeds|
  {
    seq(|a.seeds|, i requires 0 <= i < |a.seeds| => Location(a.mappings, a.seeds[i]))
  }

  /** `get_lowest_location_number`: each seed looked up, then the least
      location, or None where `min().unwrap()` panics on no seeds. */
  method LowestLocation(a: Almanac) returns (r: Option<nat>)
    ensures r == Minimum(Locations(a))
    ensures r.None? <==> |a.seeds| == 0
    ensures r.Some? ==> exists i | 0 <= i < |a.seeds| :: r.value == Location(a.mappings, a.seeds[i])
    ensures r.Some? ==> forall i | 0 <= i < |a.seeds| :: r.value <= Location(a.mappings, a.seeds[i])
  {
    var locations: seq<nat> := [];
    for i := 0 to |a.seeds|
      invariant locations == Locations(a)[..i]
    {
      var id := LocationOf(a.mappings, a.seeds[i]);
      locations := locations + [id];
    }
    assert locations == Locations(a);
    r := Minimum(locations);
    if r.Some? {
      var i :| 0 <= i < |locations| && locations[i] == r.value;
      assert r.value == Location(a.mappings, a.seeds[i]);
      forall k | 0 <= k < |a.seeds|
        ensures r.value <= Location(a.mappings, a.seeds[k])
      {
        assert locations[k] == Location(a.mappings, a.seeds[k]);
      }
    }
  }

  // ---------------------------------------------------------------------
  // Seed ranges

  /** `start..start + length`. */
  function Range(start: nat, length: nat): (r: seq<nat>)
    ensures |r| == length
    ensures forall i | 0 <= i < length :: r[i] == start + i
  {
    seq(length, i requires 0 <= i < length => start + i)
  }

  /** The seeds read as (start, length) pairs, each expanded in order; None
      for an odd count, where the last chunk has no length. */
  function SeedRanges(seeds: seq<nat>): (r: Option<seq<nat>>)
    ensures r.Some? <==> |seeds| % 2 == 0
    decreases |seeds|
  {
    if |seeds| == 0 then Some([])
    else if |seeds| == 1 then None
    else
      match SeedRanges(seeds[2..])
      case None => None
      case Some(rest) => Some(Range(seeds[0], seeds[1]) + rest)
  }

  /** Whether `x` lies in the range of pair number `p`. */
  predicate InPair(seeds: seq<nat>, p: nat, x: nat)
  {
    2 * p + 1 < |seeds| && seeds[2 * p] <= x < seeds[2 * p] + seeds[2 * p + 1]
  }

  /** The expansion succeeds exactly for an even count, and then holds
      exactly the values of the pairs' ranges. */
  lemma {:induction false} SeedRangesMembers(seeds: seq<nat>)
    ensures SeedRanges(seeds).Some? <==> |seeds| % 2 == 0
    ensures SeedRanges(seeds).Some? ==>
      forall x: nat :: x in SeedRanges(seeds).value <==> exists p: nat :: InPair(seeds, p, x)
    decreases |seeds|
  {
    if |seeds| >= 2 {
      var tail := seeds[2..];
      SeedRangesMembers(tail);
      if SeedRanges(seeds).Some? {
        var rest := SeedRanges(tail).value;
        var head := Range(seeds[0], seeds[1]);
        forall x: nat
          ensures x in SeedRanges(seeds).value <==> exists p: nat :: InPair(seeds, p, x)
        {
          if x in head {
            assert InPair(seeds, 0, x);
          } else if x in rest {
            var p: nat :| InPair(tail, p, x);
            assert InPair(seeds, p + 1, x);
          }
          if p: nat :| InPair(seeds, p, x) {
            if p == 0 {
              assert head[x - seeds[0]] == x;
            } else {
              assert InPair(tail, p - 1, x);
            }
          }
        }
      }
    }
  }

  /** `convert_seed_range`: the seeds replaced by their expanded ranges,
      the mappings kept. */
  function ConvertSeedRange(a: Almanac): (r: Option<Almanac>)
    ensures r.Some? <==> |a.seeds| % 2 == 0
    ensures r.Some? ==> r.value.mappings == a.mappings
    ensures r.Some? ==> forall x: nat :: x in r.value.seeds <==> exists p: nat :: InPair(a.seeds, p, x)
  {
    SeedRangesMembers(a.seeds);
    match SeedRanges(a.seeds)
    case None => None
    case Some(seeds) => Some(Almanac(seeds, a.mappings))
  }
}
