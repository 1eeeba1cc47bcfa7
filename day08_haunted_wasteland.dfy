/** Day 8, haunted wasteland: a line of left/right instructions and a
    network of nodes, each naming its left and right neighbour. A walk
    follows the instructions over and over until it reaches its goal. */
module HauntedWasteland {
  import opened Wrappers
  import opened Text

  datatype Direction = Left | Right

  datatype Node = Node(left: string, right: string)

  type Network = map<string, Node>

  // ---------------------------------------------------------------------
  // Parsing

  /** The first line: 'L' and 'R', or None where any other character
      panics. */
  function ParseDirections(line: string): (r: Option<seq<Direction>>)
    ensures r.Some? <==> forall i | 0 <= i < |line| :: line[i] == 'L' || line[i] == 'R'
    ensures r.Some? ==> |r.value| == |line|
    ensures r.Some? ==> forall i | 0 <= i < |line| :: (r.value[i] == Left <==> line[i] == 'L')
  {
    if line == [] then Some([])
    else
      var d := if line[0] == 'L' then Some(Left) else if line[0] == 'R' then Some(Right) else None;
      match (d, ParseDirections(line[1..]))
      case (Some(d), Some(ds)) => Some([d] + ds)
      case _ => None
  }

  /** A node line "N = (A, B)": split at " = ", the second piece split at
      ", ", '(' removed from the first half and ')' from the second. None
      where a missing piece makes `unwrap` panic. */
  function ParseNode(line: string): Option<(string, Node)>
  {
    var parts := SplitOn(line, " = ");
    if |parts| < 2 then None
    else
      var halves := SplitOn(parts[1], ", ");
      if |halves| < 2 then None
      else Some((parts[0], Node(ReplaceAll(halves[0], "(", ""), ReplaceAll(halves[1], ")", ""))))
  }

  /** The node lines in order, blank lines skipped, a later line for the
      same name replacing an earlier one. */
  function NodesOf(lines: seq<string>): Option<Network>
  {
    if lines == [] then Some(map[])
    else
      match NodesOf(lines[..|lines| - 1])
      case None => None
      case Some(nodes) => AddLine(nodes, lines[|lines| - 1])
  }

  /** One line of the loop: a blank line leaves the table alone. */
  function AddLine(nodes: Network, line: string): Option<Network>
  {
    if line == [] then Some(nodes)
    else
      match ParseNode(line)
      case None => None
      case Some((name, node)) => Some(nodes[name := node])
  }

  function ParseNetwork(input: string): Option<(seq<Direction>, Network)>
  {
    var lines := Lines(input);
    if lines == [] then None
    else
      match (ParseDirections(lines[0]), NodesOf(lines[1..]))
      case (Some(dirs), Some(nodes)) => Some((dirs, nodes))
      case _ => None
  }

  /** `parse_input`: the instructions, then each node line inserted into
      the table in turn. */
  method ParseInput(input: string) returns (r: Option<(seq<Direction>, Network)>)
    ensures r == ParseNetwork(input)
  {
    var lines := Lines(input);
    if lines == [] {
      return None;
    }
    var dirs := ParseDirections(lines[0]);
    if dirs.None? {
      return None;
    }
    var nodes: Network := map[];
    var rest := lines[1..];
    for k := 0 to |rest|
      invariant NodesOf(rest[..k]) == Some(nodes)
    {
      var line := rest[k];
      assert NodesOf(rest[..k + 1]) == AddLine(nodes, line) by {
        assert rest[..k + 1][..k] == rest[..k];
      }
      if line == [] {
        continue;
      }
      var parsed := ParseNode(line);
      if parsed.None? {
        NodesOfFails(rest, k + 1);
        assert rest[..|rest|] == rest;
        return None;
      }
      var (name, node) := parsed.value;
      nodes := nodes[name := node];
    }
    assert rest[..|rest|] == rest;
    r := Some((dirs.value, nodes));
  }

  /** Once a line fails to parse, so does every longer run of lines. */
  lemma {:induction false} NodesOfFails(lines: seq<string>, k: nat)
    requires k <= |lines| && NodesOf(lines[..k]).None?
    ensures NodesOf(lines).None?
    decreases |lines| - k
  {
    if k < |lines| {
      assert lines[..k + 1][..k] == lines[..k];
      NodesOfFails(lines, k + 1);
    } else {
      assert lines[..k] == lines;
    }
  }

  // ---------------------------------------------------------------------
  // Node lines written out and read back

  predicate NameChar(c: char)
  {
    'A' <= c <= 'Z' || 'a' <= c <= 'z' || '0' <= c <= '9'
  }

  predicate IsName(s: string)
  {
    forall i | 0 <= i < |s| :: NameChar(s[i])
  }

  function NodeLine(name: string, node: Node): string
  {
    name + " = " + ("(" + node.left + ", " + node.right + ")")
  }

  /** The first occurrence of `pat` is right after `a` when `a` holds no
      character `pat` starts with. */
  lemma FindAfter(a: string, pat: string, b: string)
    requires |pat| > 0 && pat[0] !in a
    ensures Find(a + pat + b, pat) == Some(|a|)
  {
    var s := a + pat + b;
    assert s[|a|..][..|pat|] == pat;
    assert StartsWith(s[|a|..], pat);
  }

  /** No occurrence where a character of the pattern is missing. */
  lemma FindMissing(s: string, pat: string, k: nat)
    requires k < |pat| && pat[k] !in s
    ensures Find(s, pat).None?
  {
  }

  lemma SplitOnAfter(a: string, pat: string, b: string)
    requires |pat| > 0 && pat[0] !in a
    ensures SplitOn(a + pat + b, pat) == [a] + SplitOn(b, pat)
  {
    var s := a + pat + b;
    FindAfter(a, pat, b);
    assert s[..|a|] == a;
    assert s[|a| + |pat|..] == b;
  }

  lemma SplitOnMissing(s: string, pat: string, k: nat)
    requires k < |pat| && pat[k] !in s
    ensures SplitOn(s, pat) == [s]
  {
    FindMissing(s, pat, k);
  }

  /** Removing a character that occurs only at the front. */
  lemma RemoveFront(c: char, s: string)
    requires c !in s
    ensures ReplaceAll([c] + s, [c], "") == s
  {
    var t := [c] + s;
    assert StartsWith(t, [c]);
    assert t[1..] == s;
    ReplaceMissing(s, c);
  }

  /** Removing a character that occurs only at the end. */
  lemma {:induction false} RemoveBack(s: string, c: char)
    requires c !in s
    ensures ReplaceAll(s + [c], [c], "") == s
    decreases |s|
  {
    var t := s + [c];
    if s == [] {
      assert StartsWith(t, [c]);
      assert t[1..] == [];
    } else {
      assert t[0] == s[0] && s[0] != c;
      assert t[..1] != [c];
      assert t[1..] == s[1..] + [c];
      RemoveBack(s[1..], c);
      assert s == [s[0]] + s[1..];
    }
  }

  lemma {:induction false} ReplaceMissing(s: string, c: char)
    requires c !in s
    ensures ReplaceAll(s, [c], "") == s
    decreases |s|
  {
    if s != [] {
      assert s[0] != c;
      assert s[..1] != [c];
      ReplaceMissing(s[1..], c);
      assert s == [s[0]] + s[1..];
    }
  }

  lemma NameExcludes(s: string, c: char)
    requires IsName(s) && !NameChar(c)
    ensures c !in s
  {
  }

  /** The part after " = ": "(A, B)" gives A and B back. */
  lemma ParseInner(left: string, right: string)
    requires IsName(left) && IsName(right)
    ensures var halves := SplitOn("(" + left + ", " + right + ")", ", ");
      |halves| >= 2 && ReplaceAll(halves[0], "(", "") == left && ReplaceAll(halves[1], ")", "") == right
  {
    var first := "(" + left;
    var second := right + ")";
    assert "(" + left + ", " + right + ")" == first + ", " + second;
    NameExcludes(left, ',');
    SplitOnAfter(first, ", ", second);
    NameExcludes(right, ',');
    SplitOnMissing(second, ", ", 0);
    NameExcludes(left, '(');
    RemoveFront('(', left);
    NameExcludes(right, ')');
    RemoveBack(right, ')');
  }

  lemma InnerHasNoEquals(left: string, right: string)
    requires IsName(left) && IsName(right)
    ensures '=' !in "(" + left + ", " + right + ")"
  {
    NameExcludes(left, '=');
    NameExcludes(right, '=');
    assert "(" + left + ", " + right + ")" == "(" + left + ", " + right + ")";
  }

  /** A node line written out from names reads back as that node. */
  lemma ParseNodeLine(name: string, node: Node)
    requires IsName(name) && IsName(node.left) && IsName(node.right)
    ensures ParseNode(NodeLine(name, node)) == Some((name, node))
  {
    var inner := "(" + node.left + ", " + node.right + ")";
    NameExcludes(name, ' ');
    SplitOnAfter(name, " = ", inner);
    InnerHasNoEquals(node.left, node.right);
    SplitOnMissing(inner, " = ", 1);
    ParseInner(node.left, node.right);
  }

  // ---------------------------------------------------------------------
  // Walking

  /** One step from `current` at step number `steps`: the instruction
      `steps mod len` picks a neighbour. None where the node is missing or
      there are no instructions, both of which panic. */
  function Step(dirs: seq<Direction>, nodes: Network, current: string, steps: nat): Option<string>
  {
    if current !in nodes || |dirs| == 0 then None
    else if dirs[steps % |dirs|] == Left then Some(nodes[current].left)
    else Some(nodes[current].right)
  }

  /** Where the walk from `start` is after `n` steps, if no step panicked. */
  function Walk(dirs: seq<Direction>, nodes: Network, start: string, n: nat): (r: Option<string>)
    ensures n > 0 && r.Some? ==> |dirs| > 0
    ensures n > 0 && r.Some? ==> exists c | c in nodes :: r.value == nodes[c].left || r.value == nodes[c].right
  {
    if n == 0 then Some(start)
    else
      match Walk(dirs, nodes, start, n - 1)
      case None => None
      case Some(c) => Step(dirs, nodes, c, n - 1)
  }

  /** When a walk stops: at one named node, or at any node whose name ends
      in a given character. */
  datatype Goal = Exactly(name: string) | EndsIn(c: char)

  predicate AtGoal(goal: Goal, name: string)
  {
    match goal
    case Exactly(n) => name == n
    case EndsIn(c) => |name| > 0 && name[|name| - 1] == c
  }

  /** How a walk ends: at the goal after some steps, with a panic, or (the
      source would loop on) still short of the goal when the step budget is
      spent. */
  datatype Outcome = Reached(steps: nat) | Panicked | OutOfFuel

  /** The walk from `current`, `steps` taken so far, at most `fuel` more. */
  function Search(dirs: seq<Direction>, nodes: Network, goal: Goal, current: string, steps: nat, fuel: nat): (r: Outcome)
    ensures r.Reached? ==> steps <= r.steps <= steps + fuel
    ensures r.Reached? && r.steps == steps ==> AtGoal(goal, current)
    decreases fuel
  {
    if AtGoal(goal, current) then Reached(steps)
    else if fuel == 0 then OutOfFuel
    else
      match Step(dirs, nodes, current, steps)
      case None => Panicked
      case Some(next) => Search(dirs, nodes, goal, next, steps + 1, fuel - 1)
  }

  /** The loop of `find_steps` and `find_steps_lower_bound`, cut off after
      `fuel` steps. */
  method WalkUntil(dirs: seq<Direction>, nodes: Network, start: string, goal: Goal, fuel: nat) returns (r: Outcome)
    ensures r == Search(dirs, nodes, goal, start, 0, fuel)
  {
    var current := start;
    var steps := 0;
    while !AtGoal(goal, current)
      invariant steps <= fuel
      invariant Search(dirs, nodes, goal, current, steps, fuel - steps) == Search(dirs, nodes, goal, start, 0, fuel)
      decreases fuel - steps
    {
      if steps == fuel {
        return OutOfFuel;
      }
      if current !in nodes || |dirs| == 0 {
        return Panicked;
      }
      var node := nodes[current];
      var direction := dirs[steps % |dirs|];
      current := match direction
        case Left => node.left
        case Right => node.right;
      steps := steps + 1;
    }
    r := Reached(steps);
  }

  /** `find_steps`: from "AAA" until "ZZZ". */
  method FindSteps(dirs: seq<Direction>, nodes: Network, fuel: nat) returns (r: Outcome)
    ensures r == Search(dirs, nodes, Exactly("ZZZ"), "AAA", 0, fuel)
  {
    r := WalkUntil(dirs, nodes, "AAA", Exactly("ZZZ"), fuel);
  }

  /** `find_steps_lower_bound`: from `start` until a name ending in 'Z'. */
  method FindStepsLowerBound(dirs: seq<Direction>, nodes: Network, start: string, fuel: nat) returns (r: Outcome)
    ensures r == Search(dirs, nodes, EndsIn('Z'), start, 0, fuel)
  {
    r := WalkUntil(dirs, nodes, start, EndsIn('Z'), fuel);
  }

  /** The search from step `steps` follows the walk from `start`. */
  lemma {:induction false} SearchMeaning(dirs: seq<Direction>, nodes: Network, goal: Goal, start: string, current: string, steps: nat, fuel: nat)
    requires Walk(dirs, nodes, start, steps) == Some(current)
    requires forall k | 0 <= k < steps :: Walk(dirs, nodes, start, k).Some? && !AtGoal(goal, Walk(dirs, nodes, start, k).value)
    ensures match Search(dirs, nodes, goal, current, steps, fuel)
      case Reached(n) =>
        steps <= n <= steps + fuel && Walk(dirs, nodes, start, n).Some? && AtGoal(goal, Walk(dirs, nodes, start, n).value) &&
        forall k | 0 <= k < n :: Walk(dirs, nodes, start, k).Some? && !AtGoal(goal, Walk(dirs, nodes, start, k).value)
      case Panicked =>
        exists n | steps < n <= steps + fuel :: Walk(dirs, nodes, start, n).None?
      case OutOfFuel =>
        forall k | 0 <= k <= steps + fuel :: Walk(dirs, nodes, start, k).Some? && !AtGoal(goal, Walk(dirs, nodes, start, k).value)
    decreases fuel
  {
    if AtGoal(goal, current) {
    } else if fuel == 0 {
    } else {
      match Step(dirs, nodes, current, steps)
      case None =>
        assert Walk(dirs, nodes, start, steps + 1).None?;
      case Some(next) =>
        assert Walk(dirs, nodes, start, steps + 1) == Some(next);
        SearchMeaning(dirs, nodes, goal, start, next, steps + 1, fuel - 1);
    }
  }

  /** A walk that reaches its goal stops at the least number of steps at
      which the walk is at the goal; a walk that panics does so within the
      budget; a walk out of fuel has not been at the goal. */
  lemma WalkUntilMeaning(dirs: seq<Direction>, nodes: Network, goal: Goal, start: string, fuel: nat)
    ensures match Search(dirs, nodes, goal, start, 0, fuel)
      case Reached(n) =>
        n <= fuel && Walk(dirs, nodes, start, n).Some? && AtGoal(goal, Walk(dirs, nodes, start, n).value) &&
        forall k | 0 <= k < n :: Walk(dirs, nodes, start, k).Some? && !AtGoal(goal, Walk(dirs, nodes, start, k).value)
      case Panicked =>
        exists n | 0 < n <= fuel :: Walk(dirs, nodes, start, n).None?
      case OutOfFuel =>
        forall k | 0 <= k <= fuel :: Walk(dirs, nodes, start, k).Some? && !AtGoal(goal, Walk(dirs, nodes, start, k).value)
  {
    SearchMeaning(dirs, nodes, goal, start, start, 0, fuel);
  }

  /** A start that already ends in 'Z' takes no steps. */
  lemma LowerBoundAtGoal(dirs: seq<Direction>, nodes: Network, start: string, fuel: nat)
    requires |start| > 0 && start[|start| - 1] == 'Z'
    ensures Search(dirs, nodes, EndsIn('Z'), start, 0, fuel) == Reached(0)
  {
  }

  /** The step taken at step number `s` uses instruction `s mod len`. */
  lemma WalkStep(dirs: seq<Direction>, nodes: Network, start: string, s: nat)
    requires Walk(dirs, nodes, start, s).Some? && |dirs| > 0
    requires Walk(dirs, nodes, start, s).value in nodes
    ensures var c := Walk(dirs, nodes, start, s).value;
      Walk(dirs, nodes, start, s + 1) ==
        Some(if dirs[s % |dirs|] == Left then nodes[c].left else nodes[c].right)
  {
  }

  // ---------------------------------------------------------------------
  // Greatest common divisor and least common multiple

  function Mul(d: nat, k: nat): nat
  {
    d * k
  }

  ghost predicate Divides(d: nat, n: nat)
  {
    exists k: nat :: n == Mul(d, k)
  }

  /** Dividing a multiple of `d` by `d`. */
  lemma DivMultiple(d: nat, k: nat)
    requires d > 0
    ensures (d * k) / d == k
  {
    var q, r := (d * k) / d, (d * k) % d;
    assert d * k == d * q + r && 0 <= r < d;
    assert d * (k - q) == r;
    if k - q >= 1 {
      assert false;
    } else if k - q <= -1 {
      assert false;
    }
  }

  /** Euclid's algorithm. */
  function Gcd(a: nat, b: nat): (g: nat)
    ensures a > 0 || b > 0 ==> g > 0
    decreases b
  {
    if b == 0 then a else Gcd(b, a % b)
  }

  /** The greatest common divisor divides both numbers. */
  lemma {:induction false} GcdDivides(a: nat, b: nat)
    ensures Divides(Gcd(a, b), a) && Divides(Gcd(a, b), b)
    decreases b
  {
    if b == 0 {
      assert a == Mul(a, 1) && 0 == Mul(a, 0);
    } else {
      var g := Gcd(b, a % b);
      GcdDivides(b, a % b);
      var x: nat :| b == Mul(g, x);
      var y: nat :| a % b == Mul(g, y);
      EuclidStep(a, b, g, x, y);
      assert a == Mul(g, x * (a / b) + y);
    }
  }

  /** A divisor of `b` and of `a % b` divides `a`. */
  lemma EuclidStep(a: nat, b: nat, g: nat, x: nat, y: nat)
    requires b > 0 && b == g * x && a % b == g * y
    ensures a == g * (x * (a / b) + y)
  {
    assert a == b * (a / b) + a % b;
  }

  /** A divisor of `a` and of `b` divides `a % b`. */
  lemma EuclidDivisor(a: nat, b: nat, d: nat, x: nat, y: nat)
    requires b > 0 && a == d * x && b == d * y
    ensures x - y * (a / b) >= 0 && a % b == d * (x - y * (a / b))
  {
    assert a % b == a - b * (a / b);
    assert a % b == d * (x - y * (a / b));
    FactorSign(d, x - y * (a / b));
  }

  /** Any common divisor divides the greatest one. */
  lemma {:induction false} GcdGreatest(a: nat, b: nat, d: nat)
    requires Divides(d, a) && Divides(d, b)
    ensures Divides(d, Gcd(a, b))
    decreases b
  {
    if b > 0 {
      var x: nat :| a == Mul(d, x);
      var y: nat :| b == Mul(d, y);
      EuclidDivisor(a, b, d, x, y);
      assert a % b == Mul(d, x - y * (a / b));
      GcdGreatest(b, a % b, d);
    }
  }

  /** The greatest common divisor is a combination of the two numbers. */
  lemma {:induction false} Bezout(a: nat, b: nat) returns (x: int, y: int)
    ensures x * a + y * b == Gcd(a, b)
    decreases b
  {
    if b == 0 {
      x, y := 1, 0;
    } else {
      var x', y' := Bezout(b, a % b);
      assert a % b == a - (a / b) * b;
      x, y := y', x' - y' * (a / b);
      calc {
        x * a + y * b;
        y' * a + x' * b - y' * (a / b) * b;
        x' * b + y' * (a - (a / b) * b);
      }
    }
  }

  /** `Integer::lcm`: 0 when both are 0, `a * (b / gcd)` otherwise. */
  function Lcm(a: nat, b: nat): (l: nat)
    ensures l == 0 <==> a == 0 || b == 0
  {
    if a == 0 && b == 0 then 0
    else
      QuotientZero(a, b);
      Mul(a, b / Gcd(a, b))
  }

  /** `a * (b / gcd)` vanishes exactly when one of the two numbers does. */
  lemma QuotientZero(a: nat, b: nat)
    requires a > 0 || b > 0
    ensures Mul(a, b / Gcd(a, b)) == 0 <==> a == 0 || b == 0
  {
    var g := Gcd(a, b);
    if b > 0 {
      GcdDivides(a, b);
      var k: nat :| b == Mul(g, k);
      DivMultiple(g, k);
      assert k >= 1;
    }
  }

  /** The least common multiple is a common multiple of both. */
  lemma LcmMultiple(a: nat, b: nat)
    ensures Divides(a, Lcm(a, b)) && Divides(b, Lcm(a, b))
    ensures a > 0 && b > 0 ==> Lcm(a, b) > 0
  {
    if a == 0 && b == 0 {
      assert 0 == Mul(0, 0);
    } else {
      var g := Gcd(a, b);
      GcdDivides(a, b);
      var a': nat :| a == Mul(g, a');
      var b': nat :| b == Mul(g, b');
      DivMultiple(g, b');
      assert Lcm(a, b) == Mul(a, b');
      assert a * b' == g * a' * b' == Mul(b, a');
    }
  }

  /** m·g, for a common multiple m = a·p = b·q and g = x·a + y·b. */
  lemma CombinedMultiple(m: int, g: int, a: int, b: int, x: int, y: int, p: int, q: int)
    requires g == x * a + y * b && m == a * p && m == b * q
    ensures m * g == a * b * (x * q + y * p)
  {
    calc {
      m * g;
      x * a * m + y * b * m;
      x * a * (b * q) + y * b * (a * p);
    }
  }

  lemma Regroup(a: int, b: int, g: int, b': int, t: int)
    requires b == g * b'
    ensures a * b * t == g * (a * b' * t)
  {
  }

  /** A non-negative multiple of a positive number has a non-negative
      factor. */
  lemma FactorSign(l: int, t: int)
    requires l > 0 && l * t >= 0
    ensures t >= 0
  {
  }

  lemma Cancel(g: int, m: int, c: int)
    requires g > 0 && g * m == g * c
    ensures m == c
  {
  }

  /** and it divides every common multiple. */
  lemma LcmLeast(a: nat, b: nat, m: nat)
    requires a > 0 && b > 0 && Divides(a, m) && Divides(b, m)
    ensures Divides(Lcm(a, b), m)
  {
    var g := Gcd(a, b);
    GcdDivides(a, b);
    var x, y := Bezout(a, b);
    var p: nat :| m == Mul(a, p);
    var q: nat :| m == Mul(b, q);
    var b': nat :| b == Mul(g, b');
    DivMultiple(g, b');
    var l := a * b';
    assert Lcm(a, b) == l;
    var t := x * q + y * p;
    CombinedMultiple(m, g, a, b, x, y, p, q);
    Regroup(a, b, g, b', t);
    Cancel(g, m, l * t);
    FactorSign(l, t);
    assert m == Mul(l, t);
  }

  /** The fold `lcm` from 1 over the step counts, in order. */
  function LcmAll(xs: seq<nat>): (l: nat)
    ensures l == 0 <==> 0 in xs
  {
    if xs == [] then 1
    else
      assert xs == xs[..|xs| - 1] + [xs[|xs| - 1]];
      Lcm(LcmAll(xs[..|xs| - 1]), xs[|xs| - 1])
  }

  /** For positive counts the fold is a positive common multiple of all of
      them and divides every common multiple: it is their least common
      multiple, whatever their order. */
  lemma {:induction false} LcmAllLeast(xs: seq<nat>)
    requires forall i | 0 <= i < |xs| :: xs[i] > 0
    ensures LcmAll(xs) > 0
    ensures forall i | 0 <= i < |xs| :: Divides(xs[i], LcmAll(xs))
    ensures forall m: nat | (forall i | 0 <= i < |xs| :: Divides(xs[i], m)) :: Divides(LcmAll(xs), m)
  {
    if xs == [] {
      forall m: nat
        ensures Divides(1, m)
      {
        assert m == Mul(1, m);
      }
    } else {
      var init, last := xs[..|xs| - 1], xs[|xs| - 1];
      LcmAllLeast(init);
      var acc := LcmAll(init);
      LcmMultiple(acc, last);
      forall i | 0 <= i < |xs|
        ensures Divides(xs[i], LcmAll(xs))
      {
        if i < |xs| - 1 {
          assert xs[i] == init[i];
          DividesTransitive(xs[i], acc, LcmAll(xs));
        }
      }
      forall m: nat | forall i | 0 <= i < |xs| :: Divides(xs[i], m)
        ensures Divides(LcmAll(xs), m)
      {
        assert forall i | 0 <= i < |init| :: init[i] == xs[i];
        LcmLeast(acc, last, m);
      }
    }
  }

  lemma DividesTransitive(a: nat, b: nat, c: nat)
    requires Divides(a, b) && Divides(b, c)
    ensures Divides(a, c)
  {
    var x: nat :| b == Mul(a, x);
    var y: nat :| c == Mul(b, y);
    assert c == Mul(a, x * y) by {
      assert a * x * y == a * (x * y);
    }
  }

  /** Two positive numbers that divide each other are equal. */
  lemma DividesBothWays(a: nat, b: nat)
    requires a > 0 && b > 0 && Divides(a, b) && Divides(b, a)
    ensures a == b
  {
    var x: nat :| b == Mul(a, x);
    var y: nat :| a == Mul(b, y);
    assert x > 0 && y > 0;
    assert b >= a by {
      assert a * x == a + a * (x - 1);
    }
    assert a >= b by {
      assert b * y == b + b * (y - 1);
    }
  }

  /** The fold over `xs` divides the fold over `ys` when every count of
      `xs` occurs in `ys`. */
  lemma LcmAllDividesLcmAll(xs: seq<nat>, ys: seq<nat>)
    requires forall j | 0 <= j < |ys| :: ys[j] > 0
    requires forall x | x in xs :: x in ys
    ensures forall i | 0 <= i < |xs| :: xs[i] > 0
    ensures Divides(LcmAll(xs), LcmAll(ys))
  {
    LcmAllLeast(ys);
    assert forall i | 0 <= i < |xs| :: xs[i] > 0 && Divides(xs[i], LcmAll(ys)) by {
      forall i | 0 <= i < |xs|
        ensures xs[i] > 0 && Divides(xs[i], LcmAll(ys))
      {
        assert xs[i] in ys;
        var j :| 0 <= j < |ys| && ys[j] == xs[i];
      }
    }
    LcmAllLeast(xs);
  }

  /** The fold gives the same number for any order (or repetition) of the
      same counts. */
  lemma LcmAllOrderFree(xs: seq<nat>, ys: seq<nat>)
    requires forall i | 0 <= i < |xs| :: xs[i] > 0
    requires forall x :: x in xs <==> x in ys
    ensures LcmAll(xs) == LcmAll(ys)
  {
    LcmAllDividesLcmAll(ys, xs);
    LcmAllDividesLcmAll(xs, ys);
    LcmAllLeast(xs);
    LcmAllLeast(ys);
    DividesBothWays(LcmAll(xs), LcmAll(ys));
  }

  // ---------------------------------------------------------------------
  // Ghost steps

  predicate EndsWith(name: string, c: char)
  {
    |name| > 0 && name[|name| - 1] == c
  }

  /** `find_ghost_steps` over the start nodes in the order the table lists
      them: each start walked until a name ending in 'Z', the counts folded
      with `lcm` from 1. The first walk that does not reach its goal decides
      the outcome. */
  function GhostSteps(dirs: seq<Direction>, nodes: Network, starts: seq<string>, fuel: nat): (r: Outcome)
    ensures r.Reached? ==> forall i | 0 <= i < |starts| :: Search(dirs, nodes, EndsIn('Z'), starts[i], 0, fuel).Reached?
  {
    if starts == [] then Reached(1)
    else
      assert forall i | 0 <= i < |starts| - 1 :: starts[i] == starts[..|starts| - 1][i];
      match GhostSteps(dirs, nodes, starts[..|starts| - 1], fuel)
      case Reached(acc) =>
        (match Search(dirs, nodes, EndsIn('Z'), starts[|starts| - 1], 0, fuel)
         case Reached(n) => Reached(Lcm(acc, n))
         case other => other)
      case other => other
  }

  /** The start nodes: every name in the table that ends in 'A'. */
  ghost predicate ListsStarts(nodes: Network, starts: seq<string>)
  {
    forall name :: name in starts <==> name in nodes && EndsWith(name, 'A')
  }

  /** The steps each start took, 0 where its walk did not reach a goal. */
  function StepCounts(dirs: seq<Direction>, nodes: Network, starts: seq<string>, fuel: nat): (counts: seq<nat>)
    ensures |counts| == |starts|
  {
    seq(|starts|, i requires 0 <= i < |starts| =>
      match Search(dirs, nodes, EndsIn('Z'), starts[i], 0, fuel)
      case Reached(n) => n
      case _ => 0)
  }

  /** A ghost walk that succeeds reached a goal from every start, and its
      answer is the fold of those counts. */
  lemma {:induction false} GhostStepsCounts(dirs: seq<Direction>, nodes: Network, starts: seq<string>, fuel: nat)
    requires GhostSteps(dirs, nodes, starts, fuel).Reached?
    ensures forall i | 0 <= i < |starts| :: Search(dirs, nodes, EndsIn('Z'), starts[i], 0, fuel).Reached?
    ensures GhostSteps(dirs, nodes, starts, fuel).steps == LcmAll(StepCounts(dirs, nodes, starts, fuel))
  {
    if starts != [] {
      var init := starts[..|starts| - 1];
      GhostStepsCounts(dirs, nodes, init, fuel);
      var counts := StepCounts(dirs, nodes, starts, fuel);
      assert counts[..|counts| - 1] == StepCounts(dirs, nodes, init, fuel);
    }
  }

  /** A walk from a name ending in 'A' takes at least one step. */
  lemma StartTakesSteps(dirs: seq<Direction>, nodes: Network, start: string, fuel: nat)
    requires EndsWith(start, 'A')
    requires Search(dirs, nodes, EndsIn('Z'), start, 0, fuel).Reached?
    ensures Search(dirs, nodes, EndsIn('Z'), start, 0, fuel).steps > 0
  {
    SearchFrom(dirs, nodes, start, 0, fuel);
  }

  /** A search that starts away from its goal reaches it later. */
  lemma SearchFrom(dirs: seq<Direction>, nodes: Network, current: string, steps: nat, fuel: nat)
    requires !AtGoal(EndsIn('Z'), current)
    requires Search(dirs, nodes, EndsIn('Z'), current, steps, fuel).Reached?
    ensures Search(dirs, nodes, EndsIn('Z'), current, steps, fuel).steps > steps
  {
    SearchMonotone(dirs, nodes, EndsIn('Z'), current, steps, fuel);
  }

  lemma {:induction false} SearchMonotone(dirs: seq<Direction>, nodes: Network, goal: Goal, current: string, steps: nat, fuel: nat)
    requires Search(dirs, nodes, goal, current, steps, fuel).Reached?
    ensures Search(dirs, nodes, goal, current, steps, fuel).steps >= steps
    ensures !AtGoal(goal, current) ==> Search(dirs, nodes, goal, current, steps, fuel).steps > steps
    decreases fuel
  {
    if !AtGoal(goal, current) && fuel > 0 {
      var next := Step(dirs, nodes, current, steps);
      if next.Some? {
        SearchMonotone(dirs, nodes, goal, next.value, steps + 1, fuel - 1);
      }
    }
  }

  /** When every walk from the start nodes reaches a goal, the ghost answer
      is a positive common multiple of the step counts that divides every
      other common multiple, and any listing of the start nodes gives the
      same answer. */
  lemma GhostStepsLeast(dirs: seq<Direction>, nodes: Network, starts: seq<string>, fuel: nat)
    requires ListsStarts(nodes, starts)
    requires GhostSteps(dirs, nodes, starts, fuel).Reached?
    ensures var l, counts := GhostSteps(dirs, nodes, starts, fuel).steps, StepCounts(dirs, nodes, starts, fuel);
      l > 0 && (forall i | 0 <= i < |starts| :: counts[i] > 0 && Divides(counts[i], l)) &&
      forall m: nat | (forall i | 0 <= i < |starts| :: Divides(counts[i], m)) :: Divides(l, m)
  {
    var counts := StepCounts(dirs, nodes, starts, fuel);
    GhostStepsCounts(dirs, nodes, starts, fuel);
    forall i | 0 <= i < |starts|
      ensures counts[i] > 0
    {
      assert starts[i] in starts;
      StartTakesSteps(dirs, nodes, starts[i], fuel);
    }
    LcmAllLeast(counts);
  }

  /** Any two listings of the start nodes whose walks all reach a goal give
      the same answer. */
  lemma GhostStepsOrderFree(dirs: seq<Direction>, nodes: Network, starts: seq<string>, others: seq<string>, fuel: nat)
    requires ListsStarts(nodes, starts) && ListsStarts(nodes, others)
    requires GhostSteps(dirs, nodes, starts, fuel).Reached? && GhostSteps(dirs, nodes, others, fuel).Reached?
    ensures GhostSteps(dirs, nodes, starts, fuel) == GhostSteps(dirs, nodes, others, fuel)
  {
    var xs, ys := StepCounts(dirs, nodes, starts, fuel), StepCounts(dirs, nodes, others, fuel);
    GhostStepsLeast(dirs, nodes, starts, fuel);
    GhostStepsCounts(dirs, nodes, starts, fuel);
    GhostStepsCounts(dirs, nodes, others, fuel);
    forall x
      ensures x in xs <==> x in ys
    {
      if x in xs {
        var i :| 0 <= i < |xs| && xs[i] == x;
        assert starts[i] in others;
        var j :| 0 <= j < |others| && others[j] == starts[i];
        assert ys[j] == x;
      }
      if x in ys {
        var j :| 0 <= j < |ys| && ys[j] == x;
        assert others[j] in starts;
        var i :| 0 <= i < |starts| && starts[i] == others[j];
        assert xs[i] == x;
      }
    }
    LcmAllOrderFree(xs, ys);
  }

  /** `find_ghost_steps`: the walks in turn, the counts folded as they
      come. */
  method FindGhostSteps(dirs: seq<Direction>, nodes: Network, starts: seq<string>, fuel: nat) returns (r: Outcome)
    ensures r == GhostSteps(dirs, nodes, starts, fuel)
  {
    var acc := 1;
    for k := 0 to |starts|
      invariant GhostSteps(dirs, nodes, starts[..k], fuel) == Reached(acc)
    {
      assert starts[..k + 1][..k] == starts[..k];
      var o := FindStepsLowerBound(dirs, nodes, starts[k], fuel);
      if !o.Reached? {
        GhostStepsFails(dirs, nodes, starts, k + 1, fuel);
        assert starts[..|starts|] == starts;
        return o;
      }
      acc := Lcm(acc, o.steps);
    }
    assert starts[..|starts|] == starts;
    r := Reached(acc);
  }

  /** Once a walk fails, the whole ghost walk fails the same way. */
  lemma {:induction false} GhostStepsFails(dirs: seq<Direction>, nodes: Network, starts: seq<string>, k: nat, fuel: nat)
    requires k <= |starts| && !GhostSteps(dirs, nodes, starts[..k], fuel).Reached?
    ensures GhostSteps(dirs, nodes, starts, fuel) == GhostSteps(dirs, nodes, starts[..k], fuel)
    decreases |starts| - k
  {
    if k < |starts| {
      assert starts[..k + 1][..k] == starts[..k];
      GhostStepsFails(dirs, nodes, starts, k + 1, fuel);
    } else {
      assert starts[..k] == starts;
    }
  }

  // ---------------------------------------------------------------------
  // The worked examples, on the table the parser builds

  /** First example: "RL" from AAA reaches ZZZ in two steps. */
  lemma TwoSteps()
    ensures Search([Right, Left],
                   map["AAA" := Node("BBB", "CCC"), "BBB" := Node("DDD", "EEE"), "CCC" := Node("ZZZ", "GGG"),
                       "DDD" := Node("DDD", "DDD"), "EEE" := Node("EEE", "EEE"), "GGG" := Node("GGG", "GGG"),
                       "ZZZ" := Node("ZZZ", "ZZZ")],
                   Exactly("ZZZ"), "AAA", 0, 10) == Reached(2)
  {
  }

  /** Second example: "LLR" around AAA, BBB, ZZZ takes six steps. */
  lemma SixSteps()
    ensures Search([Left, Left, Right],
                   map["AAA" := Node("BBB", "BBB"), "BBB" := Node("AAA", "ZZZ"), "ZZZ" := Node("ZZZ", "ZZZ")],
                   Exactly("ZZZ"), "AAA", 0, 10) == Reached(6)
  {
  }

  /** The table of the ghost example. */
  function GhostTable(): Network
  {
    map["11A" := Node("11B", "XXX"), "11B" := Node("XXX", "11Z"), "11Z" := Node("11B", "XXX"),
        "22A" := Node("22B", "XXX"), "22B" := Node("22C", "22C"), "22C" := Node("22Z", "22Z"),
        "22Z" := Node("22B", "22B"), "XXX" := Node("XXX", "XXX")]
  }

  /** In the ghost example the walk from 11A reaches 11Z in two steps. */
  lemma GhostWalkFrom11A()
    ensures Search([Left, Right], GhostTable(), EndsIn('Z'), "11A", 0, 10) == Reached(2)
  {
    var dirs, nodes := [Left, Right], GhostTable();
    assert Step(dirs, nodes, "11B", 1) == Some("11Z");
    assert Search(dirs, nodes, EndsIn('Z'), "11B", 1, 9) == Reached(2);
    assert Step(dirs, nodes, "11A", 0) == Some("11B");
  }

  /** In the ghost example the walk from 22A reaches 22Z in three steps. */
  lemma GhostWalkFrom22A()
    ensures Search([Left, Right], GhostTable(), EndsIn('Z'), "22A", 0, 10) == Reached(3)
  {
  }

  lemma LcmExamples()
    ensures Lcm(1, 2) == 2 && Lcm(2, 3) == 6
  {
    assert Gcd(1, 2) == 1;
    assert Gcd(2, 3) == 1;
  }

  /** Ghost example: the walks from 11A and 22A take 2 and 3 steps, and
      the answer is 6. */
  lemma GhostSixSteps()
    ensures GhostSteps([Left, Right], GhostTable(), ["11A", "22A"], 10) == Reached(6)
  {
    var dirs, nodes := [Left, Right], GhostTable();
    assert GhostSteps(dirs, nodes, ["11A"], 10) == Reached(2) by {
      GhostWalkFrom11A();
      LcmExamples();
      assert ["11A"][..0] == [];
    }
    GhostWalkFrom22A();
    LcmExamples();
    assert ["11A", "22A"][..1] == ["11A"];
  }
}
