/** Day 2, cube conundrum: each game records several reveals of red, green
    and blue cubes drawn from a bag. Part one adds up the ids of the games
    that a given bag could have produced; part two adds up, over all games,
    the product of the fewest cubes of each colour the game needs. */
module CubeGames {
  import opened Wrappers
  import opened Text

  /** The cubes of each colour shown at once. */
  datatype Reveal = Reveal(red: nat, green: nat, blue: nat)

  datatype Game = Game(id: nat, revealed: seq<Reveal>)

  datatype Color = Red | Green | Blue

  /** A count and the colour it is given for, as one reveal lists them. */
  type ColorCount = (Color, nat)

  // ---------------------------------------------------------------------
  // Parsing

  function ColorName(c: Color): string
  {
    match c
    case Red => "red"
    case Green => "green"
    case Blue => "blue"
  }

  /** `alt((tag("red"), tag("green"), tag("blue")))`. */
  function ParseColorName(input: string): (r: Parse<Color>)
    ensures r.Parsed? ==> input == ColorName(r.value) + r.rest
    ensures r.Failed? <==> !StartsWith(input, "red") && !StartsWith(input, "green") && !StartsWith(input, "blue")
  {
    match Tag(input, "red")
    case Parsed(_, rest) => Parsed(Red, rest)
    case Failed =>
      match Tag(input, "green")
      case Parsed(_, rest) => Parsed(Green, rest)
      case Failed =>
        match Tag(input, "blue")
        case Parsed(_, rest) => Parsed(Blue, rest)
        case Failed => Failed
  }

  /** `color`: optional spaces, a `u32` count, optional spaces, a colour name. */
  function ParseColor(input: string): (r: Parse<ColorCount>)
    ensures r.Parsed? ==> r.value.1 <= U32_MAX && |r.rest| < |input|
  {
    match Unsigned(Space0(input), U32_MAX)
    case Failed => Failed
    case Parsed(n, rest) =>
      match ParseColorName(Space0(rest))
      case Failed => Failed
      case Parsed(c, rest') => Parsed((c, n), rest')
  }

  /** `separated_list1(tag(","), color)`: a separator whose element fails
      is left unconsumed. */
  function ParseColors(input: string): (r: Parse<seq<ColorCount>>)
    ensures r.Parsed? ==> |r.value| > 0 && |r.rest| < |input|
    decreases |input|
  {
    match ParseColor(input)
    case Failed => Failed
    case Parsed(x, rest) =>
      if StartsWith(rest, ",") then
        match ParseColors(rest[1..])
        case Failed => Parsed([x], rest)
        case Parsed(xs, rest') => Parsed([x] + xs, rest')
      else Parsed([x], rest)
  }

  /** The count a reveal ends up with for colour `c`: the last mention of
      `c` wins, and a colour never mentioned counts 0. */
  function LastCount(colors: seq<ColorCount>, c: Color): (n: nat)
    ensures (forall i | 0 <= i < |colors| :: colors[i].0 != c) ==> n == 0
  {
    if colors == [] then 0
    else
      var last := colors[|colors| - 1];
      if last.0 == c then last.1 else LastCount(colors[..|colors| - 1], c)
  }

  function Tally(colors: seq<ColorCount>): Reveal
  {
    Reveal(LastCount(colors, Red), LastCount(colors, Green), LastCount(colors, Blue))
  }

  /** The count at the last mention of a colour is the one kept. */
  lemma {:induction false} LastCountAt(colors: seq<ColorCount>, c: Color, i: nat)
    requires i < |colors| && colors[i].0 == c
    requires forall j | i < j < |colors| :: colors[j].0 != c
    ensures LastCount(colors, c) == colors[i].1
    decreases |colors|
  {
    if i < |colors| - 1 {
      LastCountAt(colors[..|colors| - 1], c, i);
    }
  }

  /** The loop in `reveal`: each mention overwrites its colour's count. */
  method TallyColors(colors: seq<ColorCount>) returns (r: Reveal)
    ensures r == Tally(colors)
  {
    var red, green, blue := 0, 0, 0;
    var k := 0;
    while k < |colors|
      invariant 0 <= k <= |colors|
      invariant red == LastCount(colors[..k], Red)
      invariant green == LastCount(colors[..k], Green)
      invariant blue == LastCount(colors[..k], Blue)
    {
      assert colors[..k + 1][..k] == colors[..k];
      var (color, count) := colors[k];
      match color {
        case Red => red := count;
        case Green => green := count;
        case Blue => blue := count;
      }
      k := k + 1;
    }
    assert colors[..k] == colors;
    r := Reveal(red, green, blue);
  }

  /** `reveal`: a comma-separated list of counts, tallied. */
  function ParseReveal(input: string): (r: Parse<Reveal>)
    ensures r.Parsed? ==> |r.rest| < |input|
  {
    match ParseColors(input)
    case Failed => Failed
    case Parsed(colors, rest) => Parsed(Tally(colors), rest)
  }

  /** `separated_list1(tag(";"), reveal)`. */
  function ParseReveals(input: string): (r: Parse<seq<Reveal>>)
    ensures r.Parsed? ==> |r.value| > 0 && |r.rest| < |input|
    decreases |input|
  {
    match ParseReveal(input)
    case Failed => Failed
    case Parsed(x, rest) =>
      if StartsWith(rest, ";") then
        match ParseReveals(rest[1..])
        case Failed => Parsed([x], rest)
        case Parsed(xs, rest') => Parsed([x] + xs, rest')
      else Parsed([x], rest)
  }

  /** `game`: "Game", optional spaces, a `u32` id, ":", optional spaces, the
      reveals. */
  function ParseGame(input: string): (r: Parse<Game>)
    ensures r.Parsed? ==> |r.value.revealed| > 0 && r.value.id <= U32_MAX && |r.rest| < |input|
  {
    match Tag(input, "Game")
    case Failed => Failed
    case Parsed(_, rest) =>
      match Unsigned(Space0(rest), U32_MAX)
      case Failed => Failed
      case Parsed(id, rest) =>
        match Tag(rest, ":")
        case Failed => Failed
        case Parsed(_, rest) =>
          match ParseReveals(Space0(rest))
          case Failed => Failed
          case Parsed(revealed, rest) => Parsed(Game(id, revealed), rest)
  }

  /** `games`: `separated_list1(tag("\n"), game)`. */
  function ParseGames(input: string): (r: Parse<seq<Game>>)
    ensures r.Parsed? ==> |r.value| > 0 && |r.rest| < |input|
    decreases |input|
  {
    match ParseGame(input)
    case Failed => Failed
    case Parsed(x, rest) =>
      if StartsWith(rest, "\n") then
        match ParseGames(rest[1..])
        case Failed => Parsed([x], rest)
        case Parsed(xs, rest') => Parsed([x] + xs, rest')
      else Parsed([x], rest)
  }

  // ---------------------------------------------------------------------
  // The text of a game, and the round trip through the parser

  /** A game as it is written: its id and, per reveal, the counts in the
      order they are listed. */
  datatype GameText = GameText(id: nat, revealed: seq<seq<ColorCount>>)

  predicate Writable(t: GameText)
  {
    t.id <= U32_MAX && RevealsWritable(t.revealed)
  }

  predicate ColorsWritable(cs: seq<ColorCount>)
  {
    |cs| > 0 && forall i | 0 <= i < |cs| :: cs[i].1 <= U32_MAX
  }

  predicate AllWritable(ts: seq<GameText>)
  {
    forall i | 0 <= i < |ts| :: Writable(ts[i])
  }

  /** The rendering functions take the text that follows what they write,
      so that a rendered list is its first item followed by the rest. */
  function RenderColor(x: ColorCount, rest: string): string
  {
    Decimal(x.1) + (" " + (ColorName(x.0) + rest))
  }

  function RenderColors(cs: seq<ColorCount>, rest: string): string
    requires |cs| > 0
  {
    RenderColor(cs[0], if |cs| == 1 then rest else "," + (" " + RenderColors(cs[1..], rest)))
  }

  function RenderReveals(rs: seq<seq<ColorCount>>, rest: string): string
    requires RevealsWritable(rs)
  {
    RenderColors(rs[0], if |rs| == 1 then rest else ";" + (" " + RenderReveals(rs[1..], rest)))
  }

  function RenderGame(t: GameText, rest: string): string
    requires Writable(t)
  {
    "Game" + (" " + (Decimal(t.id) + (":" + (" " + RenderReveals(t.revealed, rest)))))
  }

  function RenderGames(ts: seq<GameText>): string
    requires |ts| > 0 && AllWritable(ts)
  {
    RenderGame(ts[0], if |ts| == 1 then [] else "\n" + RenderGames(ts[1..]))
  }

  /** The reveals a game's text stands for. */
  function TallyAll(rs: seq<seq<ColorCount>>): (r: seq<Reveal>)
    ensures |r| == |rs| && forall i | 0 <= i < |rs| :: r[i] == Tally(rs[i])
  {
    if rs == [] then [] else [Tally(rs[0])] + TallyAll(rs[1..])
  }

  function GameOf(t: GameText): Game
  {
    Game(t.id, TallyAll(t.revealed))
  }

  function GamesOf(ts: seq<GameText>): (r: seq<Game>)
    ensures |r| == |ts| && forall i | 0 <= i < |ts| :: r[i] == GameOf(ts[i])
  {
    if ts == [] then [] else [GameOf(ts[0])] + GamesOf(ts[1..])
  }

  /** Optional leading space, as the separators ", " and "; " leave it. */
  predicate Blank(sp: string) { sp == "" || sp == " " }

  lemma ColorNameRoundTrip(c: Color, rest: string)
    ensures ParseColorName(ColorName(c) + rest) == Parsed(c, rest)
  {
    var s := ColorName(c) + rest;
    assert s[..|ColorName(c)|] == ColorName(c);
    match c
    case Red =>
    case Green =>
      assert s[0] == 'g';
    case Blue =>
      assert s[0] == 'b';
  }

  /** `space0` stops at a character that is neither space nor tab. */
  lemma Space0Stops(s: string)
    requires |s| > 0 && s[0] != ' ' && s[0] != '\t'
    ensures Space0(s) == s
  {
  }

  lemma Space0Skips(sp: string, s: string)
    requires Blank(sp) && |s| > 0 && s[0] != ' ' && s[0] != '\t'
    ensures Space0(sp + s) == s
  {
    if sp == " " {
      assert (sp + s)[0] == ' ' && (sp + s)[1..] == s;
    } else {
      assert sp + s == s;
    }
  }

  lemma ColorStep(input: string, n: nat, afterCount: string, c: Color, rest: string)
    requires Unsigned(Space0(input), U32_MAX) == Parsed(n, afterCount)
    requires ParseColorName(Space0(afterCount)) == Parsed(c, rest)
    ensures ParseColor(input) == Parsed((c, n), rest)
  {
  }

  /** A written count, after an optional space, scans back. */
  lemma CountRoundTrip(sp: string, n: nat, after: string)
    requires Blank(sp) && n <= U32_MAX && |after| > 0 && after[0] == ' '
    ensures Unsigned(Space0(sp + (Decimal(n) + after)), U32_MAX) == Parsed(n, after)
  {
    var digits := Decimal(n);
    assert (digits + after)[0] == digits[0];
    Space0Skips(sp, digits + after);
    UnsignedDecimal(n, U32_MAX, after);
  }

  /** A colour name after one space scans back. */
  lemma NameRoundTrip(c: Color, rest: string)
    ensures ParseColorName(Space0(" " + (ColorName(c) + rest))) == Parsed(c, rest)
  {
    var name := ColorName(c) + rest;
    assert name[0] == ColorName(c)[0];
    Space0Skips(" ", name);
    ColorNameRoundTrip(c, rest);
  }

  lemma ColorRoundTrip(sp: string, x: ColorCount, rest: string)
    requires Blank(sp) && x.1 <= U32_MAX
    ensures ParseColor(sp + RenderColor(x, rest)) == Parsed(x, rest)
  {
    var after := " " + (ColorName(x.0) + rest);
    CountRoundTrip(sp, x.1, after);
    NameRoundTrip(x.0, rest);
    ColorStep(sp + RenderColor(x, rest), x.1, after, x.0, rest);
  }

  /** Whether text starts with a one-character tag depends on its first
      character only. */
  lemma NotStartsWith(s: string, c: char)
    requires s == [] || s[0] != c
    ensures !StartsWith(s, [c])
  {
    if |s| > 0 {
      assert s[..1][0] == s[0];
    }
  }

  lemma StartsWithChar(c: char, more: string)
    ensures StartsWith([c] + more, [c]) && ([c] + more)[1..] == more
  {
    assert ([c] + more)[..1] == [c];
  }

  lemma TagPrefix(t: string, rest: string)
    ensures Tag(t + rest, t) == Parsed(t, rest)
  {
    assert (t + rest)[..|t|] == t;
    assert (t + rest)[|t|..] == rest;
  }

  lemma ConsTail<T>(s: seq<T>)
    requires |s| > 0
    ensures [s[0]] + s[1..] == s
  {
  }

  lemma ColorsOne(input: string, x: ColorCount, rest: string)
    requires ParseColor(input) == Parsed(x, rest)
    requires rest == [] || rest[0] != ','
    ensures ParseColors(input) == Parsed([x], rest)
  {
    NotStartsWith(rest, ',');
  }

  lemma ColorsMore(input: string, x: ColorCount, more: string, xs: seq<ColorCount>, rest: string)
    requires ParseColor(input) == Parsed(x, "," + more)
    requires ParseColors(more) == Parsed(xs, rest)
    ensures ParseColors(input) == Parsed([x] + xs, rest)
  {
    StartsWithChar(',', more);
  }

  lemma ColorsWritableTail(cs: seq<ColorCount>)
    requires |cs| > 1 && ColorsWritable(cs)
    ensures ColorsWritable(cs[1..])
  {
    forall i | 0 <= i < |cs| - 1 ensures cs[1..][i].1 <= U32_MAX {
      assert cs[1..][i] == cs[i + 1];
    }
  }

  /** The first count of a written list, then the rest of the list. */
  lemma ColorsCons(sp: string, cs: seq<ColorCount>, rest: string)
    requires Blank(sp) && |cs| > 1 && cs[0].1 <= U32_MAX
    requires ParseColors(" " + RenderColors(cs[1..], rest)) == Parsed(cs[1..], rest)
    ensures ParseColors(sp + RenderColors(cs, rest)) == Parsed(cs, rest)
  {
    var more := " " + RenderColors(cs[1..], rest);
    ColorRoundTrip(sp, cs[0], "," + more);
    ColorsMore(sp + RenderColors(cs, rest), cs[0], more, cs[1..], rest);
    ConsTail(cs);
  }

  /** Written counts, followed by text that starts with no comma, parse back
      to the same counts. */
  lemma {:induction false} ColorsRoundTrip(sp: string, cs: seq<ColorCount>, rest: string)
    requires Blank(sp) && ColorsWritable(cs)
    requires rest == [] || rest[0] != ','
    ensures ParseColors(sp + RenderColors(cs, rest)) == Parsed(cs, rest)
    decreases |cs|
  {
    if |cs| == 1 {
      ColorRoundTrip(sp, cs[0], rest);
      ColorsOne(sp + RenderColors(cs, rest), cs[0], rest);
      assert [cs[0]] == cs;
    } else {
      ColorsWritableTail(cs);
      ColorsRoundTrip(" ", cs[1..], rest);
      ColorsCons(sp, cs, rest);
    }
  }

  lemma RevealsOne(input: string, x: Reveal, rest: string)
    requires ParseReveal(input) == Parsed(x, rest)
    requires rest == [] || rest[0] != ';'
    ensures ParseReveals(input) == Parsed([x], rest)
  {
    NotStartsWith(rest, ';');
  }

  lemma RevealsMore(input: string, x: Reveal, more: string, xs: seq<Reveal>, rest: string)
    requires ParseReveal(input) == Parsed(x, ";" + more)
    requires ParseReveals(more) == Parsed(xs, rest)
    ensures ParseReveals(input) == Parsed([x] + xs, rest)
  {
    StartsWithChar(';', more);
  }

  lemma TallyAllCons(rs: seq<seq<ColorCount>>)
    requires |rs| > 0
    ensures TallyAll(rs) == [Tally(rs[0])] + TallyAll(rs[1..])
  {
  }

  predicate RevealsWritable(rs: seq<seq<ColorCount>>)
  {
    |rs| > 0 && forall i | 0 <= i < |rs| :: ColorsWritable(rs[i])
  }

  lemma RevealsWritableTail(rs: seq<seq<ColorCount>>)
    requires |rs| > 1 && RevealsWritable(rs)
    ensures RevealsWritable(rs[1..])
  {
    forall i | 0 <= i < |rs| - 1 ensures ColorsWritable(rs[1..][i]) {
      assert rs[1..][i] == rs[i + 1];
    }
  }

  lemma RevealOfColors(input: string, cs: seq<ColorCount>, rest: string)
    requires ParseColors(input) == Parsed(cs, rest)
    ensures ParseReveal(input) == Parsed(Tally(cs), rest)
  {
  }

  lemma RevealsSingle(sp: string, rs: seq<seq<ColorCount>>, rest: string)
    requires Blank(sp) && |rs| == 1 && RevealsWritable(rs)
    requires rest == [] || (rest[0] != ',' && rest[0] != ';')
    ensures ParseReveals(sp + RenderReveals(rs, rest)) == Parsed(TallyAll(rs), rest)
  {
    var input := sp + RenderReveals(rs, rest);
    ColorsRoundTrip(sp, rs[0], rest);
    RevealOfColors(input, rs[0], rest);
    RevealsOne(input, Tally(rs[0]), rest);
    assert TallyAll(rs) == [Tally(rs[0])];
  }

  /** The first reveal of a written list, then the rest of the list. */
  lemma RevealsCons(sp: string, rs: seq<seq<ColorCount>>, rest: string)
    requires Blank(sp) && |rs| > 1 && RevealsWritable(rs) && RevealsWritable(rs[1..])
    requires ParseReveals(" " + RenderReveals(rs[1..], rest)) == Parsed(TallyAll(rs[1..]), rest)
    ensures ParseReveals(sp + RenderReveals(rs, rest)) == Parsed(TallyAll(rs), rest)
  {
    var more := " " + RenderReveals(rs[1..], rest);
    var input := sp + RenderColors(rs[0], ";" + more);
    assert RenderReveals(rs, rest) == RenderColors(rs[0], ";" + more);
    assert ParseReveal(input) == Parsed(Tally(rs[0]), ";" + more) by {
      ColorsRoundTrip(sp, rs[0], ";" + more);
      RevealOfColors(input, rs[0], ";" + more);
    }
    assert ParseReveals(input) == Parsed([Tally(rs[0])] + TallyAll(rs[1..]), rest) by {
      RevealsMore(input, Tally(rs[0]), more, TallyAll(rs[1..]), rest);
    }
    TallyAllCons(rs);
  }

  /** Written reveals, followed by text that starts with neither comma nor
      semicolon, parse back to the reveals they stand for. */
  lemma {:induction false} RevealsRoundTrip(sp: string, rs: seq<seq<ColorCount>>, rest: string)
    requires Blank(sp) && RevealsWritable(rs)
    requires rest == [] || (rest[0] != ',' && rest[0] != ';')
    ensures ParseReveals(sp + RenderReveals(rs, rest)) == Parsed(TallyAll(rs), rest)
    decreases |rs|
  {
    if |rs| == 1 {
      RevealsSingle(sp, rs, rest);
    } else {
      RevealsWritableTail(rs);
      RevealsRoundTrip(" ", rs[1..], rest);
      RevealsCons(sp, rs, rest);
    }
  }

  lemma RevealsStartWithDigit(rs: seq<seq<ColorCount>>, rest: string)
    requires RevealsWritable(rs)
    ensures var s := RenderReveals(rs, rest); |s| > 0 && IsDigit(s[0])
  {
    var x := rs[0][0];
    var after := if |rs[0]| == 1 then (if |rs| == 1 then rest else ";" + (" " + RenderReveals(rs[1..], rest)))
      else "," + (" " + RenderColors(rs[0][1..], if |rs| == 1 then rest else ";" + (" " + RenderReveals(rs[1..], rest))));
    assert RenderReveals(rs, rest) == RenderColor(x, after);
    assert RenderColor(x, after)[0] == Decimal(x.1)[0];
  }

  lemma GameStep(input: string, afterTag: string, id: nat, afterId: string, afterColon: string, revealed: seq<Reveal>, rest: string)
    requires Tag(input, "Game") == Parsed("Game", afterTag)
    requires Unsigned(Space0(afterTag), U32_MAX) == Parsed(id, afterId)
    requires Tag(afterId, ":") == Parsed(":", afterColon)
    requires ParseReveals(Space0(afterColon)) == Parsed(revealed, rest)
    ensures ParseGame(input) == Parsed(Game(id, revealed), rest)
  {
  }

  lemma GameRoundTrip(t: GameText, rest: string)
    requires Writable(t)
    requires rest == [] || rest[0] == '\n'
    ensures ParseGame(RenderGame(t, rest)) == Parsed(GameOf(t), rest)
  {
    var revealed := RenderReveals(t.revealed, rest);
    var afterColon := " " + revealed;
    var afterId := ":" + afterColon;
    var afterTag := " " + (Decimal(t.id) + afterId);
    TagPrefix("Game", afterTag);
    assert (Decimal(t.id) + afterId)[0] == Decimal(t.id)[0];
    Space0Skips(" ", Decimal(t.id) + afterId);
    UnsignedDecimal(t.id, U32_MAX, afterId);
    TagPrefix(":", afterColon);
    RevealsStartWithDigit(t.revealed, rest);
    Space0Skips(" ", revealed);
    RevealsRoundTrip("", t.revealed, rest);
    assert "" + revealed == revealed;
    GameStep(RenderGame(t, rest), afterTag, t.id, afterId, afterColon, TallyAll(t.revealed), rest);
  }

  lemma GamesOne(input: string, x: Game)
    requires ParseGame(input) == Parsed(x, [])
    ensures ParseGames(input) == Parsed([x], [])
  {
    NotStartsWith([], '\n');
  }

  lemma GamesMore(input: string, x: Game, more: string, xs: seq<Game>, rest: string)
    requires ParseGame(input) == Parsed(x, "\n" + more)
    requires ParseGames(more) == Parsed(xs, rest)
    ensures ParseGames(input) == Parsed([x] + xs, rest)
  {
    StartsWithChar('\n', more);
  }

  /** Written games parse back to the games they stand for, with nothing
      left over. */
  lemma {:induction false} GamesRoundTrip(ts: seq<GameText>)
    requires |ts| > 0 && AllWritable(ts)
    ensures ParseGames(RenderGames(ts)) == Parsed(GamesOf(ts), [])
    decreases |ts|
  {
    var input := RenderGames(ts);
    if |ts| == 1 {
      GameRoundTrip(ts[0], []);
      GamesOne(input, GameOf(ts[0]));
      assert GamesOf(ts) == [GameOf(ts[0])];
    } else {
      var tail := ts[1..];
      assert AllWritable(tail) by {
        forall i | 0 <= i < |tail| ensures Writable(tail[i]) {
          assert tail[i] == ts[i + 1];
        }
      }
      GameRoundTrip(ts[0], "\n" + RenderGames(tail));
      GamesRoundTrip(tail);
      GamesMore(input, GameOf(ts[0]), RenderGames(tail), GamesOf(tail), []);
      assert [GameOf(ts[0])] + GamesOf(tail) == GamesOf(ts);
    }
  }

  // ---------------------------------------------------------------------
  // Part one: which games the bag allows

  /** Every reveal of the game fits within `total`. */
  predicate Possible(game: Game, total: Reveal)
  {
    forall i | 0 <= i < |game.revealed| :: Within(game.revealed[i], total)
  }

  predicate Within(r: Reveal, total: Reveal)
  {
    r.red <= total.red && r.green <= total.green && r.blue <= total.blue
  }

  /** The games that `total` allows, in their order. */
  function PossibleGames(games: seq<Game>, total: Reveal): (r: seq<Game>)
    ensures |r| <= |games|
    ensures forall i | 0 <= i < |r| :: Possible(r[i], total) && r[i] in games
  {
    if games == [] then []
    else (if Possible(games[0], total) then [games[0]] else []) + PossibleGames(games[1..], total)
  }

  function SumIds(games: seq<Game>): nat
  {
    if games == [] then 0 else games[0].id + SumIds(games[1..])
  }

  /** `possible_game_sum`: never more than the sum of all ids. */
  function PossibleGameSum(games: seq<Game>, total: Reveal): (sum: nat)
    ensures sum <= SumIds(games)
  {
    PossibleIdsBound(games, total);
    SumIds(PossibleGames(games, total))
  }

  lemma {:induction false} PossibleIdsBound(games: seq<Game>, total: Reveal)
    ensures SumIds(PossibleGames(games, total)) <= SumIds(games)
  {
    if games != [] {
      PossibleIdsBound(games[1..], total);
      var rest := PossibleGames(games[1..], total);
      if Possible(games[0], total) {
        assert ([games[0]] + rest)[1..] == rest;
      } else {
        assert [] + rest == rest;
      }
    }
  }

  /** Every possible game is kept. */
  lemma {:induction false} PossibleKept(games: seq<Game>, total: Reveal, i: nat)
    requires i < |games| && Possible(games[i], total)
    ensures games[i] in PossibleGames(games, total)
  {
    if i > 0 {
      PossibleKept(games[1..], total, i - 1);
    }
  }

  lemma PossibleGameSumCons(games: seq<Game>, total: Reveal)
    requires games != []
    ensures PossibleGameSum(games, total)
      == (if Possible(games[0], total) then games[0].id else 0) + PossibleGameSum(games[1..], total)
  {
    var rest := PossibleGames(games[1..], total);
    if Possible(games[0], total) {
      assert ([games[0]] + rest)[1..] == rest;
    } else {
      assert [] + rest == rest;
    }
  }

  /** A larger bag allows at least the same games, so the sum cannot drop. */
  lemma {:induction false} PossibleGameSumMonotone(games: seq<Game>, small: Reveal, large: Reveal)
    requires Within(small, large)
    ensures PossibleGameSum(games, small) <= PossibleGameSum(games, large)
  {
    if games != [] {
      PossibleGameSumCons(games, small);
      PossibleGameSumCons(games, large);
      PossibleGameSumMonotone(games[1..], small, large);
    }
  }

  /** Games written one after the other add up separately. */
  lemma {:induction false} PossibleGameSumAppend(a: seq<Game>, b: seq<Game>, total: Reveal)
    ensures PossibleGameSum(a + b, total) == PossibleGameSum(a, total) + PossibleGameSum(b, total)
  {
    if a != [] {
      assert (a + b)[0] == a[0] && (a + b)[1..] == a[1..] + b;
      PossibleGameSumCons(a + b, total);
      PossibleGameSumCons(a, total);
      PossibleGameSumAppend(a[1..], b, total);
    } else {
      assert a + b == b;
    }
  }

  /** When every game is possible, all ids are added up. */
  lemma {:induction false} PossibleGameSumAll(games: seq<Game>, total: Reveal)
    requires forall i | 0 <= i < |games| :: Possible(games[i], total)
    ensures PossibleGameSum(games, total) == SumIds(games)
  {
    if games != [] {
      PossibleGameSumAll(games[1..], total);
    }
  }

  // ---------------------------------------------------------------------
  // Part two: the fewest cubes that make a game possible

  function Max(a: nat, b: nat): nat { if a < b then b else a }

  /** The colour-by-colour maximum over the reveals. */
  function MaxReveal(revealed: seq<Reveal>): (m: Reveal)
    requires |revealed| > 0
    ensures forall i | 0 <= i < |revealed| :: Within(revealed[i], m)
    ensures exists i | 0 <= i < |revealed| :: revealed[i].red == m.red
    ensures exists i | 0 <= i < |revealed| :: revealed[i].green == m.green
    ensures exists i | 0 <= i < |revealed| :: revealed[i].blue == m.blue
  {
    if |revealed| == 1 then revealed[0]
    else
      var front := MaxReveal(revealed[..|revealed| - 1]);
      var last := revealed[|revealed| - 1];
      assert forall i | 0 <= i < |revealed| - 1 :: revealed[i] == revealed[..|revealed| - 1][i];
      Reveal(Max(front.red, last.red), Max(front.green, last.green), Max(front.blue, last.blue))
  }

  /** A game is possible with exactly those bags that hold its maximum
      reveal. */
  lemma PossibleIffCovers(game: Game, total: Reveal)
    requires |game.revealed| > 0
    ensures Possible(game, total) <==> Within(MaxReveal(game.revealed), total)
  {
    var m := MaxReveal(game.revealed);
    if Possible(game, total) {
      var r :| 0 <= r < |game.revealed| && game.revealed[r].red == m.red;
      var g :| 0 <= g < |game.revealed| && game.revealed[g].green == m.green;
      var b :| 0 <= b < |game.revealed| && game.revealed[b].blue == m.blue;
      assert Within(game.revealed[r], total) && Within(game.revealed[g], total) && Within(game.revealed[b], total);
    }
  }

  /** The loop in `game_power_sum`, starting from the first reveal and
      raising each colour in place. */
  method MinimumReveal(revealed: seq<Reveal>) returns (m: Reveal)
    requires |revealed| > 0
    ensures m == MaxReveal(revealed)
  {
    m := revealed[0];
    var k := 0;
    while k < |revealed|
      invariant 0 <= k <= |revealed|
      invariant m == MaxReveal(revealed[..if k == 0 then 1 else k])
    {
      var r := revealed[k];
      if k > 0 {
        assert revealed[..k + 1][..k] == revealed[..k];
      }
      if r.red > m.red {
        m := m.(red := r.red);
      }
      if r.green > m.green {
        m := m.(green := r.green);
      }
      if r.blue > m.blue {
        m := m.(blue := r.blue);
      }
      k := k + 1;
    }
    assert revealed[..k] == revealed;
  }

  function Power(r: Reveal): nat
  {
    r.red * r.green * r.blue
  }

  function PowerSum(games: seq<Game>): (sum: nat)
    requires forall i | 0 <= i < |games| :: |games[i].revealed| > 0
    ensures sum == 0 <==> forall i | 0 <= i < |games| :: Power(MaxReveal(games[i].revealed)) == 0
  {
    if games == [] then 0
    else
      assert forall i | 0 <= i < |games| - 1 :: games[i] == games[..|games| - 1][i];
      PowerSum(games[..|games| - 1]) + Power(MaxReveal(games[|games| - 1].revealed))
  }

  /** `game_power_sum`; every game must have a reveal, as the parser
      guarantees. */
  method GamePowerSum(games: seq<Game>) returns (sum: nat)
    requires forall i | 0 <= i < |games| :: |games[i].revealed| > 0
    ensures sum == PowerSum(games)
  {
    sum := 0;
    var k := 0;
    while k < |games|
      invariant 0 <= k <= |games|
      invariant sum == PowerSum(games[..k])
    {
      assert games[..k + 1][..k] == games[..k];
      var minimum := MinimumReveal(games[k].revealed);
      sum := sum + Power(minimum);
      k := k + 1;
    }
    assert games[..k] == games;
  }
}
