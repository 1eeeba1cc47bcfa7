/** The worked examples of the cube game puzzle, on the model in
    `CubeGames`. */
module CubeGamesExamples {
  import opened Wrappers
  import opened Text
  import opened CubeGames

  /** The first game of the parsing example, as written. */
  function FirstGameText(): GameText
  {
    GameText(1, [[(Blue, 3), (Red, 4)], [(Red, 1), (Green, 2), (Blue, 6)], [(Green, 2)]])
  }

  function SecondGameText(): GameText
  {
    GameText(2, [[(Blue, 1)]])
  }

  lemma SmallDecimals()
    ensures Decimal(1) == "1" && Decimal(2) == "2" && Decimal(3) == "3"
    ensures Decimal(4) == "4" && Decimal(6) == "6"
  {
  }

  lemma SecondGameRendered()
    ensures Writable(SecondGameText())
    ensures RenderGame(SecondGameText(), []) == "Game 2: 1 blue"
  {
    SmallDecimals();
    var t := SecondGameText();
    assert ColorName(Blue) == "blue";
    assert RenderColor((Blue, 1), []) == "1 blue";
    assert RenderColors([(Blue, 1)], []) == "1 blue";
    assert RenderReveals(t.revealed, []) == "1 blue";
  }

  /** The games that the example's text stands for. */
  lemma ExampleGames()
    ensures GamesOf([FirstGameText(), SecondGameText()]) == [
      Game(1, [Reveal(4, 0, 3), Reveal(1, 2, 6), Reveal(0, 2, 0)]),
      Game(2, [Reveal(0, 0, 1)])]
  {
    var a, b, c, d := [(Blue, 3), (Red, 4)], [(Red, 1), (Green, 2), (Blue, 6)], [(Green, 2)], [(Blue, 1)];
    LastCountAt(a, Blue, 0);
    LastCountAt(a, Red, 1);
    LastCountAt(b, Red, 0);
    LastCountAt(b, Green, 1);
    LastCountAt(b, Blue, 2);
    LastCountAt(c, Green, 0);
    LastCountAt(d, Blue, 0);
    var t1, t2 := FirstGameText(), SecondGameText();
    assert TallyAll(t1.revealed) == [Reveal(4, 0, 3), Reveal(1, 2, 6), Reveal(0, 2, 0)];
    assert TallyAll(t2.revealed) == [Reveal(0, 0, 1)];
  }

  /** The two example games, written out as lines of text, parse back to
      exactly the expected games, with unmentioned colours at 0 and
      nothing left over. The second line is the literal text
      "Game 2: 1 blue". */
  lemma ParseExample()
    ensures AllWritable([FirstGameText(), SecondGameText()])
    ensures ParseGames(RenderGames([FirstGameText(), SecondGameText()])) == Parsed([
      Game(1, [Reveal(4, 0, 3), Reveal(1, 2, 6), Reveal(0, 2, 0)]),
      Game(2, [Reveal(0, 0, 1)])], [])
  {
    var ts := [FirstGameText(), SecondGameText()];
    assert Writable(FirstGameText());
    SecondGameRendered();
    GamesRoundTrip(ts);
    ExampleGames();
  }

  /** The five games of the power example, as the parser yields them. */
  function PowerGame(id: nat): Game
  {
    match id
    case 1 => Game(1, [Reveal(4, 0, 3), Reveal(1, 2, 6), Reveal(0, 2, 0)])
    case 2 => Game(2, [Reveal(0, 2, 1), Reveal(1, 3, 4), Reveal(0, 1, 1)])
    case 3 => Game(3, [Reveal(20, 8, 6), Reveal(4, 13, 5), Reveal(1, 5, 0)])
    case 4 => Game(4, [Reveal(3, 1, 6), Reveal(6, 3, 0), Reveal(14, 3, 15)])
    case _ => Game(5, [Reveal(6, 3, 1), Reveal(1, 2, 2)])
  }

  function PowerGames(): seq<Game>
  {
    [PowerGame(1), PowerGame(2), PowerGame(3), PowerGame(4), PowerGame(5)]
  }

  lemma {:induction false} MaxOfTwo(rs: seq<Reveal>, m: Reveal)
    requires |rs| == 2
    requires m == Reveal(Max(rs[0].red, rs[1].red), Max(rs[0].green, rs[1].green), Max(rs[0].blue, rs[1].blue))
    ensures MaxReveal(rs) == m
  {
    assert rs[..1] == [rs[0]];
  }

  lemma {:induction false} MaxOfThree(rs: seq<Reveal>, m: Reveal)
    requires |rs| == 3
    requires m == Reveal(
      Max(Max(rs[0].red, rs[1].red), rs[2].red),
      Max(Max(rs[0].green, rs[1].green), rs[2].green),
      Max(Max(rs[0].blue, rs[1].blue), rs[2].blue))
    ensures MaxReveal(rs) == m
  {
    MaxOfTwo(rs[..2], Reveal(Max(rs[0].red, rs[1].red), Max(rs[0].green, rs[1].green), Max(rs[0].blue, rs[1].blue)));
  }

  /** The power of a game's minimum set, for the five example games. */
  lemma {:induction false} MinimumPower(id: nat)
    requires 1 <= id <= 5
    ensures |PowerGame(id).revealed| > 0
    ensures Power(MaxReveal(PowerGame(id).revealed)) == ExamplePower(id)
  {
    var rs := PowerGame(id).revealed;
    if id == 1 {
      MaxOfThree(rs, Reveal(4, 2, 6));
    } else if id == 2 {
      MaxOfThree(rs, Reveal(1, 3, 4));
    } else if id == 3 {
      MaxOfThree(rs, Reveal(20, 13, 6));
    } else if id == 4 {
      MaxOfThree(rs, Reveal(14, 3, 15));
    } else {
      MaxOfTwo(rs, Reveal(6, 3, 2));
    }
  }

  function ExamplePower(id: nat): nat
  {
    match id
    case 1 => 48
    case 2 => 12
    case 3 => 1560
    case 4 => 630
    case _ => 36
  }

  /** `PowerSum` adds up the powers of the games' minimum sets. */
  lemma {:induction false} PowerSumOfPowers(gs: seq<Game>, ps: seq<nat>)
    requires |gs| == |ps|
    requires forall i | 0 <= i < |gs| :: |gs[i].revealed| > 0 && Power(MaxReveal(gs[i].revealed)) == ps[i]
    ensures PowerSum(gs) == Total(ps)
    decreases |gs|
  {
    if gs != [] {
      var k := |gs| - 1;
      PowerSumOfPowers(gs[..k], ps[..k]);
    }
  }

  function Total(ps: seq<nat>): nat
  {
    if ps == [] then 0 else Total(ps[..|ps| - 1]) + ps[|ps| - 1]
  }

  lemma PowersTotal()
    ensures Total([48, 12, 1560, 630, 36]) == 2286
  {
    var ps: seq<nat> := [48, 12, 1560, 630, 36];
    assert ps[..1][..0] == [];
    assert ps[..2][..1] == ps[..1];
    assert ps[..3][..2] == ps[..2];
    assert ps[..4][..3] == ps[..3];
    assert ps[..4] == ps[..|ps| - 1];
    assert Total(ps[..1]) == 48;
    assert Total(ps[..2]) == 60;
    assert Total(ps[..3]) == 1620;
    assert Total(ps[..4]) == 2250;
  }

  /** The minimum sets of the five games have powers 48, 12, 1560, 630
      and 36, which add up to 2286. */
  lemma {:induction false} PowerExample()
    ensures PowerSum(PowerGames()) == 2286
  {
    var gs, ps: seq<nat> := PowerGames(), [48, 12, 1560, 630, 36];
    forall i | 0 <= i < 5
      ensures |gs[i].revealed| > 0 && Power(MaxReveal(gs[i].revealed)) == ps[i]
    {
      MinimumPower(i + 1);
    }
    PowerSumOfPowers(gs, ps);
    PowersTotal();
    assert PowerSum(gs) == 2286;
  }
}
