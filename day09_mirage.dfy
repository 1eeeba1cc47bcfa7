/** Day 9, mirage maintenance: each line is a sequence of readings, and the
    next reading is predicted by taking differences until they vanish and
    adding the last entries back up. Predicting the reversed sequence gives
    the reading before the first. */
module Mirage {
  import opened Wrappers
  import opened Text

  // ---------------------------------------------------------------------
  // Parsing

  /** Every piece read as an `i64`; a piece that is not one stops the program
      (`None`). */
  function ParseNumbers(parts: seq<string>): (r: Option<seq<int>>)
    ensures r.Some? ==> |r.value| == |parts|
    ensures r.Some? ==> forall i | 0 <= i < |parts| :: ParseInt(parts[i], I64_MIN, I64_MAX) == Some(r.value[i])
    ensures r.None? ==> exists i | 0 <= i < |parts| :: ParseInt(parts[i], I64_MIN, I64_MAX).None?
  {
    if parts == [] then Some([])
    else
      match ParseInt(parts[0], I64_MIN, I64_MAX)
      case None => None
      case Some(v) =>
        match ParseNumbers(parts[1..])
        case None => None
        case Some(vs) => Some([v] + vs)
  }

  /** One line: numbers separated by single spaces. */
  function ParseSequence(line: string): (r: Option<seq<int>>)
    ensures r.Some? ==> |r.value| == |Split(line, ' ')| >= 1
  {
    ParseNumbers(Split(line, ' '))
  }

  function ParseLines(lines: seq<string>): (r: Option<seq<seq<int>>>)
    ensures r.Some? ==> |r.value| == |lines|
    ensures r.Some? ==> forall i | 0 <= i < |lines| :: ParseSequence(lines[i]) == Some(r.value[i])
    ensures r.None? ==> exists i | 0 <= i < |lines| :: ParseSequence(lines[i]).None?
  {
    if lines == [] then Some([])
    else
      match ParseSequence(lines[0])
      case None => None
      case Some(s) =>
        match ParseLines(lines[1..])
        case None => None
        case Some(ss) => Some([s] + ss)
  }

  /** `parse_sequences`: one sequence per line. Every parsed sequence has at
      least one reading, since even an empty line splits into one piece
      (which then fails to parse). */
  function ParseSequences(input: string): (r: Option<seq<seq<int>>>)
    ensures r.Some? ==> |r.value| == |Lines(input)|
    ensures r.Some? ==> forall i | 0 <= i < |r.value| :: |r.value[i]| >= 1
  {
    ParseLines(Lines(input))
  }

  // ---------------------------------------------------------------------
  // Printing, the inverse of parsing

  function NumberTexts(s: seq<int>): (r: seq<string>)
    ensures |r| == |s|
    ensures forall i | 0 <= i < |s| :: r[i] == IntText(s[i])
  {
    if s == [] then [] else [IntText(s[0])] + NumberTexts(s[1..])
  }

  function RenderSequence(s: seq<int>): string
    requires |s| >= 1
  {
    Join(NumberTexts(s), ' ')
  }

  function RenderLines(ss: seq<seq<int>>): (r: seq<string>)
    requires forall i | 0 <= i < |ss| :: |ss[i]| >= 1
    ensures |r| == |ss|
    ensures forall i | 0 <= i < |ss| :: r[i] == RenderSequence(ss[i])
  {
    if ss == [] then [] else [RenderSequence(ss[0])] + RenderLines(ss[1..])
  }

  /** The sequences as text: numbers separated by spaces, one line each. */
  function RenderSequences(ss: seq<seq<int>>): string
    requires |ss| >= 1 && forall i | 0 <= i < |ss| :: |ss[i]| >= 1
  {
    Join(RenderLines(ss), '\n')
  }

  predicate InI64(s: seq<int>)
  {
    forall i | 0 <= i < |s| :: I64_MIN <= s[i] <= I64_MAX
  }

  lemma {:induction false} NumbersRoundTrip(s: seq<int>)
    requires InI64(s)
    ensures ParseNumbers(NumberTexts(s)) == Some(s)
  {
    if s != [] {
      ParseIntText(s[0], I64_MIN, I64_MAX);
      NumbersRoundTrip(s[1..]);
      assert NumberTexts(s)[1..] == NumberTexts(s[1..]);
      assert [s[0]] + s[1..] == s;
    }
  }

  /** A printed line reads back as the sequence, and is a line `lines` keeps
      whole: no line break in it, and it ends in a digit. */
  lemma SequenceRoundTrip(s: seq<int>)
    requires |s| >= 1 && InI64(s)
    ensures ParseSequence(RenderSequence(s)) == Some(s)
    ensures var line := RenderSequence(s);
      '\n' !in line && |line| > 0 && line[|line| - 1] != '\r'
  {
    var texts := NumberTexts(s);
    forall i | 0 <= i < |texts| ensures ' ' !in texts[i] && '\n' !in texts[i] {
      assert forall k | 0 <= k < |texts[i]| :: IsDigit(texts[i][k]) || texts[i][k] == '-';
    }
    SplitJoin(texts, ' ');
    NumbersRoundTrip(s);
    JoinExcludes(texts, ' ', '\n');
    JoinLast(texts, ' ');
  }

  lemma {:induction false} LinesRoundTrip(ss: seq<seq<int>>)
    requires forall i | 0 <= i < |ss| :: |ss[i]| >= 1 && InI64(ss[i])
    ensures ParseLines(RenderLines(ss)) == Some(ss)
  {
    if ss != [] {
      SequenceRoundTrip(ss[0]);
      LinesRoundTrip(ss[1..]);
      assert RenderLines(ss)[1..] == RenderLines(ss[1..]);
      assert [ss[0]] + ss[1..] == ss;
    }
  }

  /** Printing sequences of `i64` readings and parsing the text gives them back. */
  lemma ParseRendered(ss: seq<seq<int>>)
    requires |ss| >= 1 && forall i | 0 <= i < |ss| :: |ss[i]| >= 1 && InI64(ss[i])
    ensures ParseSequences(RenderSequences(ss)) == Some(ss)
  {
    var lines := RenderLines(ss);
    forall i | 0 <= i < |lines|
      ensures '\n' !in lines[i] && |lines[i]| > 0 && lines[i][|lines[i]| - 1] != '\r'
    {
      SequenceRoundTrip(ss[i]);
    }
    LinesOfJoined(lines);
    LinesRoundTrip(ss);
  }

  // ---------------------------------------------------------------------
  // Extrapolation

  /** `windows(2)` mapped to the step between neighbours. */
  function Differences(s: seq<int>): (d: seq<int>)
    ensures |d| == if |s| == 0 then 0 else |s| - 1
    ensures forall i | 0 <= i < |d| :: d[i] == s[i + 1] - s[i]
  {
    if |s| < 2 then [] else seq(|s| - 1, i requires 0 <= i < |s| - 1 => s[i + 1] - s[i])
  }

  predicate AllZero(s: seq<int>)
  {
    forall i | 0 <= i < |s| :: s[i] == 0
  }

  /** `extrapolate_sequence`: the sequence with its predicted next reading
      appended, the last reading plus the last entry of the extrapolated
      differences. */
  function ExtrapolateSequence(s: seq<int>): (r: seq<int>)
    requires |s| >= 1
    ensures |r| == |s| + 1
    decreases |s|, 0
  {
    var next := NextRow(Differences(s));
    s + [s[|s| - 1] + next[|next| - 1]]
  }

  /** The extrapolated differences: a zero is appended once they are all
      zero, otherwise they are extrapolated by recursion. The recursion is
      only entered when some difference is non-zero, so it never meets an
      empty sequence. */
  function NextRow(d: seq<int>): (r: seq<int>)
    ensures |r| == |d| + 1
    decreases |d|, 1
  {
    if AllZero(d) then d + [0] else ExtrapolateSequence(d)
  }

  /** The readings themselves are kept; one is appended. */
  lemma ExtrapolateKeeps(s: seq<int>)
    requires |s| >= 1
    ensures ExtrapolateSequence(s)[..|s|] == s
  {
  }

  /** Once the differences are all zero, the prediction repeats the last
      reading. */
  lemma ExtrapolateConstant(s: seq<int>)
    requires |s| >= 1 && AllZero(Differences(s))
    ensures ExtrapolateSequence(s)[|s|] == s[|s| - 1]
  {
    var d := Differences(s);
    assert (d + [0])[|d|] == 0;
  }

  /** The textbook prediction: the sum of the last entries of all the rows of
      the difference table. */
  function LastSum(s: seq<int>): int
    decreases |s|
  {
    if s == [] then 0 else s[|s| - 1] + LastSum(Differences(s))
  }

  lemma {:induction false} LastSumZero(s: seq<int>)
    requires AllZero(s)
    ensures LastSum(s) == 0
    decreases |s|
  {
    if s != [] {
      var d := Differences(s);
      forall i | 0 <= i < |d| ensures d[i] == 0 {
        assert d[i] == s[i + 1] - s[i];
      }
      LastSumZero(d);
    }
  }

  lemma {:induction false} FirstPredictionZero(s: seq<int>)
    requires AllZero(s)
    ensures FirstPrediction(s) == 0
    decreases |s|
  {
    if s != [] {
      ZeroDifferences(s);
      FirstPredictionZero(Differences(s));
    }
  }

  /** The predicted reading is the sum of the last entries of the difference
      table: stopping early at an all-zero row changes nothing. */
  lemma {:induction false} ExtrapolatedValue(s: seq<int>)
    requires |s| >= 1
    ensures ExtrapolateSequence(s)[|s|] == LastSum(s)
    decreases |s|
  {
    var d := Differences(s);
    if AllZero(d) {
      LastSumZero(d);
    } else {
      ExtrapolatedValue(d);
    }
  }

  lemma ZeroDifferences(s: seq<int>)
    requires AllZero(s)
    ensures AllZero(Differences(s))
  {
    var d := Differences(s);
    forall i | 0 <= i < |d| ensures d[i] == 0 {
      assert d[i] == s[i + 1] - s[i];
    }
  }

  /** The appended reading is the last one plus the appended difference. */
  lemma ExtrapolateStep(s: seq<int>)
    requires |s| >= 2
    ensures var d := Differences(s);
      ExtrapolateSequence(s)[|s|] == s[|s| - 1] + ExtrapolateSequence(d)[|d|]
  {
    var d := Differences(s);
    if AllZero(d) {
      ZeroDifferences(d);
      ExtrapolateConstant(d);
    }
  }

  /** Appending `s`'s last reading plus `y` appends `y` to the differences. */
  lemma DifferencesAppend(s: seq<int>, y: int)
    requires |s| >= 1
    ensures Differences(s + [s[|s| - 1] + y]) == Differences(s) + [y]
  {
    var t := s + [s[|s| - 1] + y];
    var a, b := Differences(t), Differences(s) + [y];
    assert |a| == |b|;
    forall i | 0 <= i < |a| ensures a[i] == b[i] {
      if i < |s| - 1 {
        assert t[i + 1] == s[i + 1] && t[i] == s[i];
      }
    }
  }

  /** The prediction continues the difference table: the differences of the
      extended sequence are the extended differences. */
  lemma ExtrapolateCommutes(s: seq<int>)
    requires |s| >= 2
    ensures Differences(ExtrapolateSequence(s)) == ExtrapolateSequence(Differences(s))
  {
    ExtrapolateStep(s);
    ExtrapolateKeeps(s);
    ExtrapolateKeeps(Differences(s));
    ExtendedDifferences(s, ExtrapolateSequence(s), ExtrapolateSequence(Differences(s)));
  }

  /** If `r` extends `s` by its last reading plus the last entry of `e`, and
      `e` extends the differences of `s`, then `e` is the differences of `r`. */
  lemma ExtendedDifferences(s: seq<int>, r: seq<int>, e: seq<int>)
    requires |s| >= 1 && |r| == |s| + 1 && r[..|s|] == s
    requires var d := Differences(s); |e| == |d| + 1 && e[..|d|] == d
    requires r[|s|] == s[|s| - 1] + e[|s| - 1]
    ensures Differences(r) == e
  {
    var d := Differences(s);
    var y := e[|d|];
    assert r == s + [s[|s| - 1] + y];
    assert e == d + [y];
    DifferencesAppend(s, y);
  }

  /** A sequence with a constant step `c` is continued by one more step `c`. */
  lemma ArithmeticNext(s: seq<int>, c: int)
    requires |s| >= 2 && forall i | 0 <= i < |s| - 1 :: s[i + 1] - s[i] == c
    ensures ExtrapolateSequence(s)[|s|] == s[|s| - 1] + c
  {
    ExtrapolatedValue(s);
    ArithmeticLastSum(s, c);
  }

  lemma ArithmeticLastSum(s: seq<int>, c: int)
    requires |s| >= 2 && forall i | 0 <= i < |s| - 1 :: s[i + 1] - s[i] == c
    ensures LastSum(s) == s[|s| - 1] + c
  {
    var d := ConstantDifferences(s, c);
    LastSumZero(Differences(d));
  }

  lemma ArithmeticFirstPrediction(s: seq<int>, c: int)
    requires |s| >= 2 && forall i | 0 <= i < |s| - 1 :: s[i + 1] - s[i] == c
    ensures FirstPrediction(s) == s[0] - c
  {
    var d := ConstantDifferences(s, c);
    FirstPredictionZero(Differences(d));
  }

  /** The differences of a sequence with constant step `c` are all `c`, and
      theirs are all zero. */
  lemma ConstantDifferences(s: seq<int>, c: int) returns (d: seq<int>)
    requires |s| >= 2 && forall i | 0 <= i < |s| - 1 :: s[i + 1] - s[i] == c
    ensures d == Differences(s) && |d| >= 1 && d[|d| - 1] == c && d[0] == c
    ensures AllZero(Differences(d))
  {
    d := Differences(s);
    forall i | 0 <= i < |d| ensures d[i] == c {
      assert d[i] == s[i + 1] - s[i];
    }
    var dd := Differences(d);
    forall i | 0 <= i < |dd| ensures dd[i] == 0 {
      assert dd[i] == d[i + 1] - d[i];
    }
  }

  /** `extrapolate_sequences`: the sum of the predicted readings. An empty
      sequence stops the program (`None`). */
  function ExtrapolateSequences(ss: seq<seq<int>>): (r: Option<int>)
    ensures r.Some? ==> forall i | 0 <= i < |ss| :: |ss[i]| >= 1
  {
    if ss == [] then Some(0)
    else if |ss[0]| == 0 then None
    else
      assert forall i | 1 <= i < |ss| :: ss[i] == ss[1..][i - 1];
      match ExtrapolateSequences(ss[1..])
      case None => None
      case Some(rest) => Some(ExtrapolateSequence(ss[0])[|ss[0]|] + rest)
  }

  /** The sum is defined exactly when no sequence is empty. */
  lemma {:induction false} ExtrapolateSequencesDefined(ss: seq<seq<int>>)
    ensures ExtrapolateSequences(ss).Some? <==> forall i | 0 <= i < |ss| :: |ss[i]| >= 1
  {
    if ss != [] {
      ExtrapolateSequencesDefined(ss[1..]);
      assert forall i | 1 <= i < |ss| :: ss[i] == ss[1..][i - 1];
    }
  }

  /** The sum of the textbook predictions of every sequence. */
  function TotalLastSum(ss: seq<seq<int>>): int
  {
    if ss == [] then 0 else LastSum(ss[0]) + TotalLastSum(ss[1..])
  }

  lemma {:induction false} ExtrapolateSequencesTotal(ss: seq<seq<int>>)
    requires forall i | 0 <= i < |ss| :: |ss[i]| >= 1
    ensures ExtrapolateSequences(ss) == Some(TotalLastSum(ss))
  {
    if ss != [] {
      ExtrapolatedValue(ss[0]);
      ExtrapolateSequencesTotal(ss[1..]);
    }
  }

  // ---------------------------------------------------------------------
  // Extrapolating backwards

  function Negate(s: seq<int>): (r: seq<int>)
    ensures |r| == |s| && forall i | 0 <= i < |s| :: r[i] == -s[i]
  {
    if s == [] then [] else [-s[0]] + Negate(s[1..])
  }

  /** The textbook backward prediction: the first reading minus the backward
      prediction of the differences. */
  function FirstPrediction(s: seq<int>): (p: int)
    ensures |s| == 1 ==> p == s[0]
    decreases |s|
  {
    if s == [] then 0 else s[0] - FirstPrediction(Differences(s))
  }

  lemma DifferencesReverse(s: seq<int>)
    ensures Differences(Reversed(s)) == Negate(Reversed(Differences(s)))
  {
    var r, d := Reversed(s), Differences(s);
    var a, b := Differences(r), Negate(Reversed(d));
    assert |a| == |b|;
    forall i | 0 <= i < |a| ensures a[i] == b[i] {
      var j := |s| - 2 - i;
      assert r[i + 1] == s[j] && r[i] == s[j + 1];
      assert a[i] == r[i + 1] - r[i];
      assert d[j] == s[j + 1] - s[j];
      assert b[i] == -d[j];
    }
  }

  lemma {:induction false} LastSumNegate(s: seq<int>)
    ensures LastSum(Negate(s)) == -LastSum(s)
    decreases |s|
  {
    if s != [] {
      NegateDifferences(s);
      LastSumNegate(Differences(s));
    }
  }

  lemma NegateDifferences(s: seq<int>)
    ensures Differences(Negate(s)) == Negate(Differences(s))
  {
    var a, b := Differences(Negate(s)), Negate(Differences(s));
    forall i | 0 <= i < |a| ensures a[i] == b[i] {
      assert a[i] == Negate(s)[i + 1] - Negate(s)[i];
    }
  }

  lemma {:induction false} LastSumReverse(s: seq<int>)
    ensures LastSum(Reversed(s)) == FirstPrediction(s)
    decreases |s|
  {
    if s != [] {
      DifferencesReverse(s);
      LastSumNegate(Reversed(Differences(s)));
      LastSumReverse(Differences(s));
    }
  }

  /** Predicting the reversed sequence gives the reading before the first
      one. */
  lemma ExtrapolateReversed(s: seq<int>)
    requires |s| >= 1
    ensures ExtrapolateSequence(Reversed(s))[|s|] == FirstPrediction(s)
  {
    ExtrapolatedValue(Reversed(s));
    LastSumReverse(s);
  }

  function ReverseAll(ss: seq<seq<int>>): (r: seq<seq<int>>)
    ensures |r| == |ss| && forall i | 0 <= i < |ss| :: r[i] == Reversed(ss[i])
  {
    if ss == [] then [] else [Reversed(ss[0])] + ReverseAll(ss[1..])
  }

  function TotalFirstPrediction(ss: seq<seq<int>>): int
  {
    if ss == [] then 0 else FirstPrediction(ss[0]) + TotalFirstPrediction(ss[1..])
  }

  /** The second answer: every sequence reversed, then extrapolated; it is the
      sum of the backward predictions. */
  lemma ExtrapolateBackwards(ss: seq<seq<int>>)
    requires forall i | 0 <= i < |ss| :: |ss[i]| >= 1
    ensures ExtrapolateSequences(ReverseAll(ss)) == Some(TotalFirstPrediction(ss))
  {
    ExtrapolateSequencesTotal(ReverseAll(ss));
    TotalLastSumReversed(ss);
  }

  lemma {:induction false} TotalLastSumReversed(ss: seq<seq<int>>)
    ensures TotalLastSum(ReverseAll(ss)) == TotalFirstPrediction(ss)
  {
    if ss != [] {
      LastSumReverse(ss[0]);
      ReverseAllTail(ss);
      TotalLastSumReversed(ss[1..]);
    }
  }

  lemma ReverseAllTail(ss: seq<seq<int>>)
    requires |ss| >= 1
    ensures ReverseAll(ss)[1..] == ReverseAll(ss[1..])
  {
  }

  // ---------------------------------------------------------------------
  // The example report

  lemma ExampleFirst(s: seq<int>)
    requires s == [0, 3, 6, 9, 12, 15]
    ensures LastSum(s) == 18 && FirstPrediction(s) == -3
  {
    assert forall i | 0 <= i < 5 :: s[i + 1] - s[i] == 3;
    ArithmeticLastSum(s, 3);
    ArithmeticFirstPrediction(s, 3);
  }

  lemma ExampleSecond(s: seq<int>)
    requires s == [1, 3, 6, 10, 15, 21]
    ensures LastSum(s) == 28 && FirstPrediction(s) == 0
  {
    var d := Differences(s);
    assert d[0] == s[1] - s[0] == 2;
    assert d[1] == s[2] - s[1] == 3;
    assert d[2] == s[3] - s[2] == 4;
    assert d[3] == s[4] - s[3] == 5;
    assert d[4] == s[5] - s[4] == 6;
    ArithmeticLastSum(d, 1);
    ArithmeticFirstPrediction(d, 1);
  }

  lemma ExampleThirdSteps(d: seq<int>)
    requires d == [3, 3, 5, 9, 15]
    ensures LastSum(d) == 23 && FirstPrediction(d) == 5
  {
    var dd := Differences(d);
    assert dd[0] == d[1] - d[0] == 0;
    assert dd[1] == d[2] - d[1] == 2;
    assert dd[2] == d[3] - d[2] == 4;
    assert dd[3] == d[4] - d[3] == 6;
    ArithmeticLastSum(dd, 2);
    ArithmeticFirstPrediction(dd, 2);
  }

  lemma ExampleThird(s: seq<int>)
    requires s == [10, 13, 16, 21, 30, 45]
    ensures LastSum(s) == 68 && FirstPrediction(s) == 5
  {
    var d := Differences(s);
    assert d[0] == s[1] - s[0] == 3;
    assert d[1] == s[2] - s[1] == 3;
    assert d[2] == s[3] - s[2] == 5;
    assert d[3] == s[4] - s[3] == 9;
    assert d[4] == s[5] - s[4] == 15;
    assert d == [3, 3, 5, 9, 15];
    ExampleThirdSteps(d);
  }

  /** The example report: its predictions (18, 28 and 68) sum to 114. */
  lemma ExampleReportForward(ss: seq<seq<int>>)
    requires ss == [[0, 3, 6, 9, 12, 15], [1, 3, 6, 10, 15, 21], [10, 13, 16, 21, 30, 45]]
    ensures ExtrapolateSequences(ss) == Some(114)
  {
    ExampleTotals(ss);
    ExtrapolateSequencesTotal(ss);
  }

  /** Reversed, the example report predicts -3, 0 and 5 before the first
      readings, which sum to 2. */
  lemma ExampleReportBackward(ss: seq<seq<int>>)
    requires ss == [[0, 3, 6, 9, 12, 15], [1, 3, 6, 10, 15, 21], [10, 13, 16, 21, 30, 45]]
    ensures ExtrapolateSequences(ReverseAll(ss)) == Some(2)
  {
    ExampleTotals(ss);
    ExtrapolateBackwards(ss);
  }

  lemma ExampleTotals(ss: seq<seq<int>>)
    requires ss == [[0, 3, 6, 9, 12, 15], [1, 3, 6, 10, 15, 21], [10, 13, 16, 21, 30, 45]]
    ensures TotalLastSum(ss) == 114 && TotalFirstPrediction(ss) == 2
  {
    ExampleFirst(ss[0]);
    ExampleSecond(ss[1]);
    ExampleThird(ss[2]);
    TotalsOfThree(ss);
  }

  lemma TotalsOfThree(ss: seq<seq<int>>)
    requires |ss| == 3
    ensures TotalLastSum(ss) == LastSum(ss[0]) + LastSum(ss[1]) + LastSum(ss[2])
    ensures TotalFirstPrediction(ss) == FirstPrediction(ss[0]) + FirstPrediction(ss[1]) + FirstPrediction(ss[2])
  {
    var t1 := ss[1..];
    var t2 := t1[1..];
    assert t2[1..] == [];
    assert TotalLastSum(t2) == LastSum(ss[2]);
    assert TotalFirstPrediction(t2) == FirstPrediction(ss[2]);
  }
}
