/** Day 1: each line's calibration value is ten times its first digit plus its
    last digit; in the second part a digit may also be spelled out as a word
    ("one" ... "nine", and "zero"), found by scanning positions in a given
    order with a range iterator that counts up or down. */
module Calibration {
  import opened Wrappers
  import opened Text

  // ---------------------------------------------------------------------
  // Part one: digits only

  /** The value of the first digit character of `line`, if there is one. */
  function FirstDigit(line: string): (r: Option<nat>)
    ensures r.None? <==> forall i | 0 <= i < |line| :: !IsDigit(line[i])
    ensures r.Some? ==> r.value < 10
    decreases |line|
  {
    if line == [] then None
    else if IsDigit(line[0]) then Some(DigitValue(line[0]))
    else
      assert forall i | 1 <= i < |line| :: line[i] == line[1..][i - 1];
      FirstDigit(line[1..])
  }

  /** The last digit: the first one of the reversed line. */
  function LastDigit(line: string): Option<nat>
  {
    FirstDigit(Reversed(line))
  }

  /** The digit at `i` is the first one when none comes before it. */
  lemma {:induction false} FirstDigitAt(line: string, i: nat)
    requires i < |line| && IsDigit(line[i]) && forall k | 0 <= k < i :: !IsDigit(line[k])
    ensures FirstDigit(line) == Some(DigitValue(line[i]))
  {
    if i > 0 {
      FirstDigitAt(line[1..], i - 1);
    }
  }

  /** The digit at `i` is the last one when none comes after it. */
  lemma LastDigitAt(line: string, i: nat)
    requires i < |line| && IsDigit(line[i]) && forall k | i < k < |line| :: !IsDigit(line[k])
    ensures LastDigit(line) == Some(DigitValue(line[i]))
  {
    var r := Reversed(line);
    FirstDigitAt(r, |line| - 1 - i);
  }

  /** The calibration value of a line: 0 when it has no digit. */
  function CalibrationValue(line: string): (v: nat)
    ensures v <= 99
    ensures (forall i | 0 <= i < |line| :: !IsDigit(line[i])) ==> v == 0
  {
    match (FirstDigit(line), LastDigit(line))
    case (Some(first), Some(last)) => first * 10 + last
    case _ => 0
  }

  /** With its first digit at `i` and its last at `j`, a line is worth
      ten times the one plus the other. */
  lemma CalibrationOfDigits(line: string, i: nat, j: nat)
    requires i <= j < |line| && IsDigit(line[i]) && IsDigit(line[j])
    requires forall k | 0 <= k < |line| && IsDigit(line[k]) :: i <= k <= j
    ensures CalibrationValue(line) == 10 * DigitValue(line[i]) + DigitValue(line[j])
  {
    FirstDigitAt(line, i);
    LastDigitAt(line, j);
  }

  function CalibrationSum(lines: seq<string>): (s: nat)
    ensures s <= 99 * |lines|
  {
    if lines == [] then 0 else CalibrationValue(lines[0]) + CalibrationSum(lines[1..])
  }

  /** `calculate_sum`: the calibration values of all `\n`-separated lines,
      added up. */
  function CalculateSum(input: string): nat
  {
    CalibrationSum(Split(input, '\n'))
  }

  /** Lines written out with `\n` between them are summed one by one. */
  lemma CalculateSumOfLines(lines: seq<string>)
    requires |lines| >= 1 && forall i | 0 <= i < |lines| :: '\n' !in lines[i]
    ensures CalculateSum(Join(lines, '\n')) == CalibrationSum(lines)
  {
    SplitJoin(lines, '\n');
  }

  // ---------------------------------------------------------------------
  // The directed range iterator

  /** The integers from `a` to `b` inclusive, stepping by one towards `b`. */
  function RangeSeq(a: nat, b: nat): (r: seq<nat>)
    ensures |r| == (if a <= b then b - a else a - b) + 1
    ensures a <= b ==> forall k | 0 <= k < |r| :: r[k] == a + k
    ensures b < a ==> forall k | 0 <= k < |r| :: r[k] == a - k
    decreases if a <= b then b - a else a - b
  {
    if a == b then [a]
    else if a < b then [a] + RangeSeq(a + 1, b)
    else [a] + RangeSeq(a - 1, b)
  }

  /** Counting down visits the same values as counting up, backwards. */
  lemma RangeSeqReversed(a: nat, b: nat)
    requires a <= b
    ensures RangeSeq(b, a) == Reversed(RangeSeq(a, b))
  {
    var up, down := RangeSeq(a, b), RangeSeq(b, a);
    assert |down| == |Reversed(up)|;
    forall k | 0 <= k < |down| ensures down[k] == Reversed(up)[k] {
      assert up[|up| - 1 - k] == b - k;
    }
  }

  /** `directed_range(a, b)`: an iterator over `RangeSeq(a, b)`. `done` marks
      that the last value, `end`, has been produced. */
  class DirectedRange {
    var start: nat
    const end: nat
    var done: bool

    ghost predicate Valid()
      reads this
    {
      done ==> start == end
    }

    /** The values the iterator has still to produce. */
    ghost function Remaining(): seq<nat>
      reads this
    {
      if done then [] else RangeSeq(start, end)
    }

    constructor (a: nat, b: nat)
      ensures Valid() && Remaining() == RangeSeq(a, b)
    {
      start := a;
      end := b;
      done := false;
    }

    /** `next()`: the first remaining value, which is then consumed. */
    method Next() returns (r: Option<nat>)
      requires Valid()
      modifies this
      ensures Valid()
      ensures old(Remaining()) == [] ==> r == None && Remaining() == []
      ensures old(Remaining()) != [] ==> r == Some(old(Remaining())[0]) && Remaining() == old(Remaining())[1..]
    {
      if start < end {
        start := start + 1;
        r := Some(start - 1);
      } else if start == end {
        if done {
          r := None;
        } else {
          done := true;
          r := Some(end);
        }
      } else {
        start := start - 1;
        r := Some(start + 1);
      }
    }
  }

  /** The iterator from 3 down to 0 yields 3, 2, 1, 0 and then nothing. */
  method CountDownFromThree() returns (xs: seq<Option<nat>>)
    ensures xs == [Some(3), Some(2), Some(1), Some(0), None]
  {
    var range := new DirectedRange(3, 0);
    assert range.Remaining() == [3, 2, 1, 0];
    var a := range.Next();
    var b := range.Next();
    var c := range.Next();
    var d := range.Next();
    var e := range.Next();
    xs := [a, b, c, d, e];
  }

  // ---------------------------------------------------------------------
  // Part two: spelled-out digits

  const Numbers: seq<string> := ["zero", "one", "two", "three", "four", "five", "six", "seven", "eight", "nine"]

  /** The first number word, from index `j` on, that `slice` starts with. */
  function WordAt(slice: string, j: nat): (r: Option<nat>)
    requires j <= |Numbers|
    ensures r.Some? ==> j <= r.value < |Numbers| && StartsWith(slice, Numbers[r.value])
    ensures r.Some? ==> forall m | j <= m < r.value :: !StartsWith(slice, Numbers[m])
    ensures r.None? ==> forall m | j <= m < |Numbers| :: !StartsWith(slice, Numbers[m])
    decreases |Numbers| - j
  {
    if j == |Numbers| then None
    else if StartsWith(slice, Numbers[j]) then Some(j)
    else WordAt(slice, j + 1)
  }

  /** The number found at position `i`: a digit there takes precedence over a
      word starting there. */
  function NumberAt(input: string, i: nat): (r: Option<nat>)
    requires i < |input|
    ensures r.Some? ==> r.value < 10
    ensures IsDigit(input[i]) ==> r == Some(DigitValue(input[i]))
    ensures !IsDigit(input[i]) ==> r == WordAt(input[i..], 0)
  {
    if IsDigit(input[i]) then Some(DigitValue(input[i])) else WordAt(input[i..], 0)
  }

  predicate InBounds(input: string, order: seq<nat>)
  {
    forall k | 0 <= k < |order| :: order[k] < |input|
  }

  /** What `find_first_number` returns for the positions `order`: the number at
      the first position that has one, and 0 if none has. */
  function FirstNumber(input: string, order: seq<nat>): (n: nat)
    requires InBounds(input, order)
    ensures n < 10
  {
    if order == [] then 0
    else
      match NumberAt(input, order[0])
      case Some(d) => d
      case None => FirstNumber(input, order[1..])
  }

  /** The number at `order[p]` is found when no earlier position has one. */
  lemma {:induction false} FirstNumberAt(input: string, order: seq<nat>, p: nat)
    requires InBounds(input, order) && p < |order| && NumberAt(input, order[p]).Some?
    requires forall q | 0 <= q < p :: NumberAt(input, order[q]).None?
    ensures FirstNumber(input, order) == NumberAt(input, order[p]).value
  {
    if p > 0 {
      FirstNumberAt(input, order[1..], p - 1);
    }
  }

  /** No number at any position gives 0. */
  lemma {:induction false} FirstNumberNone(input: string, order: seq<nat>)
    requires InBounds(input, order) && forall q | 0 <= q < |order| :: NumberAt(input, order[q]).None?
    ensures FirstNumber(input, order) == 0
  {
    if order != [] {
      FirstNumberNone(input, order[1..]);
    }
  }

  /** `find_first_number`: positions are drawn from `order` one by one; the
      first with a digit, or else a number word starting there, gives the
      result, and 0 when the positions run out. */
  method FindFirstNumber(input: string, order: DirectedRange) returns (n: nat)
    requires order.Valid() && InBounds(input, order.Remaining())
    modifies order
    ensures n == FirstNumber(input, old(order.Remaining()))
  {
    while true
      invariant order.Valid() && InBounds(input, order.Remaining())
      invariant FirstNumber(input, old(order.Remaining())) == FirstNumber(input, order.Remaining())
      decreases |order.Remaining()|
    {
      var i := order.Next();
      if i.None? {
        return 0;
      }
      var c := input[i.value];
      if IsDigit(c) {
        return DigitValue(c);
      }
      var slice := input[i.value..];
      var j := 0;
      while j < |Numbers|
        invariant 0 <= j <= |Numbers|
        invariant WordAt(slice, 0) == WordAt(slice, j)
      {
        if StartsWith(slice, Numbers[j]) {
          return j;
        }
        j := j + 1;
      }
    }
  }

  /** Scanning from the end finds the number at the last position that has
      one. */
  lemma {:induction false} LastNumberAt(line: string, i: nat)
    requires i < |line| && NumberAt(line, i).Some?
    requires forall k | i < k < |line| :: NumberAt(line, k).None?
    ensures FirstNumber(line, RangeSeq(|line| - 1, 0)) == NumberAt(line, i).value
  {
    var n := |line| - 1;
    var order, p := RangeSeq(n, 0), n - i;
    CountDown(n);
    forall q | 0 <= q < p ensures NumberAt(line, order[q]).None? {
      assert order[q] == n - q;
    }
    assert order[p] == i;
    FirstNumberAt(line, order, p);
  }

  lemma CountDown(n: nat)
    ensures |RangeSeq(n, 0)| == n + 1
    ensures forall k | 0 <= k <= n :: RangeSeq(n, 0)[k] == n - k
  {
  }

  /** Scanning from the start finds the number at the first position that
      has one. */
  lemma {:induction false} FirstNumberFrom(line: string, i: nat)
    requires i < |line| && NumberAt(line, i).Some?
    requires forall k | 0 <= k < i :: NumberAt(line, k).None?
    ensures FirstNumber(line, RangeSeq(0, |line| - 1)) == NumberAt(line, i).value
  {
    var order := RangeSeq(0, |line| - 1);
    assert order[i] == i;
    forall q | 0 <= q < i ensures NumberAt(line, order[q]).None? {
      assert order[q] == q;
    }
    FirstNumberAt(line, order, i);
  }

  /** The value of a line in the second part. */
  function SpelledValue(line: string): (v: nat)
    requires |line| >= 1
    ensures v <= 99
  {
    10 * FirstNumber(line, RangeSeq(0, |line| - 1)) + FirstNumber(line, RangeSeq(|line| - 1, 0))
  }

  /** Lines of at most one character are skipped. */
  function SpelledSum(lines: seq<string>): nat
  {
    if lines == [] then 0
    else
      var line := lines[|lines| - 1];
      SpelledSum(lines[..|lines| - 1]) + if |line| > 1 then SpelledValue(line) else 0
  }

  /** `calculate_sum_spelled`. */
  method CalculateSumSpelled(input: string) returns (sum: nat)
    ensures sum == SpelledSum(Split(input, '\n'))
  {
    var lines := Split(input, '\n');
    sum := 0;
    var k := 0;
    while k < |lines|
      invariant 0 <= k <= |lines|
      invariant sum == SpelledSum(lines[..k])
    {
      var line := lines[k];
      assert lines[..k + 1][..k] == lines[..k];
      if |line| > 1 {
        var forward := new DirectedRange(0, |line| - 1);
        var first := FindFirstNumber(line, forward);
        var backward := new DirectedRange(|line| - 1, 0);
        var last := FindFirstNumber(line, backward);
        sum := sum + (first * 10 + last);
      }
      k := k + 1;
    }
    assert lines[..k] == lines;
  }

  /** Every line contributes its value, lines of one character excepted. */
  lemma {:induction false} SpelledSumBound(lines: seq<string>)
    ensures SpelledSum(lines) <= 99 * |lines|
    ensures (forall i | 0 <= i < |lines| :: |lines[i]| <= 1) ==> SpelledSum(lines) == 0
  {
    if lines != [] {
      SpelledSumBound(lines[..|lines| - 1]);
    }
  }

  // ---------------------------------------------------------------------
  // Examples

  /** Searching "two1nine" from the end finds the word "nine". */
  lemma {:induction false} LastOfTwoOneNine(s: string)
    requires s == "two1nine"
    ensures FirstNumber(s, RangeSeq(7, 0)) == 9
  {
    TwoOneNineTail(s);
    LastNumberAt(s, 4);
  }

  /** No number starts in the last three characters of "two1nine"; "nine"
      starts just before them. */
  lemma TwoOneNineTail(s: string)
    requires s == "two1nine"
    ensures NumberAt(s, 4) == Some(9)
    ensures forall k | 4 < k < |s| :: NumberAt(s, k).None?
  {
    assert s[7..] == "e" && s[6..] == "ne";
    assert s[5..] == "ine" && s[4..] == "nine";
    assert StartsWith(s[4..], Numbers[9]);
  }

  /** A line whose only number is one digit counts it as first and last. */
  lemma SingleDigit(line: string, i: nat)
    requires |line| > 1 && i < |line| && IsDigit(line[i])
    requires forall k | 0 <= k < |line| && k != i :: NumberAt(line, k).None?
    ensures SpelledValue(line) == 11 * DigitValue(line[i])
  {
    FirstNumberFrom(line, i);
    LastNumberAt(line, i);
  }

  lemma FourBX(s: string)
    requires s == "4bx"
    ensures SpelledSum(Split(s, '\n')) == 44
  {
    assert s[1..] == "bx" && s[2..] == "x";
    assert NumberAt(s, 1) == None && NumberAt(s, 2) == None;
    SingleDigit(s, 0);
    assert Split(s, '\n') == [s];
    assert SpelledSum([s]) == SpelledSum([]) + SpelledValue(s);
  }

  lemma XB4(s: string)
    requires s == "xb4"
    ensures SpelledSum(Split(s, '\n')) == 44
  {
    assert s[0..] == "xb4" && s[1..] == "b4";
    assert NumberAt(s, 0) == None && NumberAt(s, 1) == None;
    SingleDigit(s, 2);
    assert Split(s, '\n') == [s];
    assert SpelledSum([s]) == SpelledSum([]) + SpelledValue(s);
  }

  lemma {:induction false} OneAsdfNine(s: string)
    requires s == "1asdf9"
    ensures SpelledSum(Split(s, '\n')) == 19
  {
    OneAsdfNineMiddle(s);
    FirstNumberFrom(s, 0);
    LastNumberAt(s, 5);
    assert Split(s, '\n') == [s];
    assert SpelledSum([s]) == SpelledSum([]) + SpelledValue(s);
  }

  /** Between its two digits "1asdf9" holds no number word. */
  lemma OneAsdfNineMiddle(s: string)
    requires s == "1asdf9"
    ensures forall k | 0 < k < 5 :: NumberAt(s, k).None?
  {
    forall k | 0 < k < 5 ensures NumberAt(s, k).None? {
      var slice := s[k..];
      assert slice[0] == s[k] && |slice| == 6 - k;
      assert k == 2 ==> slice[1] == 'd';
      forall m | 0 <= m < |Numbers| ensures !StartsWith(slice, Numbers[m]) {
        if |Numbers[m]| <= |slice| {
          assert slice[..|Numbers[m]|][0] == slice[0];
          assert slice[..|Numbers[m]|][1] == slice[1];
        }
      }
    }
  }
}
