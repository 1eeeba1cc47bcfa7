/** Day 6, boat races: each race has a time and a record distance. Holding
    the button for `h` of the race's milliseconds gives the boat speed `h`
    for the remaining `time - h`; the count of hold times that beat the
    record is taken per race and the counts are multiplied. */
module BoatRaces {
  import opened Wrappers
  import opened Text

  /** A race: its duration and the distance to beat (both `i64`). */
  datatype Race = Race(time: int, distance: int)

  // ---------------------------------------------------------------------
  // Parsing

  /** Each word parsed as an `i64`; any word that does not parse panics. */
  function ParseAll(words: seq<string>): Option<seq<int>>
  {
    if words == [] then Some([])
    else
      match (ParseInt(words[0], I64_MIN, I64_MAX), ParseAll(words[1..]))
      case (Some(x), Some(xs)) => Some([x] + xs)
      case _ => None
  }

  /** The words parse exactly when each does, to the values each gives. */
  lemma {:induction false} ParseAllEach(words: seq<string>)
    ensures ParseAll(words).Some? <==> forall i | 0 <= i < |words| :: ParseInt(words[i], I64_MIN, I64_MAX).Some?
    ensures ParseAll(words).Some? ==>
              |ParseAll(words).value| == |words| &&
              forall i | 0 <= i < |words| :: ParseInt(words[i], I64_MIN, I64_MAX) == Some(ParseAll(words).value[i])
  {
    if words != [] {
      ParseAllEach(words[1..]);
      assert forall i | 1 <= i < |words| :: words[1..][i - 1] == words[i];
    }
  }

  /** One line of the sheet: the label removed wherever it occurs, the rest
      split at runs of whitespace, each word an `i64`. */
  function ParseNumbers(line: string, tag: string): Option<seq<int>>
    requires |tag| > 0
  {
    ParseAll(Words(ReplaceAll(line, tag, "")))
  }

  /** The i-th time with the i-th distance, as far as the shorter list goes. */
  function Zip(times: seq<int>, distances: seq<int>): (races: seq<Race>)
    ensures |races| == if |times| <= |distances| then |times| else |distances|
    ensures forall i | 0 <= i < |races| :: races[i] == Race(times[i], distances[i])
  {
    if times == [] || distances == [] then []
    else [Race(times[0], distances[0])] + Zip(times[1..], distances[1..])
  }

  /** `parse_races`: the "Time:" line, then the "Distance:" line. A missing
      line or a number that does not parse panics, here `None`. */
  function ParseRaces(input: string): Option<seq<Race>>
  {
    var lines := Lines(input);
    if |lines| < 1 then None
    else
      match ParseNumbers(lines[0], "Time:")
      case None => None
      case Some(times) =>
        if |lines| < 2 then None
        else
          match ParseNumbers(lines[1], "Distance:")
          case None => None
          case Some(distances) => Some(Zip(times, distances))
  }

  // ---------------------------------------------------------------------
  // The sheet written out, and read back

  /** Each number after a space. */
  function Spaced(xs: seq<nat>): (s: string)
    ensures forall i | 0 <= i < |s| :: IsDigit(s[i]) || s[i] == ' '
    ensures |xs| > 0 ==> |s| > 0 && IsDigit(s[|s| - 1])
  {
    if xs == [] then "" else " " + Decimal(xs[0]) + Spaced(xs[1..])
  }

  /** The numbers' decimal spellings, run together. */
  function Digits(xs: seq<nat>): (s: string)
    ensures AllDigits(s)
    ensures |xs| > 0 ==> |s| > 0
  {
    if xs == [] then "" else Decimal(xs[0]) + Digits(xs[1..])
  }

  function Sheet(times: seq<nat>, distances: seq<nat>): string
  {
    ("Time:" + Spaced(times)) + "\n" + ("Distance:" + Spaced(distances))
  }

  /** The word ending where whitespace (or the text) begins. */
  lemma {:induction false} WordLengthOf(word: string, rest: string)
    requires forall i | 0 <= i < |word| :: !IsAsciiSpace(word[i])
    requires |rest| == 0 || IsAsciiSpace(rest[0])
    ensures WordLength(word + rest) == |word|
    decreases |word|
  {
    if |word| > 0 {
      assert (word + rest)[1..] == word[1..] + rest;
      WordLengthOf(word[1..], rest);
    } else {
      assert word + rest == rest;
    }
  }

  lemma {:induction false} WordsSpaced(xs: seq<nat>)
    ensures Words(Spaced(xs)) == Decimals(xs)
  {
    if xs != [] {
      var d, rest := Decimal(xs[0]), Spaced(xs[1..]);
      var s := " " + d + rest;
      assert s[1..] == d + rest;
      assert Words(s) == Words(d + rest);
      WordLengthOf(d, rest);
      assert (d + rest)[..|d|] == d && (d + rest)[|d|..] == rest;
      WordsSpaced(xs[1..]);
    }
  }

  lemma {:induction false} ParseDecimals(xs: seq<nat>)
    requires forall i | 0 <= i < |xs| :: xs[i] <= I64_MAX
    ensures ParseAll(Decimals(xs)) == Some(xs)
  {
    if xs != [] {
      var ws := Decimals(xs);
      assert ws[1..] == Decimals(xs[1..]);
      assert ParseInt(ws[0], I64_MIN, I64_MAX) == Some(xs[0] as int) by {
        ParseIntDecimal(xs[0], I64_MIN, I64_MAX);
      }
      assert ParseAll(ws[1..]) == Some(xs[1..]) by {
        ParseDecimals(xs[1..]);
      }
      assert xs == [xs[0]] + xs[1..];
    }
  }

  lemma ParseLabelled(tag: string, xs: seq<nat>)
    requires |tag| > 0 && !IsDigit(tag[0]) && tag[0] != ' '
    requires forall i | 0 <= i < |xs| :: xs[i] <= I64_MAX
    ensures ParseNumbers(tag + Spaced(xs), tag) == Some(xs)
  {
    var body := Spaced(xs);
    ReplaceAbsent(body, tag);
    assert StartsWith(tag + body, tag);
    assert (tag + body)[|tag|..] == body;
    assert ReplaceAll(tag + body, tag, "") == body;
    assert Words(body) == Decimals(xs) by {
      WordsSpaced(xs);
    }
    ParseDecimals(xs);
  }

  /** Two lines, each read with its label. */
  lemma ParseTwoLines(l1: string, l2: string)
    requires '\n' !in l1 && '\n' !in l2
    requires |l1| > 0 && l1[|l1| - 1] != '\r' && |l2| > 0 && l2[|l2| - 1] != '\r'
    ensures ParseRaces(l1 + "\n" + l2) ==
      if ParseNumbers(l1, "Time:").Some? && ParseNumbers(l2, "Distance:").Some?
      then Some(Zip(ParseNumbers(l1, "Time:").value, ParseNumbers(l2, "Distance:").value))
      else None
  {
    assert Join([l1, l2], '\n') == l1 + "\n" + l2;
    LinesOfJoined([l1, l2]);
  }

  /** Reading a written sheet gives the races it lists: the times paired
      with the distances, as far as the shorter list goes. */
  lemma ParseSheet(times: seq<nat>, distances: seq<nat>)
    requires forall i | 0 <= i < |times| :: times[i] <= I64_MAX
    requires forall i | 0 <= i < |distances| :: distances[i] <= I64_MAX
    ensures ParseRaces(Sheet(times, distances)) == Some(Zip(times, distances))
  {
    var l1, l2 := "Time:" + Spaced(times), "Distance:" + Spaced(distances);
    ParseTwoLines(l1, l2);
    ParseLabelled("Time:", times);
    ParseLabelled("Distance:", distances);
  }

  lemma {:induction false} RemoveSpaces(xs: seq<nat>)
    ensures ReplaceAll(Spaced(xs), " ", "") == Digits(xs)
  {
    if xs != [] {
      var d := Decimal(xs[0]);
      ReplaceCharConcat(" ", d + Spaced(xs[1..]), ' ');
      ReplaceCharConcat(d, Spaced(xs[1..]), ' ');
      DecimalHasNo(xs[0], ' ');
      ReplaceAbsent(d, " ");
      RemoveSpaces(xs[1..]);
      assert " " + d + Spaced(xs[1..]) == " " + (d + Spaced(xs[1..]));
    }
  }

  /** A labelled line with its spaces removed. */
  lemma LabelWithoutSpaces(tag: string, xs: seq<nat>)
    requires |tag| > 0 && ' ' !in tag
    ensures ReplaceAll(tag + Spaced(xs), " ", "") == tag + Digits(xs)
  {
    ReplaceCharConcat(tag, Spaced(xs), ' ');
    ReplaceAbsent(tag, " ");
    RemoveSpaces(xs);
  }

  /** The digits run together, read back as one word. */
  /** A line holding its label and then one unbroken word. */
  lemma ParseOneWord(tag: string, word: string)
    requires |tag| > 0 && |word| > 0 && tag[0] !in word
    requires forall i | 0 <= i < |word| :: !IsAsciiSpace(word[i])
    ensures ParseNumbers(tag + word, tag) == ParseAll([word])
  {
    ReplaceAbsent(word, tag);
    assert StartsWith(tag + word, tag);
    assert (tag + word)[|tag|..] == word;
    assert ReplaceAll(tag + word, tag, "") == word;
    WordsOfUnbroken(word);
  }

  lemma ParseOneNumber(word: string)
    requires |word| > 0 && AllDigits(word)
    ensures ParseAll([word]) ==
      if DecimalValue(word) <= I64_MAX then Some([DecimalValue(word) as int]) else None
  {
    var ws: seq<string> := [word];
    var v := DecimalValue(word);
    assert ParseInt(word, I64_MIN, I64_MAX) == if v <= I64_MAX then Some(v as int) else None by {
      assert IsDigit(word[0]);
    }
    assert ParseAll(ws[1..]) == Some([]) by {
      assert ws[1..] == [];
    }
    if v <= I64_MAX {
      assert [v as int] + [] == [v as int];
      assert ParseAll(ws) == Some([v as int]);
    } else {
      assert ParseAll(ws) == None;
    }
  }

  lemma ParseDigits(tag: string, xs: seq<nat>)
    requires |tag| > 0 && !IsDigit(tag[0]) && |xs| > 0
    ensures ParseNumbers(tag + Digits(xs), tag) ==
      if DecimalValue(Digits(xs)) <= I64_MAX then Some([DecimalValue(Digits(xs)) as int]) else None
  {
    var body := Digits(xs);
    assert tag[0] !in body;
    ParseOneWord(tag, body);
    ParseOneNumber(body);
  }

  /** With every space removed first, each line's numbers run together into
      one number, and the sheet holds a single race (or panics when a merged
      number does not fit an `i64`). */
  lemma ParseSheetWithoutSpaces(times: seq<nat>, distances: seq<nat>)
    requires |times| > 0 && |distances| > 0
    ensures var time, distance := DecimalValue(Digits(times)), DecimalValue(Digits(distances));
      ParseRaces(ReplaceAll(Sheet(times, distances), " ", "")) ==
        if time <= I64_MAX && distance <= I64_MAX then Some([Race(time, distance)]) else None
  {
    var m1, m2 := "Time:" + Digits(times), "Distance:" + Digits(distances);
    SheetWithoutSpaces(times, distances);
    ParseTwoLines(m1, m2);
    ParseDigits("Time:", times);
    ParseDigits("Distance:", distances);
    var time, distance := DecimalValue(Digits(times)), DecimalValue(Digits(distances));
    if time <= I64_MAX && distance <= I64_MAX {
      var ts, ds: seq<int> := [time as int], [distance as int];
      assert Zip(ts, ds) == [Race(time, distance)];
    }
  }

  lemma SheetWithoutSpaces(times: seq<nat>, distances: seq<nat>)
    ensures ReplaceAll(Sheet(times, distances), " ", "") ==
      ("Time:" + Digits(times)) + "\n" + ("Distance:" + Digits(distances))
  {
    var l1, l2 := "Time:" + Spaced(times), "Distance:" + Spaced(distances);
    ReplaceCharConcat(l1 + "\n", l2, ' ');
    ReplaceCharConcat(l1, "\n", ' ');
    ReplaceAbsent("\n", " ");
    LabelWithoutSpaces("Time:", times);
    LabelWithoutSpaces("Distance:", distances);
  }

  // ---------------------------------------------------------------------
  // Counting the ways to win

  /** How far the boat goes when the button is held for `held`. */
  function Travel(time: int, held: int): int
  {
    (time - held) * held
  }

  predicate Beats(r: Race, held: int)
  {
    Travel(r.time, held) > r.distance
  }

  /** The hold times 1 <= h < n that beat the record. */
  function CountBelow(r: Race, n: int): (c: nat)
    ensures c <= if n <= 1 then 0 else n - 1
    decreases n
  {
    if n <= 1 then 0 else CountBelow(r, n - 1) + (if Beats(r, n - 1) then 1 else 0)
  }

  /** The count for one race: the hold times 1 <= h < time that beat the
      record, never more than time - 1 of them. */
  function Ways(r: Race): (c: nat)
    ensures c <= if r.time <= 1 then 0 else r.time - 1
  {
    CountBelow(r, r.time)
  }

  /** The winning hold times, as a set. */
  function WinningHolds(r: Race, n: int): set<int>
  {
    set h | 1 <= h < n && Beats(r, h)
  }

  /** The count is the number of winning hold times. */
  lemma {:induction false} CountBelowIsSize(r: Race, n: int)
    ensures CountBelow(r, n) == |WinningHolds(r, n)|
    decreases n
  {
    if n <= 1 {
      assert WinningHolds(r, n) == {};
    } else {
      CountBelowIsSize(r, n - 1);
      if Beats(r, n - 1) {
        assert WinningHolds(r, n) == WinningHolds(r, n - 1) + {n - 1};
      } else {
        assert WinningHolds(r, n) == WinningHolds(r, n - 1);
      }
    }
  }

  lemma WaysCountsWinners(r: Race)
    ensures Ways(r) == |WinningHolds(r, r.time)|
    ensures forall h :: h in WinningHolds(r, r.time) <==> 1 <= h < r.time && Travel(r.time, h) > r.distance
  {
    CountBelowIsSize(r, r.time);
  }

  /** Holding for h and for time - h travel the same distance, so the
      winning hold times pair up around time / 2. */
  lemma MirrorWins(r: Race, h: int)
    ensures Travel(r.time, h) == Travel(r.time, r.time - h)
    ensures h in WinningHolds(r, r.time) <==> r.time - h in WinningHolds(r, r.time)
  {
    assert Travel(r.time, r.time - h) == h * (r.time - h);
  }

  /** The distance only rises and then falls, so the winning hold times
      have no gaps: a hold time between two winners wins too. */
  lemma WinnersContiguous(r: Race, h1: int, h2: int, h3: int)
    requires h1 <= h2 <= h3
    requires Beats(r, h1) && Beats(r, h3)
    ensures Beats(r, h2)
  {
    var t := r.time;
    assert Travel(t, h2) - Travel(t, h1) == (h2 - h1) * (t - h1 - h2);
    assert Travel(t, h2) - Travel(t, h3) == (h3 - h2) * (h2 + h3 - t);
    if t - h1 - h2 >= 0 {
      NonNegativeProduct(h2 - h1, t - h1 - h2);
    } else {
      NonNegativeProduct(h3 - h2, h2 + h3 - t);
    }
  }

  lemma NonNegativeProduct(a: int, b: int)
    requires a >= 0 && b >= 0
    ensures a * b >= 0
  {
  }

  // ---------------------------------------------------------------------
  // All the races

  /** `calculate_records`: the product of the per-race counts, 1 when there
      are no races. */
  function Records(races: seq<Race>): (p: int)
    ensures p >= 0
  {
    if races == [] then 1 else Records(races[..|races| - 1]) * Ways(races[|races| - 1])
  }

  /** The product is 0 exactly when some race cannot be won. */
  lemma {:induction false} RecordsZero(races: seq<Race>)
    ensures Records(races) == 0 <==> exists i | 0 <= i < |races| :: Ways(races[i]) == 0
  {
    if races != [] {
      var init, last := races[..|races| - 1], races[|races| - 1];
      RecordsZero(init);
      if Records(races) == 0 {
        ZeroProduct(Records(init), Ways(last));
        if Ways(last) != 0 {
          var i :| 0 <= i < |init| && Ways(init[i]) == 0;
          assert races[i] == init[i];
        }
      } else {
        forall i | 0 <= i < |races|
          ensures Ways(races[i]) != 0
        {
          if i < |init| {
            assert races[i] == init[i];
          }
        }
      }
    }
  }

  lemma Regroup(a: int, b: int, c: int)
    ensures (a * b) * c == a * (b * c)
  {
  }

  lemma ZeroProduct(a: int, b: int)
    requires a * b == 0
    ensures a == 0 || b == 0
  {
  }

  /** Each race's count divides the product. */
  lemma {:induction false} RecordsMultiple(races: seq<Race>, i: nat)
    requires i < |races|
    ensures exists k: int :: Records(races) == Ways(races[i]) * k
  {
    var init, last := races[..|races| - 1], races[|races| - 1];
    if i == |races| - 1 {
      assert Records(races) == Ways(races[i]) * Records(init);
    } else {
      RecordsMultiple(init, i);
      var k :| Records(init) == Ways(init[i]) * k;
      assert races[i] == init[i];
      Regroup(Ways(races[i]), k, Ways(last));
      assert Records(races) == Ways(races[i]) * (k * Ways(last));
    }
  }
}
