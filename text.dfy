/** Character and string operations the puzzle programs take from Rust's
    standard library (`str::lines`, `split`, `replace`, `split_ascii_whitespace`,
    `parse::<int>`) and from the `nom` parser library (`digit1`, `u32`,
    `space0`, `tag`), written out directly. Strings are sequences of
    characters; every input the programs read is ASCII, so a byte index and a
    character index coincide. */
module Text {
  import opened Wrappers

  const I64_MIN: int := -0x8000_0000_0000_0000
  const I64_MAX: int := 0x7FFF_FFFF_FFFF_FFFF
  const U64_MAX: int := 0xFFFF_FFFF_FFFF_FFFF
  const U32_MAX: int := 0xFFFF_FFFF

  // ---------------------------------------------------------------------
  // Digits and decimal numbers

  predicate IsDigit(c: char) { '0' <= c <= '9' }

  function DigitValue(c: char): (d: nat)
    requires IsDigit(c)
    ensures d < 10
  {
    (c as int) - ('0' as int)
  }

  function DigitChar(d: nat): (c: char)
    requires d < 10
    ensures IsDigit(c) && DigitValue(c) == d
  {
    (('0' as int) + d) as char
  }

  predicate AllDigits(s: string) { forall i | 0 <= i < |s| :: IsDigit(s[i]) }

  /** The value of a string of decimal digits, most significant digit first. */
  function DecimalValue(s: string): nat
    requires AllDigits(s)
  {
    if s == [] then 0 else DecimalValue(s[..|s| - 1]) * 10 + DigitValue(s[|s| - 1])
  }

  /** The shortest decimal spelling of `n`; reading it back gives `n`. */
  function Decimal(n: nat): (s: string)
    ensures |s| > 0 && AllDigits(s) && DecimalValue(s) == n
  {
    if n < 10 then [DigitChar(n)]
    else
      var s := Decimal(n / 10) + [DigitChar(n % 10)];
      assert s[..|s| - 1] == Decimal(n / 10);
      s
  }

  /** The decimal spellings of a list of numbers. */
  function Decimals(ns: seq<nat>): (ws: seq<string>)
    ensures |ws| == |ns|
    ensures forall i | 0 <= i < |ns| :: ws[i] == Decimal(ns[i])
  {
    if ns == [] then [] else [Decimal(ns[0])] + Decimals(ns[1..])
  }

  /** Rust's `str::parse` for an integer type holding `lo..=hi`: an optional
      `+` (or `-` when the type is signed, `lo < 0`) followed by one or more
      ASCII digits, the value within range; anything else is an error. */
  function ParseInt(s: string, lo: int, hi: int): (r: Option<int>)
    ensures r.Some? ==> lo <= r.value <= hi
  {
    if |s| > 0 && (s[0] == '+' || (s[0] == '-' && lo < 0)) then
      var digits := s[1..];
      if |digits| > 0 && AllDigits(digits) then
        var v := if s[0] == '-' then 0 - DecimalValue(digits) as int else DecimalValue(digits) as int;
        if lo <= v <= hi then Some(v) else None
      else None
    else if |s| > 0 && AllDigits(s) then
      var v := DecimalValue(s);
      if lo <= v <= hi then Some(v) else None
    else None
  }

  /** Printing a number in decimal and parsing it back gives the number. */
  lemma ParseIntDecimal(n: nat, lo: int, hi: int)
    requires lo <= n <= hi
    ensures ParseInt(Decimal(n), lo, hi) == Some(n)
  {
  }

  /** `-` followed by the decimal spelling of `n` parses to `-n` for a signed type. */
  lemma ParseIntNegative(n: nat, lo: int, hi: int)
    requires lo <= -(n as int) <= hi && lo < 0
    ensures ParseInt("-" + Decimal(n), lo, hi) == Some(-(n as int))
  {
    assert ("-" + Decimal(n))[1..] == Decimal(n);
  }

  /** The decimal spelling of an integer, with `-` before a negative one. */
  function IntText(n: int): (s: string)
    ensures |s| > 0 && IsDigit(s[|s| - 1])
    ensures forall i | 0 <= i < |s| :: IsDigit(s[i]) || (i == 0 && s[i] == '-')
  {
    if n < 0 then "-" + Decimal(-n) else Decimal(n)
  }

  /** Printing an integer and parsing it back as a signed type that holds it
      gives the integer. */
  lemma ParseIntText(n: int, lo: int, hi: int)
    requires lo <= n <= hi && lo < 0
    ensures ParseInt(IntText(n), lo, hi) == Some(n)
  {
    if n < 0 {
      ParseIntNegative(-n, lo, hi);
    } else {
      ParseIntDecimal(n, lo, hi);
    }
  }

  // ---------------------------------------------------------------------
  // Searching

  function IndexOf(s: string, c: char): (i: nat)
    requires c in s
    ensures i < |s| && s[i] == c && c !in s[..i]
  {
    if s[0] == c then 0 else 1 + IndexOf(s[1..], c)
  }

  /** In a piece without `c`, then `c`, then anything: the first `c` is the
      one after the piece. */
  lemma {:induction false} IndexOfAfter(piece: string, c: char, rest: string)
    requires c !in piece
    ensures var s := piece + [c] + rest;
      c in s && IndexOf(s, c) == |piece| && s[..|piece|] == piece && s[|piece| + 1..] == rest
  {
    var s := piece + [c] + rest;
    assert s[|piece|] == c;
    if piece != [] {
      IndexOfAfter(piece[1..], c, rest);
      assert s[1..] == piece[1..] + [c] + rest;
    }
    assert s[..|piece|] == piece;
    assert s[|piece| + 1..] == rest;
  }

  predicate StartsWith(s: string, prefix: string)
  {
    |prefix| <= |s| && s[..|prefix|] == prefix
  }

  /** Whether `pat` occurs in `s` (Rust's `str::contains`). */
  predicate Contains(s: string, pat: string)
    decreases |s|
  {
    StartsWith(s, pat) || (|s| > 0 && Contains(s[1..], pat))
  }

  /** The first position at which `pat` occurs in `s`, if any. */
  function Find(s: string, pat: string): (r: Option<nat>)
    ensures r.Some? ==> r.value + |pat| <= |s| && StartsWith(s[r.value..], pat)
    ensures r.Some? ==> forall i | 0 <= i < r.value :: !StartsWith(s[i..], pat)
    ensures r.None? ==> forall i | 0 <= i <= |s| :: !StartsWith(s[i..], pat)
    decreases |s|
  {
    if StartsWith(s, pat) then Some(0)
    else if |s| == 0 then None
    else
      DropFirst(s);
      match Find(s[1..], pat)
      case None => None
      case Some(i) => Some(i + 1)
  }

  /** The suffixes of `s` past its first character are those of `s[1..]`. */
  lemma DropFirst(s: string)
    requires |s| > 0
    ensures forall i | 1 <= i <= |s| :: s[i..] == s[1..][i - 1..]
  {
  }

  // ---------------------------------------------------------------------
  // Splitting

  /** Rust's `str::split` on a single character: always at least one piece,
      empty pieces kept. */
  function Split(s: string, sep: char): (parts: seq<string>)
    ensures |parts| >= 1
    ensures forall i | 0 <= i < |parts| :: sep !in parts[i]
    decreases |s|
  {
    if sep !in s then [s]
    else
      var i := IndexOf(s, sep);
      [s[..i]] + Split(s[i + 1..], sep)
  }

  /** Joins pieces with a separator character, the inverse of `Split`. */
  function Join(parts: seq<string>, sep: char): string
    requires |parts| >= 1
  {
    if |parts| == 1 then parts[0] else parts[0] + [sep] + Join(parts[1..], sep)
  }

  lemma {:induction false} JoinSplit(s: string, sep: char)
    ensures Join(Split(s, sep), sep) == s
    decreases |s|
  {
    if sep in s {
      var i := IndexOf(s, sep);
      var tail := Split(s[i + 1..], sep);
      var parts := Split(s, sep);
      assert parts == [s[..i]] + tail;
      assert |parts| > 1 && parts[0] == s[..i] && parts[1..] == tail;
      JoinSplit(s[i + 1..], sep);
      assert Join(parts, sep) == s[..i] + [sep] + Join(tail, sep);
      assert s == s[..i] + [sep] + s[i + 1..];
    }
  }

  lemma HeadTail<T>(s: seq<T>)
    requires |s| > 0
    ensures s == [s[0]] + s[1..]
  {
  }

  /** A piece without the separator, then the separator: splitting yields
      the piece first. */
  lemma SplitAfter(piece: string, sep: char, rest: string)
    requires sep !in piece
    ensures Split(piece + [sep] + rest, sep) == [piece] + Split(rest, sep)
  {
    IndexOfAfter(piece, sep, rest);
  }

  lemma {:induction false} SplitJoin(parts: seq<string>, sep: char)
    requires |parts| >= 1
    requires forall i | 0 <= i < |parts| :: sep !in parts[i]
    ensures Split(Join(parts, sep), sep) == parts
  {
    if |parts| > 1 {
      var rest := parts[1..];
      assert forall i | 0 <= i < |rest| :: sep !in rest[i] by {
        forall i | 0 <= i < |rest| ensures sep !in rest[i] {
          assert rest[i] == parts[i + 1];
        }
      }
      SplitJoin(rest, sep);
      var s, tail := Join(parts, sep), Join(rest, sep);
      assert s == parts[0] + [sep] + tail;
      SplitAfter(parts[0], sep, tail);
      HeadTail(parts);
    }
  }

  /** A character that is neither the separator nor in any piece is not in
      the joined string. */
  lemma {:induction false} JoinExcludes(parts: seq<string>, sep: char, c: char)
    requires |parts| >= 1 && c != sep
    requires forall i | 0 <= i < |parts| :: c !in parts[i]
    ensures c !in Join(parts, sep)
  {
    if |parts| > 1 {
      JoinExcludes(parts[1..], sep, c);
    }
  }

  /** The joined string ends the way its last piece ends. */
  lemma {:induction false} JoinLast(parts: seq<string>, sep: char)
    requires |parts| >= 1 && |parts[|parts| - 1]| > 0
    ensures var s, last := Join(parts, sep), parts[|parts| - 1];
      |s| > 0 && s[|s| - 1] == last[|last| - 1]
  {
    if |parts| > 1 {
      JoinLast(parts[1..], sep);
    }
  }

  /** Rust's `str::split` on a non-empty string separator. */
  function SplitOn(s: string, sep: string): (parts: seq<string>)
    requires |sep| > 0
    ensures |parts| >= 1
    decreases |s|
  {
    match Find(s, sep)
    case None => [s]
    case Some(i) => [s[..i]] + SplitOn(s[i + |sep|..], sep)
  }

  /** Rust's `str::replace`: every non-overlapping occurrence of `pat`, from
      left to right, replaced by `rep`. */
  function ReplaceAll(s: string, pat: string, rep: string): string
    requires |pat| > 0
    decreases |s|
  {
    if |s| == 0 then []
    else if StartsWith(s, pat) then rep + ReplaceAll(s[|pat|..], pat, rep)
    else [s[0]] + ReplaceAll(s[1..], pat, rep)
  }

  /** Removing every occurrence of a single character leaves none behind and
      keeps every other character, in order. */
  lemma {:induction false} ReplaceCharRemoves(s: string, c: char)
    ensures c !in ReplaceAll(s, [c], [])
    ensures |ReplaceAll(s, [c], [])| <= |s|
    decreases |s|
  {
    if |s| > 0 {
      ReplaceCharRemoves(s[1..], c);
    }
  }

  /** Text without the first character of `pat` is left alone by removing `pat`. */
  lemma {:induction false} ReplaceAbsent(s: string, pat: string)
    requires |pat| > 0 && pat[0] !in s
    ensures ReplaceAll(s, pat, "") == s
    decreases |s|
  {
    if |s| > 0 {
      assert s[0] != pat[0];
      ReplaceAbsent(s[1..], pat);
      assert s == [s[0]] + s[1..];
    }
  }

  /** Removing a character from two joined texts removes it from each. */
  lemma {:induction false} ReplaceCharConcat(a: string, b: string, c: char)
    ensures ReplaceAll(a + b, [c], []) == ReplaceAll(a, [c], []) + ReplaceAll(b, [c], [])
    decreases |a|
  {
    if |a| > 0 {
      ReplaceCharConcat(a[1..], b, c);
      assert (a + b)[1..] == a[1..] + b;
    } else {
      assert a + b == b;
    }
  }

  /** A decimal spelling holds only digits. */
  lemma DecimalHasNo(n: nat, c: char)
    requires !IsDigit(c)
    ensures c !in Decimal(n)
  {
  }

  /** Rust's `char::is_ascii_whitespace`. */
  predicate IsAsciiSpace(c: char)
  {
    c == ' ' || c == '\t' || c == '\n' || c == '\U{000C}' || c == '\r'
  }

  /** Rust's `str::split_ascii_whitespace`: the maximal runs of
      non-whitespace, in order. */
  function Words(s: string): (ws: seq<string>)
    ensures forall i | 0 <= i < |ws| :: |ws[i]| > 0 && forall j | 0 <= j < |ws[i]| :: !IsAsciiSpace(ws[i][j])
    decreases |s|
  {
    if |s| == 0 then []
    else if IsAsciiSpace(s[0]) then Words(s[1..])
    else
      var n := WordLength(s);
      [s[..n]] + Words(s[n..])
  }

  /** Length of the run of non-whitespace at the start of `s`. */
  function WordLength(s: string): (n: nat)
    ensures n <= |s|
    ensures forall j | 0 <= j < n :: !IsAsciiSpace(s[j])
    ensures n < |s| ==> IsAsciiSpace(s[n])
  {
    if |s| == 0 || IsAsciiSpace(s[0]) then 0 else 1 + WordLength(s[1..])
  }

  /** A string without whitespace is one word, or none if it is empty. */
  lemma {:induction false} WordsOfUnbroken(s: string)
    requires forall i | 0 <= i < |s| :: !IsAsciiSpace(s[i])
    ensures Words(s) == if |s| == 0 then [] else [s]
  {
    if |s| > 0 {
      var n := WordLength(s);
      assert n == |s|;
      assert s[..n] == s && s[n..] == [];
      assert Words(s) == [s[..n]] + Words(s[n..]);
    }
  }

  /** Rust's `str::lines`: split at `\n`, a `\r` before the `\n` dropped, and
      no empty last line for input that ends in a line break. */
  function Lines(s: string): (ls: seq<string>)
    ensures forall i | 0 <= i < |ls| :: '\n' !in ls[i]
    decreases |s|
  {
    if |s| == 0 then []
    else if '\n' !in s then [s]
    else
      var i := IndexOf(s, '\n');
      var line := s[..i];
      [if |line| > 0 && line[|line| - 1] == '\r' then line[..|line| - 1] else line] + Lines(s[i + 1..])
  }

  /** Lines joined by `\n`, blank ones included, with a last line that is
      not blank: `lines` gives them back. */
  lemma {:induction false} LinesOfJoined(ls: seq<string>)
    requires |ls| >= 1 && |ls[|ls| - 1]| > 0
    requires forall i | 0 <= i < |ls| :: '\n' !in ls[i] && (|ls[i]| > 0 ==> ls[i][|ls[i]| - 1] != '\r')
    ensures Lines(Join(ls, '\n')) == ls
  {
    var s := Join(ls, '\n');
    if |ls| > 1 {
      LinesOfJoined(ls[1..]);
      IndexOfAfter(ls[0], '\n', Join(ls[1..], '\n'));
    }
  }

  // ---------------------------------------------------------------------
  // nom-style scanners: each returns the value it recognised and the input
  // that follows, or fails without consuming anything.

  datatype Parse<+T> = Parsed(value: T, rest: string) | Failed

  /** Length of the run of digits at the start of `s`. */
  function DigitRun(s: string): (n: nat)
    ensures n <= |s| && AllDigits(s[..n])
    ensures n < |s| ==> !IsDigit(s[n])
  {
    if |s| == 0 || !IsDigit(s[0]) then 0
    else
      var n := 1 + DigitRun(s[1..]);
      assert forall j | 1 <= j < n :: s[..n][j] == s[1..][..n - 1][j - 1];
      n
  }

  /** `nom::character::complete::digit1`: one or more digits, as many as there are. */
  function Digit1(s: string): (r: Parse<string>)
    ensures r.Parsed? ==> |r.value| > 0 && AllDigits(r.value) && s == r.value + r.rest
    ensures r.Parsed? ==> r.rest == [] || !IsDigit(r.rest[0])
    ensures r.Failed? <==> (|s| == 0 || !IsDigit(s[0]))
  {
    var n := DigitRun(s);
    if n == 0 then Failed
    else
      assert s == s[..n] + s[n..];
      Parsed(s[..n], s[n..])
  }

  /** An unsigned number of at most `max`: `nom::character::complete::u32`
      with `max` = U32_MAX, or `digit1` mapped through `parse::<i64>` with
      `max` = I64_MAX. A value out of range is an error. */
  function Unsigned(s: string, max: nat): (r: Parse<nat>)
    ensures r.Parsed? ==> r.value <= max && |r.rest| < |s|
  {
    match Digit1(s)
    case Failed => Failed
    case Parsed(digits, rest) =>
      var v := DecimalValue(digits);
      if v <= max then Parsed(v, rest) else Failed
  }

  /** The decimal spelling of `n`, followed by text that does not start with a
      digit, scans back to `n`. */
  lemma UnsignedDecimal(n: nat, max: nat, rest: string)
    requires n <= max
    requires rest == [] || !IsDigit(rest[0])
    ensures Unsigned(Decimal(n) + rest, max) == Parsed(n, rest)
  {
    var s := Decimal(n) + rest;
    var d := Digit1(s);
    var k, m := |Decimal(n)|, DigitRun(s);
    assert forall j | 0 <= j < k :: s[j] == Decimal(n)[j];
    assert k < |s| ==> s[k] == rest[0];
    assert forall j | 0 <= j < m :: s[..m][j] == s[j];
    assert m == k;
    assert s[..m] == Decimal(n) && s[m..] == rest;
  }

  /** `nom::character::complete::space0`: skips spaces and tabs. */
  function Space0(s: string): (rest: string)
    ensures |rest| <= |s|
    ensures rest == [] || (rest[0] != ' ' && rest[0] != '\t')
    ensures s == s[..|s| - |rest|] + rest
  {
    if |s| > 0 && (s[0] == ' ' || s[0] == '\t') then Space0(s[1..]) else s
  }

  /** `nom::bytes::complete::tag`: the exact text `t`. */
  function Tag(s: string, t: string): (r: Parse<string>)
    ensures r.Parsed? <==> StartsWith(s, t)
    ensures r.Parsed? ==> s == t + r.rest
  {
    if StartsWith(s, t) then
      assert s == t + s[|t|..];
      Parsed(t, s[|t|..])
    else Failed
  }

  /** `rev()` collected: the elements in the opposite order. */
  function Reversed<T>(s: seq<T>): (r: seq<T>)
    ensures |r| == |s| && forall i | 0 <= i < |s| :: r[i] == s[|s| - 1 - i]
  {
    if s == [] then [] else Reversed(s[1..]) + [s[0]]
  }
}
