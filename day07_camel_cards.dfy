/** Day 7, camel cards: hands of cards with bids. A hand's type comes from
    how many cards share a value (jokers, value 1, join whichever group helps
    most); hands are ranked by type and then card by card, and the winnings
    are every bid times its hand's rank. */
module CamelCards {
  import opened Wrappers
  import opened Text

  /** A hand: its card values in the order dealt, and its bid. */
  datatype Hand = Hand(cards: seq<int>, bid: int)

  datatype Ordering = Less | Equal | Greater

  // ---------------------------------------------------------------------
  // Parsing

  /** The value of one card character; the jack is the weakest card (1) when
      jokers are in play and sits between ten and queen (11) otherwise.
      Any other character that is not a decimal digit stops the program. */
  function CardValue(c: char, joker: bool): (v: Option<int>)
    ensures v.Some? <==> c in "AKQJT" || IsDigit(c)
    ensures v.Some? ==> 0 <= v.value <= 14
    ensures v.Some? && IsDigit(c) ==> v.value == DigitValue(c) <= 9
    ensures v == Some(1) <==> (joker && c == 'J') || c == '1'
  {
    if c == 'A' then Some(14)
    else if c == 'K' then Some(13)
    else if c == 'Q' then Some(12)
    else if c == 'J' then (if joker then Some(1) else Some(11))
    else if c == 'T' then Some(10)
    else if IsDigit(c) then Some(DigitValue(c))
    else None
  }

  /** A character for every card value: the parse reaches each value from
      0 to 14, except the plain jack (11) when jokers are in play. */
  function CardChar(v: int, joker: bool): (c: char)
    requires 0 <= v <= 14 && !(joker && v == 11)
    ensures CardValue(c, joker) == Some(v)
  {
    if v == 14 then 'A'
    else if v == 13 then 'K'
    else if v == 12 then 'Q'
    else if v == 11 then 'J'
    else if v == 10 then 'T'
    else DigitChar(v)
  }

  function CardValues(s: string, joker: bool): (r: Option<seq<int>>)
    ensures r.Some? <==> forall i | 0 <= i < |s| :: CardValue(s[i], joker).Some?
    ensures r.Some? ==>
      |r.value| == |s| && forall i | 0 <= i < |s| :: r.value[i] == CardValue(s[i], joker).value
  {
    if s == [] then Some([])
    else
      match CardValue(s[0], joker)
      case None => None
      case Some(v) =>
        match CardValues(s[1..], joker)
        case None => None
        case Some(vs) => Some([v] + vs)
  }

  /** One line: the cards, a space, the bid as an `i64`. A missing or bad bid
      or an unknown card character stops the program (`None`). */
  function ParseHand(line: string, joker: bool): (r: Option<Hand>)
    ensures r.Some? ==> |r.value.cards| == |Split(line, ' ')[0]|
    ensures r.Some? ==> CardValues(Split(line, ' ')[0], joker) == Some(r.value.cards)
    ensures r.Some? ==> I64_MIN <= r.value.bid <= I64_MAX
  {
    var parts := Split(line, ' ');
    match CardValues(parts[0], joker)
    case None => None
    case Some(cards) =>
      if |parts| < 2 then None
      else
        match ParseInt(parts[1], I64_MIN, I64_MAX)
        case None => None
        case Some(bid) => Some(Hand(cards, bid))
  }

  /** The cards written back as characters. */
  function CardsText(cards: seq<int>, joker: bool): (s: string)
    requires forall i | 0 <= i < |cards| :: 0 <= cards[i] <= 14 && !(joker && cards[i] == 11)
    ensures |s| == |cards| && forall i | 0 <= i < |cards| :: CardValue(s[i], joker) == Some(cards[i])
  {
    if cards == [] then [] else [CardChar(cards[0], joker)] + CardsText(cards[1..], joker)
  }

  /** A hand written as its cards, a space and its bid parses back to the
      same hand. */
  lemma ParseHandText(cards: seq<int>, bid: int, joker: bool)
    requires forall i | 0 <= i < |cards| :: 0 <= cards[i] <= 14 && !(joker && cards[i] == 11)
    requires I64_MIN <= bid <= I64_MAX
    ensures ParseHand(CardsText(cards, joker) + " " + IntText(bid), joker) == Some(Hand(cards, bid))
  {
    var text, num := CardsText(cards, joker), IntText(bid);
    SplitTwoWords(text, num, joker);
    assert CardValues(text, joker).value == cards;
    ParseIntText(bid, I64_MIN, I64_MAX);
  }

  lemma SplitTwoWords(text: string, num: string, joker: bool)
    requires forall i | 0 <= i < |text| :: CardValue(text[i], joker).Some?
    requires forall i | 0 <= i < |num| :: IsDigit(num[i]) || num[i] == '-'
    ensures Split(text + " " + num, ' ') == [text, num]
  {
    forall i | 0 <= i < |text| ensures text[i] != ' ' {
      assert CardValue(text[i], joker).Some?;
    }
    SplitAfter(text, ' ', num);
    SplitJoin([num], ' ');
  }

  /** `parse_input`: one hand per line. */
  function ParseInput(input: string, joker: bool): (r: Option<seq<Hand>>)
    ensures r.Some? ==>
      |r.value| == |Lines(input)| && forall i | 0 <= i < |r.value| :: ParseHand(Lines(input)[i], joker) == Some(r.value[i])
  {
    ParseLines(Lines(input), joker)
  }

  function ParseLines(lines: seq<string>, joker: bool): (r: Option<seq<Hand>>)
    ensures r.Some? ==>
      |r.value| == |lines| && forall i | 0 <= i < |lines| :: ParseHand(lines[i], joker) == Some(r.value[i])
    ensures r.None? ==> exists i | 0 <= i < |lines| :: ParseHand(lines[i], joker).None?
  {
    if lines == [] then Some([])
    else
      match ParseHand(lines[0], joker)
      case None => None
      case Some(h) =>
        match ParseLines(lines[1..], joker)
        case None => None
        case Some(hs) => Some([h] + hs)
  }

  // ---------------------------------------------------------------------
  // Group sizes

  function Count(s: seq<int>, v: int): (n: nat)
    ensures n <= |s|
    ensures n == 0 <==> v !in s
  {
    if s == [] then 0 else (if s[0] == v then 1 else 0) + Count(s[1..], v)
  }

  /** `s` without any card of value `v` (the filter that drops jokers). */
  function RemoveAll(s: seq<int>, v: int): (r: seq<int>)
    ensures |r| + Count(s, v) == |s|
    ensures forall x :: x in r <==> x in s && x != v
  {
    if s == [] then [] else (if s[0] == v then [] else [s[0]]) + RemoveAll(s[1..], v)
  }

  /** Dropping one value leaves the count of every other value alone. */
  lemma {:induction false} CountRemoveAll(s: seq<int>, v: int, w: int)
    requires w != v
    ensures Count(RemoveAll(s, v), w) == Count(s, w)
  {
    if s != [] {
      var r := RemoveAll(s[1..], v);
      CountRemoveAll(s[1..], v, w);
      if s[0] != v {
        assert RemoveAll(s, v) == [s[0]] + r;
        CountCons(s[0], r, w);
      } else {
        assert RemoveAll(s, v) == [] + r == r;
      }
    }
  }

  lemma CountCons(x: int, s: seq<int>, w: int)
    ensures Count([x] + s, w) == (if x == w then 1 else 0) + Count(s, w)
  {
    assert ([x] + s)[1..] == s;
  }

  /** The distinct values of `s`, each once, in order of first appearance. */
  function Distinct(s: seq<int>): (d: seq<int>)
    ensures forall v :: v in d <==> v in s
    ensures forall i, j | 0 <= i < j < |d| :: d[i] != d[j]
    decreases |s|
  {
    if s == [] then [] else [s[0]] + Distinct(RemoveAll(s, s[0]))
  }

  function Sum(s: seq<nat>): nat
  {
    if s == [] then 0 else s[0] + Sum(s[1..])
  }

  /** How many cards share each value, one entry per distinct value. The
      source counts the runs of the sorted cards; the entries are sorted
      afterwards, so the order in which values are visited does not matter. */
  function Counts(s: seq<int>): (r: seq<nat>)
    ensures Sum(r) == |s|
    ensures forall i | 0 <= i < |r| :: r[i] >= 1
    decreases |s|
  {
    if s == [] then []
    else [Count(s, s[0])] + Counts(RemoveAll(s, s[0]))
  }

  /** The counts are the multiplicities of the distinct values, in order of
      first appearance. */
  lemma {:induction false} CountsOfDistinct(s: seq<int>)
    ensures Counts(s) == Multiplicities(s, Distinct(s))
    decreases |s|
  {
    if s != [] {
      var rest := RemoveAll(s, s[0]);
      CountsOfDistinct(rest);
      var d := Distinct(rest);
      forall i | 0 <= i < |d| ensures Count(rest, d[i]) == Count(s, d[i]) {
        CountRemoveAll(s, s[0], d[i]);
      }
      assert Multiplicities(rest, d) == Multiplicities(s, d);
    }
  }

  /** How many cards of each of the values `vs` the hand holds. */
  function Multiplicities(s: seq<int>, vs: seq<int>): (r: seq<nat>)
    ensures |r| == |vs| && forall i | 0 <= i < |vs| :: r[i] == Count(s, vs[i])
  {
    if vs == [] then [] else [Count(s, vs[0])] + Multiplicities(s, vs[1..])
  }

  predicate Descending(s: seq<nat>)
  {
    forall i, j | 0 <= i < j < |s| :: s[i] >= s[j]
  }

  function InsertDescending(x: nat, s: seq<nat>): (r: seq<nat>)
    requires Descending(s)
    ensures Descending(r) && multiset(r) == multiset(s) + multiset{x}
    ensures Sum(r) == x + Sum(s) && |r| == |s| + 1
  {
    if s == [] || x >= s[0] then [x] + s
    else
      var rest := InsertDescending(x, s[1..]);
      InsertBelowHead(x, s, rest);
      [s[0]] + rest
  }

  lemma InsertBelowHead(x: nat, s: seq<nat>, rest: seq<nat>)
    requires |s| > 0 && Descending(s) && x < s[0]
    requires Descending(rest) && multiset(rest) == multiset(s[1..]) + multiset{x}
    ensures Descending([s[0]] + rest)
    ensures multiset([s[0]] + rest) == multiset(s) + multiset{x}
  {
    assert s == [s[0]] + s[1..];
    forall k | 0 <= k < |rest| ensures s[0] >= rest[k] {
      assert rest[k] in multiset(rest);
      if rest[k] != x {
        assert rest[k] in s[1..];
      }
    }
  }

  /** `sorted().rev()` on the counts. */
  function SortDescending(s: seq<nat>): (r: seq<nat>)
    ensures Descending(r) && multiset(r) == multiset(s)
    ensures Sum(r) == Sum(s) && |r| == |s|
  {
    if s == [] then [] else
      assert s == [s[0]] + s[1..];
      InsertDescending(s[0], SortDescending(s[1..]))
  }

  /** The sizes of the groups of equal non-joker cards, largest first: one
      group per distinct value other than the joker, as large as the number
      of cards of that value. */
  function GroupSizes(cards: seq<int>): (g: seq<nat>)
    ensures Descending(g) && Sum(g) == |cards| - Count(cards, 1)
    ensures forall i | 0 <= i < |g| :: g[i] >= 1
  {
    var c := Counts(RemoveAll(cards, 1));
    var g := SortDescending(c);
    PositiveKept(c, g);
    g
  }

  /** The group sizes, in some order, are the numbers of cards of each
      distinct value other than the joker. */
  lemma GroupSizesOfValues(cards: seq<int>)
    ensures var d := Distinct(RemoveAll(cards, 1));
      && (forall v :: v in d <==> v in cards && v != 1)
      && multiset(GroupSizes(cards)) == multiset(Multiplicities(cards, d))
  {
    var rest := RemoveAll(cards, 1);
    var d := Distinct(rest);
    CountsOfDistinct(rest);
    forall i | 0 <= i < |d| ensures Count(rest, d[i]) == Count(cards, d[i]) {
      CountRemoveAll(cards, 1, d[i]);
    }
    assert Multiplicities(rest, d) == Multiplicities(cards, d);
  }

  lemma PositiveKept(c: seq<nat>, g: seq<nat>)
    requires multiset(g) == multiset(c) && forall i | 0 <= i < |c| :: c[i] >= 1
    ensures forall i | 0 <= i < |g| :: g[i] >= 1
  {
    forall i | 0 <= i < |g| ensures g[i] >= 1 {
      assert g[i] in multiset(c);
    }
  }

  // ---------------------------------------------------------------------
  // Hand types

  /** The table of `hand_type`: group sizes to type, from 7 (five of a kind)
      down to 1 (high card); lists of groups that a hand with jokers can have
      share the row of the type they reach. Any other list panics. */
  function TypeOf(g: seq<nat>): (t: Option<int>)
    ensures t.Some? ==> 1 <= t.value <= 7 && |g| <= 5
  {
    if |g| == 0 || (|g| == 1 && 1 <= g[0] <= 5) then Some(7)
    else if |g| == 2 && 1 <= g[0] <= 4 && g[1] == 1 then Some(6)
    else if |g| == 2 && 2 <= g[0] <= 3 && g[1] == 2 then Some(5)
    else if |g| == 3 && 1 <= g[0] <= 3 && g[1] == 1 && g[2] == 1 then Some(4)
    else if |g| == 3 && g[0] == 2 && g[1] == 2 && g[2] == 1 then Some(3)
    else if |g| == 4 && 1 <= g[0] <= 2 && g[1] == 1 && g[2] == 1 && g[3] == 1 then Some(2)
    else if |g| == 5 && g[0] == 1 && g[1] == 1 && g[2] == 1 && g[3] == 1 && g[4] == 1 then Some(1)
    else None
  }

  /** `hand_type`: `None` where the source panics. */
  function HandType(cards: seq<int>): (t: Option<int>)
    ensures t.Some? ==> 1 <= t.value <= 7
  {
    TypeOf(GroupSizes(cards))
  }

  lemma {:induction false} SumAtLeastLength(g: seq<nat>)
    requires forall i | 0 <= i < |g| :: g[i] >= 1
    ensures Sum(g) >= |g|
  {
    if g != [] {
      SumAtLeastLength(g[1..]);
    }
  }

  /** Every descending list of positive group sizes adding up to at most five
      is in the table; with fewer than five cards counted, it has the type the
      remaining cards reach when all are added to the largest group. */
  lemma TypeOfPartition(g: seq<nat>, jokers: nat)
    requires Descending(g) && forall i | 0 <= i < |g| :: g[i] >= 1
    requires Sum(g) + jokers == 5
    ensures TypeOf(g).Some? && 1 <= TypeOf(g).value <= 7
    ensures g == [] ==> TypeOf(g) == Some(7)
    ensures g != [] ==> TypeOf(g) == TypeOf(g[0 := g[0] + jokers])
  {
    SumAtLeastLength(g);
    if |g| > 0 {
      SumElements(g);
    }
  }

  lemma SumDrop(g: seq<nat>, k: nat)
    requires k < |g|
    ensures Sum(g[k..]) == g[k] + Sum(g[k + 1..])
  {
    assert g[k..][1..] == g[k + 1..];
  }

  /** The sum of a list of at most five, written out. */
  lemma SumElements(g: seq<nat>)
    requires 1 <= |g| <= 5
    ensures Sum(g) == g[0] + (if |g| > 1 then g[1] else 0) + (if |g| > 2 then g[2] else 0)
      + (if |g| > 3 then g[3] else 0) + (if |g| > 4 then g[4] else 0)
  {
    var n := |g|;
    assert g[n..] == [];
    if n > 4 { SumDrop(g, 4); }
    if n > 3 { SumDrop(g, 3); }
    if n > 2 { SumDrop(g, 2); }
    if n > 1 { SumDrop(g, 1); }
    SumDrop(g, 0);
    assert g[0..] == g;
  }

  /** A hand of five cards always has a type in 1..7: the panic arm is never
      reached. */
  lemma HandTypeTotal(cards: seq<int>)
    requires |cards| == 5
    ensures HandType(cards).Some? && 1 <= HandType(cards).value <= 7
  {
    TypeOfPartition(GroupSizes(cards), Count(cards, 1));
  }

  /** The groups once the jokers join the largest group, or form a group of
      their own when every card is a joker. */
  function JokersJoined(g: seq<nat>, jokers: nat): (r: seq<nat>)
    ensures |r| == if g == [] then 1 else |g|
    ensures r[0] == (if g == [] then 0 else g[0]) + jokers
    ensures r[1..] == if g == [] then [] else g[1..]
  {
    if g == [] then [jokers] else g[0 := g[0] + jokers]
  }

  lemma TypeOfJokersJoined(g: seq<nat>, jokers: nat)
    requires Descending(g) && forall i | 0 <= i < |g| :: g[i] >= 1
    requires Sum(g) + jokers == 5
    ensures TypeOf(JokersJoined(g, jokers)) == TypeOf(g)
  {
    TypeOfPartition(g, jokers);
    if g == [] {
      assert JokersJoined(g, jokers) == [5];
    }
  }

  /** Jokers are worth most in the largest group: a hand's type is the type
      of its jokerless groups with all jokers joined to the largest one. */
  lemma HandTypeJokers(cards: seq<int>)
    requires |cards| == 5
    ensures HandType(cards) == TypeOf(JokersJoined(GroupSizes(cards), Count(cards, 1)))
  {
    TypeOfJokersJoined(GroupSizes(cards), Count(cards, 1));
  }

  /** Without jokers the table reads as the usual hand names, told apart by
      the number of distinct values and the size of the largest group: five
      of a kind, four of a kind, full house, three of a kind, two pair, one
      pair, high card. */
  lemma TypeOfFiveCards(g: seq<nat>)
    requires Descending(g) && forall i | 0 <= i < |g| :: g[i] >= 1
    requires Sum(g) == 5
    ensures TypeOf(g) == Some(7) <==> |g| == 1
    ensures TypeOf(g) == Some(6) <==> |g| == 2 && g[0] == 4
    ensures TypeOf(g) == Some(5) <==> |g| == 2 && g[0] == 3
    ensures TypeOf(g) == Some(4) <==> |g| == 3 && g[0] == 3
    ensures TypeOf(g) == Some(3) <==> |g| == 3 && g[0] == 2
    ensures TypeOf(g) == Some(2) <==> |g| == 4
    ensures TypeOf(g) == Some(1) <==> |g| == 5
  {
    SumAtLeastLength(g);
    SumElements(g);
    assert |g| > 1 ==> g[0] >= g[1];
    assert |g| > 2 ==> g[1] >= g[2];
    assert |g| > 3 ==> g[2] >= g[3];
    assert |g| > 4 ==> g[3] >= g[4];
  }

  // ---------------------------------------------------------------------
  // Comparing hands

  /** The first position, within the shorter of the two, where the cards
      differ (the `zip` and `find_map` of the source). */
  function FirstDifference(a: seq<int>, b: seq<int>): (r: Option<nat>)
    ensures r.Some? ==> r.value < |a| && r.value < |b| && a[r.value] != b[r.value] && a[..r.value] == b[..r.value]
    ensures r.None? ==> forall i | 0 <= i < |a| && i < |b| :: a[i] == b[i]
  {
    if a == [] || b == [] then None
    else if a[0] != b[0] then Some(0)
    else
      match FirstDifference(a[1..], b[1..])
      case None => None
      case Some(i) =>
        assert a[..i + 1] == [a[0]] + a[1..][..i];
        assert b[..i + 1] == [b[0]] + b[1..][..i];
        Some(i + 1)
  }

  function CompareInt(x: int, y: int): Ordering
  {
    if x < y then Less else if x == y then Equal else Greater
  }

  /** The comparison once both types are known: `None` when a type is
      missing, or when the types agree and the cards never differ. */
  function CompareTyped(t: Option<int>, u: Option<int>, x: seq<int>, y: seq<int>): Option<Ordering>
  {
    match (t, u)
    case (Some(t), Some(u)) =>
      if t == u then
        match FirstDifference(x, y)
        case None => None
        case Some(i) => Some(CompareInt(x[i], y[i]))
      else Some(CompareInt(t, u))
    case _ => None
  }

  /** `Ord::cmp`: by type, then by the first differing card. `None` where the
      source panics. */
  function Compare(a: Hand, b: Hand): (r: Option<Ordering>)
    ensures r.Some? ==> HandType(a.cards).Some? && HandType(b.cards).Some?
    ensures r != Some(Equal)
  {
    CompareTypedNeverEqual(HandType(a.cards), HandType(b.cards), a.cards, b.cards);
    CompareTyped(HandType(a.cards), HandType(b.cards), a.cards, b.cards)
  }

  function Flip(o: Option<Ordering>): Option<Ordering>
  {
    match o
    case None => None
    case Some(Less) => Some(Greater)
    case Some(Equal) => Some(Equal)
    case Some(Greater) => Some(Less)
  }

  /** `PartialEq::eq`: whether `cmp` answers `Equal`, which it never does:
      it decides or it panics. */
  function HandsEqual(a: Hand, b: Hand): (r: Option<bool>)
    ensures r.Some? <==> Compare(a, b).Some?
    ensures r != Some(true)
  {
    CompareTypedNeverEqual(HandType(a.cards), HandType(b.cards), a.cards, b.cards);
    match Compare(a, b)
    case None => None
    case Some(o) => Some(o == Equal)
  }

  /** Two five-card hands with different cards always compare; identical
      cards always panic. */
  lemma CompareDefined(a: Hand, b: Hand)
    requires |a.cards| == 5 && |b.cards| == 5
    ensures Compare(a, b).Some? <==> a.cards != b.cards
  {
    HandTypeTotal(a.cards);
    HandTypeTotal(b.cards);
    CompareTypedDefined(HandType(a.cards), HandType(b.cards), a.cards, b.cards);
  }

  lemma CompareTypedDefined(t: Option<int>, u: Option<int>, x: seq<int>, y: seq<int>)
    requires t.Some? && u.Some? && |x| == |y| && (x == y ==> t == u)
    ensures CompareTyped(t, u, x, y).Some? <==> x != y
  {
    if x != y && t == u {
      var i :| 0 <= i < |x| && x[i] != y[i];
    }
  }

  /** The first difference is the one position where the cards differ after
      agreeing everywhere before. */
  lemma {:induction false} FirstDifferenceAt(x: seq<int>, y: seq<int>, k: nat)
    requires k < |x| && k < |y| && x[k] != y[k]
    requires forall m | 0 <= m < k :: x[m] == y[m]
    ensures FirstDifference(x, y) == Some(k)
  {
    if k > 0 {
      FirstDifferenceAt(x[1..], y[1..], k - 1);
    }
  }

  lemma FirstDifferenceSymmetric(x: seq<int>, y: seq<int>)
    ensures FirstDifference(y, x) == FirstDifference(x, y)
  {
    match FirstDifference(x, y)
    case None =>
    case Some(i) =>
      forall m | 0 <= m < i ensures y[m] == x[m] {
        assert x[m] == x[..i][m] && y[m] == y[..i][m];
      }
      FirstDifferenceAt(y, x, i);
  }

  lemma CompareTypedAntisymmetric(t: Option<int>, u: Option<int>, x: seq<int>, y: seq<int>)
    ensures CompareTyped(u, t, y, x) == Flip(CompareTyped(t, u, x, y))
  {
    FirstDifferenceSymmetric(x, y);
  }

  /** Where two differences are found, a third sequence that agrees with the
      first up to its difference and with the second up to its own. */
  lemma FirstDifferenceChain(x: seq<int>, y: seq<int>, z: seq<int>, i: nat, j: nat)
    requires FirstDifference(x, y) == Some(i) && FirstDifference(y, z) == Some(j)
    requires x[i] < y[i] && y[j] < z[j]
    ensures var k := if i <= j then i else j;
      FirstDifference(x, z) == Some(k) && x[k] < z[k]
  {
    var k := if i <= j then i else j;
    forall m | 0 <= m < k ensures x[m] == z[m] {
      assert x[m] == x[..i][m] && y[m] == y[..i][m];
      assert y[m] == y[..j][m] && z[m] == z[..j][m];
    }
    if i < j {
      assert y[i] == y[..j][i] && z[i] == z[..j][i];
    } else if j < i {
      assert x[j] == x[..i][j] && y[j] == y[..i][j];
    }
    FirstDifferenceAt(x, z, k);
  }

  lemma CompareTypedNeverEqual(t: Option<int>, u: Option<int>, x: seq<int>, y: seq<int>)
    ensures CompareTyped(t, u, x, y) != Some(Equal)
  {
  }

  lemma CompareTypedTransitive(t: Option<int>, u: Option<int>, v: Option<int>, x: seq<int>, y: seq<int>, z: seq<int>)
    requires CompareTyped(t, u, x, y) == Some(Less) && CompareTyped(u, v, y, z) == Some(Less)
    ensures CompareTyped(t, v, x, z) == Some(Less)
  {
    if t == u == v {
      var i, j := FirstDifference(x, y).value, FirstDifference(y, z).value;
      FirstDifferenceChain(x, y, z, i, j);
    }
  }

  /** `cmp` is a strict order wherever it does not panic: flipping the
      arguments flips the answer, it never answers `Equal`, and it is
      transitive. */
  ghost predicate StrictOrder(cmp: (Hand, Hand) -> Option<Ordering>)
  {
    && (forall a, b :: cmp(b, a) == Flip(cmp(a, b)))
    && (forall a, b :: cmp(a, b) != Some(Equal))
    && (forall a, b, c :: cmp(a, b) == Some(Less) && cmp(b, c) == Some(Less) ==> cmp(a, c) == Some(Less))
  }

  lemma CompareStrictOrder()
    ensures StrictOrder(Compare)
  {
    forall a, b ensures Compare(b, a) == Flip(Compare(a, b)) {
      CompareTypedAntisymmetric(HandType(a.cards), HandType(b.cards), a.cards, b.cards);
    }
    forall a, b ensures Compare(a, b) != Some(Equal) {
      CompareTypedNeverEqual(HandType(a.cards), HandType(b.cards), a.cards, b.cards);
    }
    forall a, b, c | Compare(a, b) == Some(Less) && Compare(b, c) == Some(Less)
      ensures Compare(a, c) == Some(Less)
    {
      CompareTypedTransitive(HandType(a.cards), HandType(b.cards), HandType(c.cards), a.cards, b.cards, c.cards);
    }
  }

  // ---------------------------------------------------------------------
  // Ranking

  /** Every two hands at different positions compare without panicking. */
  predicate Comparable(hs: seq<Hand>, cmp: (Hand, Hand) -> Option<Ordering>)
  {
    forall i, j | 0 <= i < |hs| && 0 <= j < |hs| && i != j :: cmp(hs[i], hs[j]).Some?
  }

  /** Strictly increasing under `cmp`. */
  predicate Ascending(s: seq<Hand>, cmp: (Hand, Hand) -> Option<Ordering>)
  {
    forall i, j | 0 <= i < j < |s| :: cmp(s[i], s[j]) == Some(Less)
  }

  function Insert(h: Hand, s: seq<Hand>, cmp: (Hand, Hand) -> Option<Ordering>): (r: seq<Hand>)
    requires StrictOrder(cmp)
    requires Ascending(s, cmp) && forall k | 0 <= k < |s| :: cmp(h, s[k]).Some?
    ensures Ascending(r, cmp) && multiset(r) == multiset(s) + multiset{h}
  {
    if s == [] then [h]
    else if cmp(h, s[0]) == Some(Less) then
      InsertFront(h, s, cmp);
      [h] + s
    else
      var rest := Insert(h, s[1..], cmp);
      InsertBehind(h, s, rest, cmp);
      [s[0]] + rest
  }

  lemma InsertFront(h: Hand, s: seq<Hand>, cmp: (Hand, Hand) -> Option<Ordering>)
    requires StrictOrder(cmp)
    requires |s| > 0 && Ascending(s, cmp) && cmp(h, s[0]) == Some(Less)
    ensures Ascending([h] + s, cmp)
  {
    forall k | 0 < k < |s| ensures cmp(h, s[k]) == Some(Less) {
      assert cmp(s[0], s[k]) == Some(Less);
    }
  }

  lemma InsertBehind(h: Hand, s: seq<Hand>, rest: seq<Hand>, cmp: (Hand, Hand) -> Option<Ordering>)
    requires StrictOrder(cmp)
    requires |s| > 0 && Ascending(s, cmp) && cmp(h, s[0]).Some? && cmp(h, s[0]) != Some(Less)
    requires Ascending(rest, cmp) && multiset(rest) == multiset(s[1..]) + multiset{h}
    ensures Ascending([s[0]] + rest, cmp)
    ensures multiset([s[0]] + rest) == multiset(s) + multiset{h}
  {
    assert cmp(s[0], h) == Flip(cmp(h, s[0]));
    assert s == [s[0]] + s[1..];
    forall k | 0 <= k < |rest| ensures cmp(s[0], rest[k]) == Some(Less) {
      assert rest[k] in multiset(rest);
      if rest[k] != h {
        assert rest[k] in s[1..];
      }
    }
  }

  /** `sorted()`: the hands in ascending order. */
  function SortHands(hs: seq<Hand>, cmp: (Hand, Hand) -> Option<Ordering>): (r: seq<Hand>)
    requires StrictOrder(cmp) && Comparable(hs, cmp)
    ensures Ascending(r, cmp) && multiset(r) == multiset(hs)
  {
    if hs == [] then []
    else
      ComparableTail(hs, cmp);
      var rest := SortHands(hs[1..], cmp);
      HeadComparable(hs, rest, cmp);
      assert hs == [hs[0]] + hs[1..];
      Insert(hs[0], rest, cmp)
  }

  lemma ComparableTail(hs: seq<Hand>, cmp: (Hand, Hand) -> Option<Ordering>)
    requires |hs| > 0 && Comparable(hs, cmp)
    ensures Comparable(hs[1..], cmp)
  {
    forall i, j | 0 <= i < |hs| - 1 && 0 <= j < |hs| - 1 && i != j
      ensures cmp(hs[1..][i], hs[1..][j]).Some?
    {
      assert hs[1..][i] == hs[i + 1] && hs[1..][j] == hs[j + 1];
    }
  }

  /** The first hand compares with every hand of any rearrangement of the others. */
  lemma HeadComparable(hs: seq<Hand>, rest: seq<Hand>, cmp: (Hand, Hand) -> Option<Ordering>)
    requires |hs| > 0 && Comparable(hs, cmp) && multiset(rest) == multiset(hs[1..])
    ensures forall k | 0 <= k < |rest| :: cmp(hs[0], rest[k]).Some?
  {
    forall k | 0 <= k < |rest| ensures cmp(hs[0], rest[k]).Some? {
      assert rest[k] in multiset(hs[1..]);
      var j :| 0 <= j < |hs| - 1 && hs[1..][j] == rest[k];
      assert hs[j + 1] == rest[k];
    }
  }

  lemma MultisetTail(s: seq<Hand>)
    requires |s| > 0
    ensures multiset(s[1..]) == multiset(s) - multiset{s[0]}
  {
    assert s == [s[0]] + s[1..];
  }

  /** Two ascending arrangements of the same hands start with the same hand:
      the least one. */
  lemma AscendingHeads(s: seq<Hand>, t: seq<Hand>, cmp: (Hand, Hand) -> Option<Ordering>)
    requires StrictOrder(cmp)
    requires Ascending(s, cmp) && Ascending(t, cmp) && multiset(s) == multiset(t) && |s| > 0
    ensures |t| > 0 && s[0] == t[0]
  {
    assert s[0] in multiset(t);
    if s[0] != t[0] {
      HeadIsLeast(s, t[0], cmp);
      HeadIsLeast(t, s[0], cmp);
    }
  }

  /** In an ascending sequence every other element lies above the head. */
  lemma HeadIsLeast(s: seq<Hand>, x: Hand, cmp: (Hand, Hand) -> Option<Ordering>)
    requires Ascending(s, cmp) && x in multiset(s) && |s| > 0 && x != s[0]
    ensures cmp(s[0], x) == Some(Less)
  {
    var i :| 0 <= i < |s| && s[i] == x;
  }

  /** Two ascending arrangements of the same hands are the same sequence:
      the ranking does not depend on the input order. */
  lemma {:induction false} AscendingUnique(s: seq<Hand>, t: seq<Hand>, cmp: (Hand, Hand) -> Option<Ordering>)
    requires StrictOrder(cmp)
    requires Ascending(s, cmp) && Ascending(t, cmp) && multiset(s) == multiset(t)
    ensures s == t
  {
    if s != [] {
      AscendingHeads(s, t, cmp);
      MultisetTail(s);
      MultisetTail(t);
      assert Ascending(s[1..], cmp) && Ascending(t[1..], cmp);
      AscendingUnique(s[1..], t[1..], cmp);
      assert s == [s[0]] + s[1..] && t == [t[0]] + t[1..];
    }
  }

  /** The bids weighted by rank, counting ranks from `rank`. */
  function RankSum(s: seq<Hand>, rank: int): int
  {
    if s == [] then 0 else s[0].bid * rank + RankSum(s[1..], rank + 1)
  }

  /** `calculate_winnings`: each bid times its hand's 1-based rank, `None`
      where the source panics. Sorting two or more hands compares every two
      hands it could not otherwise place (two with the same cards, or one
      without a type, which no comparison can place), so it panics exactly
      when some two hands do not compare; a lone hand is never compared, but
      the log line asks for its type. */
  function Winnings(hs: seq<Hand>): (r: Option<int>)
    ensures r.Some? <==> Comparable(hs, Compare) && (|hs| == 1 ==> HandType(hs[0].cards).Some?)
  {
    if !Comparable(hs, Compare) || (|hs| == 1 && HandType(hs[0].cards).None?) then None
    else
      CompareStrictOrder();
      Some(RankSum(SortHands(hs, Compare), 1))
  }

  /** Once two or more hands compare, each of them has a type, so the log
      line never panics after the sort. */
  lemma ComparableTyped(hs: seq<Hand>)
    requires |hs| >= 2 && Comparable(hs, Compare)
    ensures forall i | 0 <= i < |hs| :: HandType(hs[i].cards).Some?
  {
    forall i | 0 <= i < |hs| ensures HandType(hs[i].cards).Some? {
      var j := if i == 0 then 1 else 0;
      assert Compare(hs[i], hs[j]).Some?;
    }
  }

  /** For five-card hands the winnings are defined exactly when no two hands
      hold the same cards. */
  lemma WinningsDefined(hs: seq<Hand>)
    requires forall i | 0 <= i < |hs| :: |hs[i].cards| == 5
    ensures Winnings(hs).Some? <==> forall i, j | 0 <= i < j < |hs| :: hs[i].cards != hs[j].cards
  {
    if |hs| == 1 {
      HandTypeTotal(hs[0].cards);
    }
    forall i, j | 0 <= i < |hs| && 0 <= j < |hs| && i != j
      ensures Compare(hs[i], hs[j]).Some? <==> hs[i].cards != hs[j].cards
    {
      CompareDefined(hs[i], hs[j]);
    }
  }

  /** The winnings are the rank-weighted bids of the one ascending
      arrangement of the hands. */
  lemma WinningsRanked(hs: seq<Hand>, order: seq<Hand>)
    requires Winnings(hs).Some?
    requires Ascending(order, Compare) && multiset(order) == multiset(hs)
    ensures Winnings(hs) == Some(RankSum(order, 1))
  {
    CompareStrictOrder();
    AscendingUnique(SortHands(hs, Compare), order, Compare);
  }
}
