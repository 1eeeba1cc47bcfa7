/** Day 4, scratchcards: each card has a number, a set of winning numbers
    and a set of numbers the player holds. A card's matches are the numbers
    in both sets. Part one scores each card by its matches; part two has
    every card win copies of the cards numbered after it. The cards come
    already read from the puzzle text, each number list as the tokens the
    grammar recognised. */
module Scratchcards {
  import opened Wrappers
  import opened Text
  import opened Folds

  /** A card after parsing: its number and its two sets of numbers. */
  datatype Card = Card(number: nat, winning: set<nat>, own: set<nat>)

  // ---------------------------------------------------------------------
  // Number lists

  /** The numbers of a list of tokens, each a `u8`, duplicates collapsed;
      a token that is not a `u8` panics. */
  function NumberSet(tokens: seq<string>): Option<set<nat>>
  {
    if tokens == [] then Some({})
    else
      match (NumberSet(tokens[..|tokens| - 1]), ParseInt(tokens[|tokens| - 1], 0, 255))
      case (Some(numbers), Some(x)) => Some(numbers + {x as nat})
      case _ => None
  }

  /** `parse_number_list`: each token parsed and inserted into the set. */
  method ParseNumberList(tokens: seq<string>) returns (r: Option<set<nat>>)
    ensures r == NumberSet(tokens)
  {
    var numbers: set<nat> := {};
    for k := 0 to |tokens|
      invariant NumberSet(tokens[..k]) == Some(numbers)
    {
      assert tokens[..k + 1][..k] == tokens[..k];
      var x := ParseInt(tokens[k], 0, 255);
      if x.None? {
        NumberSetFails(tokens, k + 1);
        return None;
      }
      numbers := numbers + {x.value as nat};
    }
    assert tokens[..|tokens|] == tokens;
    r := Some(numbers);
  }

  /** Once a token fails to parse, so does the whole list. */
  lemma {:induction false} NumberSetFails(tokens: seq<string>, k: nat)
    requires k <= |tokens| && NumberSet(tokens[..k]).None?
    ensures NumberSet(tokens).None?
    decreases |tokens| - k
  {
    if k < |tokens| {
      assert tokens[..k + 1][..k] == tokens[..k];
      NumberSetFails(tokens, k + 1);
    } else {
      assert tokens[..k] == tokens;
    }
  }

  /** The list parses exactly when every token is a `u8`, and then the set
      holds exactly the tokens' values. */
  lemma {:induction false} NumberSetMembers(tokens: seq<string>)
    ensures NumberSet(tokens).Some? <==> forall i | 0 <= i < |tokens| :: ParseInt(tokens[i], 0, 255).Some?
    ensures NumberSet(tokens).Some? ==>
              forall x: nat :: x in NumberSet(tokens).value <==>
                exists i | 0 <= i < |tokens| :: ParseInt(tokens[i], 0, 255) == Some(x as int)
  {
    if tokens != [] {
      var init := tokens[..|tokens| - 1];
      NumberSetMembers(init);
      assert forall i | 0 <= i < |init| :: init[i] == tokens[i];
      if NumberSet(tokens).Some? {
        var s := NumberSet(tokens).value;
        forall x: nat
          ensures x in s <==> exists i | 0 <= i < |tokens| :: ParseInt(tokens[i], 0, 255) == Some(x as int)
        {
          if x in s && x !in NumberSet(init).value {
            assert ParseInt(tokens[|tokens| - 1], 0, 255) == Some(x as int);
          }
        }
      }
    }
  }

  /** The numbers of a list. */
  function Elements(ns: seq<nat>): set<nat>
  {
    set i | 0 <= i < |ns| :: ns[i]
  }

  lemma ElementsSnoc(ns: seq<nat>)
    requires ns != []
    ensures Elements(ns) == Elements(ns[..|ns| - 1]) + {ns[|ns| - 1]}
  {
    var init := ns[..|ns| - 1];
    forall x | x in Elements(ns)
      ensures x in Elements(init) + {ns[|ns| - 1]}
    {
      var i :| 0 <= i < |ns| && ns[i] == x;
      if i < |init| {
        assert init[i] == x;
      }
    }
    forall x | x in Elements(init)
      ensures x in Elements(ns)
    {
      var i :| 0 <= i < |init| && init[i] == x;
      assert ns[i] == x;
    }
  }

  /** Printing numbers up to 255 and reading them back gives the set of
      those numbers, each once. */
  lemma {:induction false} NumberSetOfDecimals(ns: seq<nat>)
    requires forall i | 0 <= i < |ns| :: ns[i] <= 255
    ensures NumberSet(Decimals(ns)) == Some(Elements(ns))
  {
    if ns != [] {
      var init, last := ns[..|ns| - 1], ns[|ns| - 1];
      var tokens := Decimals(ns);
      assert tokens[..|tokens| - 1] == Decimals(init);
      assert NumberSet(Decimals(init)) == Some(Elements(init)) by {
        NumberSetOfDecimals(init);
      }
      assert ParseInt(tokens[|tokens| - 1], 0, 255) == Some(last as int) by {
        ParseIntDecimal(last, 0, 255);
      }
      ElementsSnoc(ns);
      assert NumberSet(tokens) == Some(Elements(init) + {last});
    } else {
      assert Elements(ns) == {};
    }
  }

  // ---------------------------------------------------------------------
  // Part one: points

  /** The numbers on the card that are also winning numbers. */
  function Matches(c: Card): nat
  {
    |c.winning * c.own|
  }

  function Pow2(n: nat): (p: nat)
    ensures p >= 1
  {
    if n == 0 then 1 else 2 * Pow2(n - 1)
  }

  /** A card with no match scores nothing; one match scores 1 and each
      further match doubles the score. */
  function Points(matches: nat): (p: nat)
    ensures p == 0 <==> matches == 0
  {
    if matches == 0 then 0 else Pow2(matches - 1)
  }

  lemma PointsDouble(matches: nat)
    ensures Points(matches) == 0 <==> matches == 0
    ensures Points(1) == 1
    ensures matches >= 1 ==> Points(matches + 1) == 2 * Points(matches)
  {
  }

  /** The sum of the cards' scores. */
  function TotalPoints(cards: seq<Card>): (t: nat)
    ensures t == 0 <==> forall i | 0 <= i < |cards| :: Matches(cards[i]) == 0
  {
    if cards == [] then 0
    else
      assert forall i | 0 <= i < |cards| - 1 :: cards[i] == cards[..|cards| - 1][i];
      TotalPoints(cards[..|cards| - 1]) + Points(Matches(cards[|cards| - 1]))
  }

  /** The total counts a card's score once per appearance, in any order:
      putting one card in front of the rest gives the same total. */
  lemma {:induction false} TotalPointsCons(c: Card, cards: seq<Card>)
    ensures TotalPoints([c] + cards) == Points(Matches(c)) + TotalPoints(cards)
  {
    if cards != [] {
      var init := cards[..|cards| - 1];
      assert ([c] + cards)[..|cards|] == [c] + init;
      TotalPointsCons(c, init);
    } else {
      assert ([c] + cards)[..0] == [];
    }
  }

  /** Only cards with a match score, and the total is at least the number
      of cards that have one. */
  lemma {:induction false} TotalPointsAtLeastWinners(cards: seq<Card>)
    ensures TotalPoints(cards) >= |set i | 0 <= i < |cards| && Matches(cards[i]) > 0|
  {
    if cards != [] {
      var init := cards[..|cards| - 1];
      TotalPointsAtLeastWinners(init);
      var before := set i | 0 <= i < |init| && Matches(init[i]) > 0;
      var after := set i | 0 <= i < |cards| && Matches(cards[i]) > 0;
      if Matches(cards[|cards| - 1]) > 0 {
        assert after == before + {|cards| - 1};
      } else {
        assert after == before;
      }
    }
  }

  /** `calculate_sum`: each card's matches counted and its score added. */
  method CalculateSum(cards: seq<Card>) returns (sum: nat)
    ensures sum == TotalPoints(cards)
  {
    sum := 0;
    for k := 0 to |cards|
      invariant sum == TotalPoints(cards[..k])
    {
      assert cards[..k + 1][..k] == cards[..k];
      var result := cards[k].winning * cards[k].own;
      var count := |result|;
      var points := if count == 0 then 0 else Pow2(count - 1);
      sum := sum + points;
    }
    assert cards[..|cards|] == cards;
  }

  // ---------------------------------------------------------------------
  // Part two: copies

  /** The count recorded for card `n`, or 1 for a card not seen yet. */
  function CountOf(counts: map<nat, int>, n: nat): int
  {
    if n in counts then counts[n] else 1
  }

  /** Each card numbered `from` up to `to` (exclusive), in turn, gains
      `amount` copies, a card not in the table starting from 1. */
  function AddCopies(counts: map<nat, int>, from: nat, to: nat, amount: int): map<nat, int>
    decreases if from < to then to - from else 0
  {
    if from >= to then counts
    else AddCopies(counts[from := CountOf(counts, from) + amount], from + 1, to, amount)
  }

  /** Exactly the cards numbered `from` up to `to` gain `amount`, entering
      the table if they were missing; nothing else changes. */
  lemma {:induction false} AddCopiesEffect(counts: map<nat, int>, from: nat, to: nat, amount: int)
    ensures var r := AddCopies(counts, from, to, amount);
      (forall n :: n in r <==> n in counts || from <= n < to) &&
      forall n | n in r :: r[n] == (if from <= n < to then CountOf(counts, n) + amount else counts[n])
    decreases if from < to then to - from else 0
  {
    if from < to {
      AddCopiesEffect(counts[from := CountOf(counts, from) + amount], from + 1, to, amount);
    }
  }

  /** One card: its own entry made if missing, then its count added to the
      next `Matches(c)` card numbers. */
  function PlayCard(counts: map<nat, int>, c: Card): map<nat, int>
  {
    var seen := if c.number in counts then counts else counts[c.number := 1];
    AddCopies(seen, c.number + 1, c.number + Matches(c) + 1, seen[c.number])
  }

  /** The table after the cards in order, from an empty one. */
  function CountsAfter(cards: seq<Card>): (counts: map<nat, int>)
    ensures forall i | 0 <= i < |cards| :: cards[i].number in counts
  {
    if cards == [] then map[]
    else
      var init, c := cards[..|cards| - 1], cards[|cards| - 1];
      PlayCardEffect(CountsAfter(init), c);
      assert forall i | 0 <= i < |cards| - 1 :: cards[i] == init[i];
      PlayCard(CountsAfter(init), c)
  }

  /** The card's own entry is there afterwards, and the card's count goes to
      exactly the next `Matches(c)` card numbers; every other entry keeps
      its value. */
  lemma PlayCardEffect(counts: map<nat, int>, c: Card)
    ensures var r, k, own := PlayCard(counts, c), Matches(c), CountOf(counts, c.number);
      (forall n :: n in r <==> n in counts || c.number <= n <= c.number + k) &&
      r[c.number] == own &&
      (forall n | c.number < n <= c.number + k :: r[n] == CountOf(counts, n) + own) &&
      (forall n | n in counts && (n < c.number || n > c.number + k) :: r[n] == counts[n])
  {
    var seen := if c.number in counts then counts else counts[c.number := 1];
    AddCopiesEffect(seen, c.number + 1, c.number + Matches(c) + 1, seen[c.number]);
  }

  /** Every card seen has an entry, and every entry is at least 1. */
  lemma {:induction false} CountsAtLeastOne(cards: seq<Card>)
    ensures forall i | 0 <= i < |cards| :: cards[i].number in CountsAfter(cards)
    ensures forall n | n in CountsAfter(cards) :: CountsAfter(cards)[n] >= 1
  {
    if cards != [] {
      var init := cards[..|cards| - 1];
      CountsAtLeastOne(init);
      var counts := CountsAfter(init);
      var c := cards[|cards| - 1];
      PlayCardEffect(counts, c);
      forall i | 0 <= i < |cards| - 1
        ensures cards[i].number in CountsAfter(cards)
      {
        assert cards[i] == init[i];
      }
    }
  }

  /** With every entry at least 1, the total is at least the number of
      entries. */
  lemma {:induction false} SumAtLeastSize(m: map<nat, int>)
    requires forall n | n in m :: m[n] >= 1
    ensures SumValues(m) >= |m|
    decreases |m|
  {
    if |m| > 0 {
      var k :| k in m;
      SumValuesRemove(m, k);
      RemoveShrinks(m, k);
      SumAtLeastSize(m - {k});
    }
  }

  /** The number of cards won is at least the number of distinct cards. */
  lemma TotalAtLeastCards(cards: seq<Card>)
    ensures SumValues(CountsAfter(cards)) >= |set i | 0 <= i < |cards| :: cards[i].number|
  {
    var counts := CountsAfter(cards);
    CountsAtLeastOne(cards);
    SumAtLeastSize(counts);
    var numbers := set i | 0 <= i < |cards| :: cards[i].number;
    assert numbers <= counts.Keys;
    Subset(numbers, counts.Keys);
  }

  lemma Subset(a: set<nat>, b: set<nat>)
    requires a <= b
    ensures |a| <= |b|
  {
    assert b == a + (b - a);
  }

  /** `calculate_cards`: the table updated in place card by card, then the
      sum of its counts. */
  method CalculateCards(cards: seq<Card>) returns (total: int)
    ensures total == SumValues(CountsAfter(cards))
  {
    var counts: map<nat, int> := map[];
    for k := 0 to |cards|
      invariant counts == CountsAfter(cards[..k])
    {
      assert cards[..k + 1][..k] == cards[..k];
      var c := cards[k];
      ghost var before := counts;
      if c.number !in counts {
        counts := counts[c.number := 1];
      }
      var copies := |c.winning * c.own|;
      var thisCount := CountOf(counts, c.number);
      ghost var hi := c.number + copies + 1;
      assert AddCopies(counts, c.number + 1, hi, thisCount) == PlayCard(before, c);
      for n := c.number + 1 to c.number + copies + 1
        invariant AddCopies(counts, n, hi, thisCount) == PlayCard(before, c)
      {
        var next := counts[n := CountOf(counts, n) + thisCount];
        assert AddCopies(counts, n, hi, thisCount) == AddCopies(next, n + 1, hi, thisCount);
        counts := next;
      }
      assert counts == AddCopies(counts, hi, hi, thisCount);
    }
    assert cards[..|cards|] == cards;
    total := SumMap(counts);
  }
}
