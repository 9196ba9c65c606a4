/** Day 4, "Scratchcards": each card has winning numbers and held numbers;
    the matches score points, and in the second puzzle they win copies of
    the following cards. */
module Day04 {
  import opened Wrappers

  /** A card as parsed; its `count` field (starting at 1) is kept in a
      separate array by `Puzzle2`, the only code that changes it. */
  datatype Card = Card(id: int, winning: set<int>, numbers: set<int>)

  /** The number of held numbers that are winning ones. */
  function Matches(c: Card): (m: nat)
    ensures m <= |c.winning| && m <= |c.numbers|
  {
    assert c.winning * c.numbers <= c.winning;
    assert c.winning * c.numbers <= c.numbers;
    SubsetCard(c.winning * c.numbers, c.winning);
    SubsetCard(c.winning * c.numbers, c.numbers);
    |c.winning * c.numbers|
  }

  lemma SubsetCard(a: set<int>, b: set<int>)
    requires a <= b
    ensures |a| <= |b|
  {
    assert b == a + (b - a);
  }

  function Pow2(n: nat): (p: nat)
    ensures p >= 1
  {
    if n == 0 then 1 else 2 * Pow2(n - 1)
  }

  /** A card with m matches scores 2^(m-1) points, or none when m = 0. */
  function Score(m: nat): nat {
    if m > 0 then Pow2(m - 1) else 0
  }

  /** The first match is worth one point, and each further match doubles it. */
  lemma ScoreDoubles(m: nat)
    ensures Score(1) == 1
    ensures m >= 1 ==> Score(m + 1) == 2 * Score(m)
    ensures Score(m) < Pow2(m)
  {
  }

  /** The match counts of the cards, in order. */
  function MatchList(cards: seq<Card>): (ms: seq<nat>)
    ensures |ms| == |cards|
    ensures forall i | 0 <= i < |cards| :: ms[i] == Matches(cards[i])
  {
    seq(|cards|, i requires 0 <= i < |cards| => Matches(cards[i]))
  }

  /** The first answer for the match counts `ms`. */
  function Points(ms: seq<nat>): nat {
    if ms == [] then 0 else Points(ms[..|ms| - 1]) + Score(ms[|ms| - 1])
  }

  /** `puzzle1`: the points of all cards. */
  method Puzzle1(cards: seq<Card>) returns (total: int)
    ensures total == Points(MatchList(cards))
  {
    var ms := MatchList(cards);
    total := 0;
    for i := 0 to |cards|
      invariant total == Points(ms[..i])
    {
      assert ms[..i + 1][..i] == ms[..i];
      var matching := Matches(cards[i]);
      if matching > 0 {
        total := total + Pow2(matching - 1);
      }
    }
    assert ms[..|cards|] == ms;
  }

  /** The number of instances of card `j` at the end: its original plus one
      per instance of every earlier card whose matches reach it. */
  function Copies(ms: seq<nat>, j: nat): (n: nat)
    requires j < |ms|
    ensures n >= 1
    decreases j, 1
  {
    1 + Won(ms, j, j)
  }

  /** The copies of card `j` won by the cards before `i`: card k wins one per
      instance when j lies among the next ms[k] cards after it. */
  function Won(ms: seq<nat>, j: nat, i: nat): nat
    requires j < |ms| && i <= j
    decreases i, 0
  {
    if i == 0 then 0
    else Won(ms, j, i - 1) + (if j <= i - 1 + ms[i - 1] then Copies(ms, i - 1) else 0)
  }

  /** The second answer for the match counts `ms`: the instances of all cards. */
  function TotalCopies(ms: seq<nat>, n: nat): nat
    requires n <= |ms|
  {
    if n == 0 then 0 else TotalCopies(ms, n - 1) + Copies(ms, n - 1)
  }

  /** Every card is held at least once, so the second answer is at least the
      number of cards. */
  lemma {:induction false} TotalAtLeastCards(ms: seq<nat>, n: nat)
    requires n <= |ms|
    ensures TotalCopies(ms, n) >= n
  {
    if n > 0 {
      TotalAtLeastCards(ms, n - 1);
    }
  }

  /** A card with no matches wins nothing: when no card matches, every card
      is held exactly once. */
  lemma {:induction false} NoMatchesOneEach(ms: seq<nat>, j: nat, i: nat)
    requires j < |ms| && i <= j
    requires forall k | 0 <= k < |ms| :: ms[k] == 0
    ensures Won(ms, j, i) == 0
  {
    if i > 0 {
      NoMatchesOneEach(ms, j, i - 1);
    }
  }

  /** Card i's matches run past the last card, so `input[j]` would be out of
      bounds. */
  predicate Overruns(ms: seq<nat>) {
    exists i | 0 <= i < |ms| :: i + ms[i] >= |ms|
  }

  /** `puzzle2`: every card starts with count 1, and card i, in order, adds its
      count to each of the next m cards; it panics when those run past the
      end. */
  method Puzzle2(cards: seq<Card>) returns (r: Option<int>)
    ensures r.None? <==> Overruns(MatchList(cards))
    ensures r.Some? ==> r.value == TotalCopies(MatchList(cards), |cards|)
  {
    var ms := MatchList(cards);
    var n := |cards|;
    var count := new int[n](_ => 1);
    for i := 0 to n
      invariant forall j | 0 <= j < n :: count[j] == 1 + Won(ms, j, if i < j then i else j)
      invariant forall k | 0 <= k < i :: k + ms[k] < n
    {
      var matching := Matches(cards[i]);
      if i + matching >= n {
        return None;
      }
      forall j | i + 1 <= j < i + 1 + matching {
        count[j] := count[j] + count[i];
      }
    }
    var total := 0;
    for j := 0 to n
      invariant total == TotalCopies(ms, j)
    {
      total := total + count[j];
    }
    return Some(total);
  }

  /** The example of the puzzle statement has 4, 2, 2, 1, 0 and 0 matches:
      13 points, and 1, 2, 4, 8, 14 and 1 instances, 30 cards in all. */
  const ExampleMatches: seq<nat> := [4, 2, 2, 1, 0, 0]

  lemma ExamplePoints()
    ensures Points(ExampleMatches) == 13
  {
    var ms := ExampleMatches;
    assert ms[..5][..4] == ms[..4] && ms[..4][..3] == ms[..3] && ms[..3][..2] == ms[..2];
    assert ms[..2][..1] == ms[..1] && ms[..1][..0] == [];
    assert Score(4) == 8;
    assert Points(ms[..1]) == 8;
    assert Points(ms[..2]) == 10;
    assert Points(ms[..3]) == 12;
    assert Points(ms[..4]) == 13;
    assert Points(ms[..5]) == 13;
    assert ms[..5] == ms[..|ms| - 1];
  }

  lemma ExampleCopies()
    ensures TotalCopies(ExampleMatches, 6) == 30
  {
    ExampleCopiesEach();
  }

  /** The copies of each example card: 1, 2, 4, 8, 14 and 1. */
  lemma ExampleCopiesEach()
    ensures var ms := ExampleMatches;
      Copies(ms, 0) == 1 && Copies(ms, 1) == 2 && Copies(ms, 2) == 4 &&
      Copies(ms, 3) == 8 && Copies(ms, 4) == 14 && Copies(ms, 5) == 1
  {
    ExampleFirstCopies();
    ExampleCopies3();
    ExampleCopies4();
    ExampleCopies5();
  }

  lemma ExampleFirstCopies()
    ensures var ms := ExampleMatches; Copies(ms, 0) == 1 && Copies(ms, 1) == 2 && Copies(ms, 2) == 4
  {
    var ms := ExampleMatches;
    assert Copies(ms, 0) == 1;
    assert Copies(ms, 1) == 2;
    assert Won(ms, 2, 1) == 1;
  }

  lemma ExampleCopies3()
    ensures Copies(ExampleMatches, 3) == 8
  {
    var ms := ExampleMatches;
    ExampleFirstCopies();
    assert Won(ms, 3, 1) == 1;
    assert Won(ms, 3, 2) == 3;
    assert Won(ms, 3, 3) == 7;
  }

  lemma ExampleCopies4()
    ensures Copies(ExampleMatches, 4) == 14
  {
    var ms := ExampleMatches;
    ExampleFirstCopies();
    ExampleCopies3();
    assert Won(ms, 4, 1) == 1;
    assert Won(ms, 4, 2) == 1;
    assert Won(ms, 4, 3) == 5;
    assert Won(ms, 4, 4) == 13;
  }

  lemma ExampleCopies5()
    ensures Copies(ExampleMatches, 5) == 1
  {
    var ms := ExampleMatches;
    assert forall k | 0 <= k < 5 :: k + ms[k] < 5;
    NoneWon(ms, 5, 5);
  }

  /** A card that no earlier card reaches wins no copies from them. */
  lemma {:induction false} NoneWon(ms: seq<nat>, j: nat, i: nat)
    requires j < |ms| && i <= j
    requires forall k | 0 <= k < i :: k + ms[k] < j
    ensures Won(ms, j, i) == 0
  {
    if i > 0 {
      NoneWon(ms, j, i - 1);
    }
  }
}
