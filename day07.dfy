/** Day 7, "Camel Cards": hands of five cards are ranked by the shape of
    their card counts, with jacks optionally acting as jokers, then sorted,
    and each bet is weighted by its position. */
module Day07 {
  import opened Wrappers
  import opened Seqs
  import opened Sorting

  // ---------------------------------------------------------------------
  // Cards

  /** `parse_card`: '2'..'9' are worth 2..9, then T, J, Q, K, A are 10..14. */
  function ParseCard(c: char): (r: Option<int>)
    ensures r.Some? <==> c in "23456789TJQKA"
    ensures r.Some? ==> 2 <= r.value <= 14
    ensures '2' <= c <= '9' ==> r == Some(c as int - '0' as int)
  {
    match c
    case '2' => Some(2)
    case '3' => Some(3)
    case '4' => Some(4)
    case '5' => Some(5)
    case '6' => Some(6)
    case '7' => Some(7)
    case '8' => Some(8)
    case '9' => Some(9)
    case 'T' => Some(10)
    case 'J' => Some(11)
    case 'Q' => Some(12)
    case 'K' => Some(13)
    case 'A' => Some(14)
    case _ => None
  }

  /** The glyph of a card value. */
  function CardChar(v: int): char
    requires 2 <= v <= 14
  {
    "23456789TJQKA"[v - 2]
  }

  /** Every card value has exactly one glyph: parsing a card's glyph gives the
      card back, and printing a parsed glyph gives the glyph back. */
  lemma CardRoundTrip(v: int, c: char)
    requires 2 <= v <= 14
    ensures ParseCard(CardChar(v)) == Some(v)
    ensures ParseCard(c).Some? ==> CardChar(ParseCard(c).value) == c
  {
  }

  /** The hand string with every character that is not a card dropped
      (`filter_map(parse_card)`). */
  function FilterCards(s: string): (cards: seq<int>)
    ensures |cards| <= |s|
    ensures forall i | 0 <= i < |cards| :: 2 <= cards[i] <= 14
    ensures (forall i | 0 <= i < |s| :: ParseCard(s[i]).Some?) ==> |cards| == |s|
  {
    if s == [] then []
    else
      var init := FilterCards(s[..|s| - 1]);
      match ParseCard(s[|s| - 1])
      case Some(v) => init + [v]
      case None => init
  }

  /** The hand as the `[Card; 5]` of the code; `try_into().unwrap()` panics
      unless exactly five cards remain. */
  function ParseHand(s: string): (r: Option<seq<int>>)
    ensures r.Some? <==> |FilterCards(s)| == 5
    ensures r.Some? ==> r.value == FilterCards(s)
  {
    var cards := FilterCards(s);
    if |cards| == 5 then Some(cards) else None
  }

  /** `downgrade`: a jack becomes the weakest card, 1, when it is a joker. */
  function Downgrade(card: int): (r: int)
    ensures card == 11 ==> r == 1
    ensures card != 11 ==> r == card
  {
    if card == 11 then 1 else card
  }

  // ---------------------------------------------------------------------
  // Ranks

  datatype Rank = HighCard | OnePair | TwoPairs | ThreeOfAKind | FullHouse | FourOfAKind | FiveOfAKind

  /** The position of a rank in the declaration order, which the derived
      ordering follows. */
  function Ord(r: Rank): (n: nat)
    ensures n < 7
  {
    match r
    case HighCard => 0
    case OnePair => 1
    case TwoPairs => 2
    case ThreeOfAKind => 3
    case FullHouse => 4
    case FourOfAKind => 5
    case FiveOfAKind => 6
  }

  /** The ordering on ranks is total and strict: different ranks have
      different positions. */
  lemma OrdInjective(a: Rank, b: Rank)
    ensures Ord(a) == Ord(b) <==> a == b
  {
  }

  /** How many entries of `s` equal `k`: with `s` the card counts, the number of
      card values held exactly k times. */
  function NumEq(s: seq<int>, k: int): nat {
    if s == [] then 0 else NumEq(s[..|s| - 1], k) + (if s[|s| - 1] == k then 1 else 0)
  }

  /** The rank of a hand from its card counts: five of a kind, four of a
      kind, full house, three of a kind, two pairs, one pair, high card. */
  function Classify(counts: seq<int>): Rank {
    ClassOf(NumEq(counts, 2), NumEq(counts, 3), NumEq(counts, 4), NumEq(counts, 5))
  }

  /** The rank from how many counts are 2, 3, 4 and 5. */
  function ClassOf(n2: nat, n3: nat, n4: nat, n5: nat): Rank {
    if n5 >= 1 then FiveOfAKind
    else if n4 >= 1 then FourOfAKind
    else if n3 >= 1 && n2 >= 1 then FullHouse
    else if n3 >= 1 then ThreeOfAKind
    else if n2 >= 2 then TwoPairs
    else if n2 == 1 then OnePair
    else HighCard
  }

  /** The update of `rank` in the card loop of `rank_hand`, once a card's
      count has become `c`. */
  function CountStep(c: int, rank: Rank): Rank {
    match (c, rank)
    case (2, HighCard) => OnePair
    case (2, OnePair) => TwoPairs
    case (2, ThreeOfAKind) => FullHouse
    case (3, OnePair) => ThreeOfAKind
    case (3, TwoPairs) => FullHouse
    case (4, _) => FourOfAKind
    case (5, _) => FiveOfAKind
    case _ => rank
  }

  /** The joker table at the end of `rank_hand`. */
  function JokerTable(jokers: int, rank: Rank): Rank {
    match (jokers, rank)
    case (5, _) => FiveOfAKind
    case (4, _) => FiveOfAKind
    case (3, OnePair) => FiveOfAKind
    case (3, HighCard) => FourOfAKind
    case (2, ThreeOfAKind) => FiveOfAKind
    case (2, OnePair) => FourOfAKind
    case (2, HighCard) => ThreeOfAKind
    case (1, FourOfAKind) => FiveOfAKind
    case (1, ThreeOfAKind) => FourOfAKind
    case (1, TwoPairs) => FullHouse
    case (1, OnePair) => ThreeOfAKind
    case (1, HighCard) => OnePair
    case _ => rank
  }

  /** Whether a card is set aside as a joker. */
  predicate IsJoker(card: int, j: bool) {
    j && card == 11
  }

  /** The count of each card value 0..14 in `hand`, jokers left out. */
  function Counts(hand: seq<int>, j: bool): (counts: seq<int>)
    ensures |counts| == 15
    ensures forall v | 0 <= v < 15 :: counts[v] == if IsJoker(v, j) then 0 else Count(hand, v)
  {
    seq(15, v requires 0 <= v < 15 => if IsJoker(v, j) then 0 else Count(hand, v))
  }

  function Jokers(hand: seq<int>, j: bool): nat {
    if j then Count(hand, 11) else 0
  }

  /** The rank `rank_hand` gives. */
  function RankOf(hand: seq<int>, j: bool): Rank {
    JokerTable(Jokers(hand, j), Classify(Counts(hand, j)))
  }

  predicate ValidCards(hand: seq<int>) {
    forall i | 0 <= i < |hand| :: 0 <= hand[i] < 15
  }

  /** `rank_hand`: count the cards one by one, raising the rank as counts
      reach 2, 3, 4 or 5, then apply the joker table. */
  method RankHand(hand: seq<int>, j: bool) returns (rank: Rank)
    requires |hand| == 5 && ValidCards(hand)
    ensures rank == RankOf(hand, j)
  {
    var counts := new int[15](_ => 0);
    rank := HighCard;
    var jokers := 0;
    assert counts[..] == seq(15, _ => 0);
    HandStart(hand, j);
    for i := 0 to 5
      invariant counts[..] == Counts(hand[..i], j)
      invariant jokers == Jokers(hand[..i], j)
      invariant rank == Classify(Counts(hand[..i], j))
    {
      rank, jokers := CountCard(hand, i, j, counts, rank, jokers);
    }
    assert hand[..5] == hand;
    rank := JokerTable(jokers, rank);
  }

  /** One pass of the card loop of `rank_hand`: card i is set aside as a
      joker, or counted with the rank raised to match. */
  method CountCard(hand: seq<int>, i: nat, j: bool, counts: array<int>, rank: Rank, jokers: nat)
      returns (rank': Rank, jokers': nat)
    requires i < |hand| == 5 && ValidCards(hand) && counts.Length == 15
    requires counts[..] == Counts(hand[..i], j)
    requires jokers == Jokers(hand[..i], j) && rank == Classify(Counts(hand[..i], j))
    modifies counts
    ensures counts[..] == Counts(hand[..i + 1], j)
    ensures jokers' == Jokers(hand[..i + 1], j) && rank' == Classify(Counts(hand[..i + 1], j))
  {
    var card := hand[i];
    HandStep(hand, i, j);
    if IsJoker(card, j) {
      return rank, jokers + 1;
    }
    counts[card] := counts[card] + 1;
    rank' := CountStep(counts[card], rank);
    jokers' := jokers;
  }

  /** The loop's state before the first card. */
  lemma HandStart(hand: seq<int>, j: bool)
    ensures Counts(hand[..0], j) == seq(15, _ => 0)
    ensures Jokers(hand[..0], j) == 0 && Classify(seq(15, _ => 0)) == HighCard
  {
    assert hand[..0] == [];
    Zeros(15, 2); Zeros(15, 3); Zeros(15, 4); Zeros(15, 5);
  }

  /** The loop's state after card i follows from its state before. */
  lemma HandStep(hand: seq<int>, i: nat, j: bool)
    requires i < |hand| == 5 && ValidCards(hand)
    ensures var h, x := hand[..i], hand[i];
      && Jokers(hand[..i + 1], j) == Jokers(h, j) + (if IsJoker(x, j) then 1 else 0)
      && Counts(hand[..i + 1], j) == (if IsJoker(x, j) then Counts(h, j) else Counts(h, j)[x := Counts(h, j)[x] + 1])
      && (!IsJoker(x, j) ==> Classify(Counts(hand[..i + 1], j)) == CountStep(Counts(h, j)[x] + 1, Classify(Counts(h, j))))
  {
    var h, x := hand[..i], hand[i];
    assert hand[..i + 1] == h + [x];
    assert ValidCards(h);
    CountsSum(h, j);
    CountsSnoc(h, x, j);
    if !IsJoker(x, j) {
      CountStepAgrees(h, x, j);
    }
  }

  lemma CountSnoc(s: seq<int>, x: int)
    ensures forall v :: Count(s + [x], v) == Count(s, v) + (if x == v then 1 else 0)
  {
    assert (s + [x])[..|s|] == s;
  }

  lemma CountsSnoc(h: seq<int>, x: int, j: bool)
    requires 0 <= x < 15
    ensures Jokers(h + [x], j) == Jokers(h, j) + (if IsJoker(x, j) then 1 else 0)
    ensures Counts(h + [x], j) == if IsJoker(x, j) then Counts(h, j) else Counts(h, j)[x := Counts(h, j)[x] + 1]
  {
    CountSnoc(h, x);
  }

  /** Counting one more card moves the rank exactly as the loop does. */
  lemma CountStepAgrees(h: seq<int>, x: int, j: bool)
    requires 0 <= x < 15 && !IsJoker(x, j)
    requires Sum(Counts(h, j)) + 1 <= 5
    ensures Sum(Counts(h + [x], j)) == Sum(Counts(h, j)) + 1
    ensures Counts(h + [x], j)[x] == Counts(h, j)[x] + 1
    ensures Classify(Counts(h + [x], j)) == CountStep(Counts(h, j)[x] + 1, Classify(Counts(h, j)))
  {
    var s := Counts(h, j);
    CountsSnoc(h, x, j);
    CountsNonNegative(h, j);
    RankStep(s, x);
    SumUpdate(s, x, s[x] + 1);
  }

  lemma CountsNonNegative(hand: seq<int>, j: bool)
    ensures forall v | 0 <= v < 15 :: Counts(hand, j)[v] >= 0
  {
  }

  lemma {:induction false} SumUpdate(s: seq<int>, k: int, v: int)
    requires 0 <= k < |s|
    ensures Sum(s[k := v]) == Sum(s) - s[k] + v
    decreases |s|
  {
    var init := s[..|s| - 1];
    if k == |s| - 1 {
      assert s[k := v][..|s| - 1] == init;
    } else {
      assert s[k := v][..|s| - 1] == init[k := v];
      SumUpdate(init, k, v);
    }
  }

  lemma {:induction false} NumEqUpdate(s: seq<int>, k: int, v: int, m: int)
    requires 0 <= k < |s|
    ensures NumEq(s[k := v], m) == NumEq(s, m) - (if s[k] == m then 1 else 0) + (if v == m then 1 else 0)
    decreases |s|
  {
    var init := s[..|s| - 1];
    if k == |s| - 1 {
      assert s[k := v][..|s| - 1] == init;
    } else {
      assert s[k := v][..|s| - 1] == init[k := v];
      NumEqUpdate(init, k, v, m);
    }
  }

  /** With no negative count, the counts of 2..5 can hold no more cards than
      there are. */
  lemma {:induction false} WeightedBound(s: seq<int>)
    requires forall i | 0 <= i < |s| :: s[i] >= 0
    ensures 2 * NumEq(s, 2) + 3 * NumEq(s, 3) + 4 * NumEq(s, 4) + 5 * NumEq(s, 5) <= Sum(s)
    ensures NumEq(s, 1) + 2 * NumEq(s, 2) + 3 * NumEq(s, 3) + 4 * NumEq(s, 4) + 5 * NumEq(s, 5) <= Sum(s)
    decreases |s|
  {
    if s != [] {
      WeightedBound(s[..|s| - 1]);
    }
  }

  /** The loop's rank update agrees with `Classify` as long as at most five
      cards have been counted. */
  lemma RankStep(s: seq<int>, k: int)
    requires 0 <= k < |s|
    requires forall i | 0 <= i < |s| :: s[i] >= 0
    requires Sum(s) + 1 <= 5
    ensures Classify(s[k := s[k] + 1]) == CountStep(s[k] + 1, Classify(s))
  {
    var t := s[k := s[k] + 1];
    WeightedBound(s);
    SumUpdate(s, k, s[k] + 1);
    WeightedBound(t);
    NumEqUpdate(s, k, s[k] + 1, 2);
    NumEqUpdate(s, k, s[k] + 1, 3);
    NumEqUpdate(s, k, s[k] + 1, 4);
    NumEqUpdate(s, k, s[k] + 1, 5);
  }

  /** The counted cards and the jokers make up the hand. */
  lemma {:induction false} CountsSum(hand: seq<int>, j: bool)
    requires ValidCards(hand)
    ensures Sum(Counts(hand, j)) + Jokers(hand, j) == |hand|
    decreases |hand|
  {
    if hand == [] {
      assert Counts(hand, j) == seq(15, _ => 0);
      Zeros(15, 0);
    } else {
      var init := hand[..|hand| - 1];
      var x := hand[|hand| - 1];
      assert hand == init + [x];
      CountSnoc(init, x);
      CountsSum(init, j);
      if IsJoker(x, j) {
        assert Counts(hand, j) == Counts(init, j);
      } else {
        assert Counts(hand, j) == Counts(init, j)[x := Counts(init, j)[x] + 1];
        SumUpdate(Counts(init, j), x, Counts(init, j)[x] + 1);
      }
    }
  }

  lemma {:induction false} Zeros(n: nat, k: int)
    ensures Sum(seq(n, _ => 0)) == 0
    ensures k != 0 ==> NumEq(seq(n, _ => 0), k) == 0
  {
    if n > 0 {
      assert seq(n, _ => 0)[..n - 1] == seq(n - 1, _ => 0);
      Zeros(n - 1, k);
    }
  }

  /** Jokers only help: on a five-card hand every joker-table entry that
      applies raises the rank strictly, and without jokers the rank is the
      one of the card counts. */
  lemma JokersRaise(hand: seq<int>)
    requires |hand| == 5 && ValidCards(hand)
    ensures Jokers(hand, true) == 0 ==> RankOf(hand, true) == Classify(Counts(hand, true))
    ensures Jokers(hand, true) >= 1 ==> Ord(RankOf(hand, true)) > Ord(Classify(Counts(hand, true)))
  {
    var s := Counts(hand, true);
    CountsSum(hand, true);
    CountsNonNegative(hand, true);
    WeightedBound(s);
    TableRaises(Jokers(hand, true), NumEq(s, 2), NumEq(s, 3), NumEq(s, 4), NumEq(s, 5), Sum(s));
  }

  /** The joker table raises every rank a hand with k jokers can have. */
  lemma TableRaises(k: int, n2: nat, n3: nat, n4: nat, n5: nat, sum: int)
    requires 0 <= k && sum + k == 5 && 2 * n2 + 3 * n3 + 4 * n4 + 5 * n5 <= sum
    ensures k == 0 ==> JokerTable(k, ClassOf(n2, n3, n4, n5)) == ClassOf(n2, n3, n4, n5)
    ensures k >= 1 ==> Ord(JokerTable(k, ClassOf(n2, n3, n4, n5))) > Ord(ClassOf(n2, n3, n4, n5))
  {
  }

  // ---------------------------------------------------------------------
  // Sorting and winnings

  /** A row of `ranked`: the rank, the cards (downgraded for jokers) and the bet. */
  type Ranked = (Rank, seq<int>, int)

  /** Lexicographic order on card sequences, as arrays compare. */
  predicate SeqLe(a: seq<int>, b: seq<int>) {
    if a == [] then true
    else if b == [] then false
    else a[0] < b[0] || (a[0] == b[0] && SeqLe(a[1..], b[1..]))
  }

  lemma {:induction false} SeqLeTotal(a: seq<int>, b: seq<int>)
    ensures SeqLe(a, b) || SeqLe(b, a)
    ensures SeqLe(a, b) && SeqLe(b, a) ==> a == b
    decreases |a|
  {
    if a != [] && b != [] {
      SeqLeTotal(a[1..], b[1..]);
      if SeqLe(a, b) && SeqLe(b, a) {
        assert a == [a[0]] + a[1..] && b == [b[0]] + b[1..];
      }
    }
  }

  lemma {:induction false} SeqLeTrans(a: seq<int>, b: seq<int>, c: seq<int>)
    requires SeqLe(a, b) && SeqLe(b, c)
    ensures SeqLe(a, c)
    decreases |a|
  {
    if a != [] && b != [] && c != [] && a[0] == b[0] == c[0] {
      SeqLeTrans(a[1..], b[1..], c[1..]);
    }
  }

  /** The derived ordering of `(Rank, Hand, i64)` tuples: by rank, then by
      cards, then by bet. */
  predicate RowLe(a: Ranked, b: Ranked) {
    Ord(a.0) < Ord(b.0) ||
    (Ord(a.0) == Ord(b.0) && (if a.1 == b.1 then a.2 <= b.2 else SeqLe(a.1, b.1)))
  }

  lemma RowLeTotalPreorder()
    ensures TotalPreorder(RowLe)
  {
    forall a: Ranked, b: Ranked ensures RowLe(a, b) || RowLe(b, a) {
      SeqLeTotal(a.1, b.1);
    }
    forall a: Ranked, b: Ranked, c: Ranked | RowLe(a, b) && RowLe(b, c) ensures RowLe(a, c) {
      SeqLeTotal(a.1, b.1);
      SeqLeTotal(b.1, c.1);
      SeqLeTotal(a.1, c.1);
      if a.1 != b.1 && b.1 != c.1 && SeqLe(a.1, b.1) && SeqLe(b.1, c.1) {
        SeqLeTrans(a.1, b.1, c.1);
      }
    }
  }

  /** No two different rows are equivalent, so the order is total. */
  lemma RowLeAntisymmetric(a: Ranked, b: Ranked)
    requires RowLe(a, b) && RowLe(b, a)
    ensures a == b
  {
    OrdInjective(a.0, b.0);
    SeqLeTotal(a.1, b.1);
  }

  /** Sorting under a total order has one possible outcome: two sorted
      arrangements of the same rows are equal, so the winnings do not depend
      on the sorting algorithm. */
  lemma SortedRowsUnique(a: seq<Ranked>, b: seq<Ranked>)
    requires SortedBy(a, RowLe) && SortedBy(b, RowLe)
    requires multiset(a) == multiset(b)
    ensures a == b
  {
    forall x: Ranked, y: Ranked | RowLe(x, y) && RowLe(y, x) ensures x == y {
      RowLeAntisymmetric(x, y);
    }
    SortedUnique(a, b, RowLe);
  }

  lemma {:induction false} SortedUnique<T>(a: seq<T>, b: seq<T>, le: (T, T) -> bool)
    requires forall x, y :: le(x, y) && le(y, x) ==> x == y
    requires SortedBy(a, le) && SortedBy(b, le)
    requires multiset(a) == multiset(b)
    ensures a == b
    decreases |a|
  {
    assert |a| == |multiset(a)| == |multiset(b)| == |b|;
    if a != [] {
      var n := |a| - 1;
      LastEqual(a, b, le);
      Peel(a, b, le);
      SortedUnique(a[..n], b[..n], le);
      SnocEqual(a, b);
    }
  }

  /** Equal last elements leave sorted prefixes with equal contents. */
  lemma Peel<T>(a: seq<T>, b: seq<T>, le: (T, T) -> bool)
    requires SortedBy(a, le) && SortedBy(b, le)
    requires multiset(a) == multiset(b) && |a| == |b| > 0 && a[|a| - 1] == b[|b| - 1]
    ensures SortedBy(a[..|a| - 1], le) && SortedBy(b[..|b| - 1], le)
    ensures multiset(a[..|a| - 1]) == multiset(b[..|b| - 1])
  {
    DropLast(a, le);
    DropLast(b, le);
  }

  lemma SnocEqual<T>(a: seq<T>, b: seq<T>)
    requires |a| == |b| > 0 && a[..|a| - 1] == b[..|b| - 1] && a[|a| - 1] == b[|b| - 1]
    ensures a == b
  {
    assert a == a[..|a| - 1] + [a[|a| - 1]];
    assert b == b[..|b| - 1] + [b[|b| - 1]];
  }

  lemma DropLast<T>(a: seq<T>, le: (T, T) -> bool)
    requires a != [] && SortedBy(a, le)
    ensures multiset(a[..|a| - 1]) == multiset(a) - multiset{a[|a| - 1]}
    ensures SortedBy(a[..|a| - 1], le)
  {
    assert a == a[..|a| - 1] + [a[|a| - 1]];
  }

  lemma LastEqual<T>(a: seq<T>, b: seq<T>, le: (T, T) -> bool)
    requires forall x, y :: le(x, y) && le(y, x) ==> x == y
    requires SortedBy(a, le) && SortedBy(b, le)
    requires multiset(a) == multiset(b) && |a| == |b| > 0
    ensures a[|a| - 1] == b[|b| - 1]
  {
    var n := |a| - 1;
    assert a[n] in multiset(b);
    var k :| 0 <= k < |b| && b[k] == a[n];
    assert b[n] in multiset(a);
    var k' :| 0 <= k' < |a| && a[k'] == b[n];
    if k < n && k' < n {
      assert le(a[n], b[n]) && le(b[n], a[n]);
    }
  }

  /** The rows `ranked` holds before sorting. */
  function RankedRows(input: seq<(seq<int>, int)>, j: bool): (rows: seq<Ranked>)
    ensures |rows| == |input|
  {
    if input == [] then []
    else
      var (hand, bet) := input[|input| - 1];
      RankedRows(input[..|input| - 1], j) +
        [(RankOf(hand, j), if j then Downgraded(hand) else hand, bet)]
  }

  function Downgraded(hand: seq<int>): (r: seq<int>)
    ensures |r| == |hand|
    ensures forall i | 0 <= i < |hand| :: r[i] == Downgrade(hand[i])
  {
    seq(|hand|, i requires 0 <= i < |hand| => Downgrade(hand[i]))
  }

  /** Total winnings: each bet times its 1-based position. */
  function Winnings(rows: seq<Ranked>): int {
    if rows == [] then 0 else Winnings(rows[..|rows| - 1]) + |rows| * rows[|rows| - 1].2
  }

  /** With no negative bet the winnings are not negative, and they are at
      least the sum of the bets. */
  lemma {:induction false} WinningsAtLeastBets(rows: seq<Ranked>)
    requires forall i | 0 <= i < |rows| :: rows[i].2 >= 0
    ensures Winnings(rows) >= BetSum(rows) >= 0
    decreases |rows|
  {
    if rows != [] {
      WinningsAtLeastBets(rows[..|rows| - 1]);
    }
  }

  function BetSum(rows: seq<Ranked>): int {
    if rows == [] then 0 else BetSum(rows[..|rows| - 1]) + rows[|rows| - 1].2
  }

  /** The sorted rows, ascending in the tuple order. */
  function SortedRows(input: seq<(seq<int>, int)>, j: bool): (rows: seq<Ranked>)
    ensures SortedBy(rows, RowLe)
    ensures multiset(rows) == multiset(RankedRows(input, j))
  {
    RowLeTotalPreorder();
    Sort(RankedRows(input, j), RowLe)
  }

  /** The `map` building `ranked`, one `rank_hand` call per hand. */
  method RankAll(input: seq<(seq<int>, int)>, j: bool) returns (ranked: seq<Ranked>)
    requires forall i | 0 <= i < |input| :: |input[i].0| == 5 && ValidCards(input[i].0)
    ensures ranked == RankedRows(input, j)
  {
    ranked := [];
    for i := 0 to |input|
      invariant ranked == RankedRows(input[..i], j)
    {
      var hand, bet := input[i].0, input[i].1;
      var rank := RankHand(hand, j);
      var cards := if j then Downgraded(hand) else hand;
      RankedRowsSnoc(input, i, j);
      ranked := ranked + [(rank, cards, bet)];
    }
    assert input[..|input|] == input;
  }

  lemma RankedRowsSnoc(input: seq<(seq<int>, int)>, i: nat, j: bool)
    requires i < |input|
    ensures RankedRows(input[..i + 1], j) == RankedRows(input[..i], j) +
      [(RankOf(input[i].0, j), if j then Downgraded(input[i].0) else input[i].0, input[i].1)]
  {
    assert input[..i + 1][..i] == input[..i];
  }

  /** The loop summing each bet times its position. */
  method Weigh(sorted: seq<Ranked>) returns (total: int)
    ensures total == Winnings(sorted)
  {
    total := 0;
    for i := 0 to |sorted|
      invariant total == Winnings(sorted[..i])
    {
      assert sorted[..i + 1][..i] == sorted[..i];
      total := total + (i + 1) * sorted[i].2;
    }
    assert sorted[..|sorted|] == sorted;
  }

  /** `puzzle1` (`j` false) and `puzzle2` (`j` true): rank every hand, sort
      the rows and sum each bet times its position. */
  method Puzzle(input: seq<(seq<int>, int)>, j: bool) returns (total: int)
    requires forall i | 0 <= i < |input| :: |input[i].0| == 5 && ValidCards(input[i].0)
    ensures total == Winnings(SortedRows(input, j))
  {
    var ranked := RankAll(input, j);
    RowLeTotalPreorder();
    var sorted := Sort(ranked, RowLe);
    total := Weigh(sorted);
  }
}
