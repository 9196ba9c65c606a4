/** Day 12, "Hot Springs": counting the ways to fill in the unknown springs
    of a row so that the runs of damaged springs have the listed lengths. */
module Day12 {
  import opened Wrappers
  import opened Seqs

  /** Operational '.', damaged '#', unknown '?'. */
  datatype Spring = Ope | Dam | Unk

  /** The character map of `parse_input`; any other character is
      `unreachable!`, here None. */
  function ParseSpring(c: char): (r: Option<Spring>)
    ensures r.Some? <==> c in ".#?"
    ensures r.Some? ==> SpringChar(r.value) == c
  {
    match c
    case '.' => Some(Ope)
    case '#' => Some(Dam)
    case '?' => Some(Unk)
    case _ => None
  }

  function SpringChar(s: Spring): char {
    match s
    case Ope => '.'
    case Dam => '#'
    case Unk => '?'
  }

  lemma SpringCharRoundTrip(s: Spring)
    ensures ParseSpring(SpringChar(s)) == Some(s)
  {
  }

  /** The springs half of a line; None if any character is not a spring. */
  function ParseSprings(line: string): (r: Option<seq<Spring>>)
    ensures r.Some? <==> forall i | 0 <= i < |line| :: line[i] in ".#?"
    ensures r.Some? ==> |r.value| == |line| && forall i | 0 <= i < |line| :: SpringChar(r.value[i]) == line[i]
  {
    if line == [] then Some([])
    else
      match (ParseSprings(line[..|line| - 1]), ParseSpring(line[|line| - 1]))
      case (Some(init), Some(s)) => Some(init + [s])
      case _ => None
  }

  /** The `minlen` of a group list: the groups with one operational spring
      between neighbours (-1 for no groups). */
  function MinLen(groups: seq<int>): int {
    Sum(groups) + |groups| - 1
  }

  lemma MinLenCons(groups: seq<int>)
    requires |groups| > 0
    ensures MinLen(groups[1..]) == MinLen(groups) - groups[0] - 1
  {
    assert groups == [groups[0]] + groups[1..];
    SumAppend([groups[0]], groups[1..]);
    assert Sum([groups[0]]) == Sum([]) + groups[0];
  }

  /** `count_springs` without the cache: `curdam` is the length of the run of
      damaged springs just before `springs`, `minlen` the room the remaining
      groups need. The first six cases are the early returns; then a '.' or
      '?' closes a run (which must equal the next group) or extends the
      operational stretch, and a '#' or '?' extends the run. */
  function CountF(springs: seq<Spring>, groups: seq<int>, curdam: int, minlen: int): int
    decreases |springs|
  {
    if |springs| == 0 && |groups| == 1 && groups[0] == curdam then 1
    else if |springs| == 0 && |groups| == 0 && curdam == 0 then 1
    else if |springs| == 0 then 0
    else if |groups| > 0 && curdam > groups[0] then 0
    else if |groups| == 0 && curdam > 0 then 0
    else if |springs| + curdam < minlen then 0
    else
      (if springs[0] != Dam then
         (if curdam > 0 then
            (if |groups| > 0 && groups[0] == curdam
             then CountF(springs[1..], groups[1..], 0, minlen - curdam - 1) else 0)
          else CountF(springs[1..], groups, 0, minlen))
       else 0)
      + (if springs[0] != Ope then CountF(springs[1..], groups, curdam + 1, minlen) else 0)
  }

  // ---------------------------------------------------------------------
  // The reference: every way to fill in a row, and the runs of each

  /** A filled-in row: true for damaged. */
  type Filling = seq<bool>

  function Prefix(b: bool, cs: seq<Filling>): seq<Filling> {
    Map(cs, (c: Filling) => [b] + c)
  }

  /** Every filling of `springs`, each '?' taken both ways. */
  function Completions(springs: seq<Spring>): (cs: seq<Filling>)
    ensures forall i | 0 <= i < |cs| :: |cs[i]| == |springs|
  {
    if springs == [] then [[]]
    else
      var rest := Completions(springs[1..]);
      match springs[0]
      case Ope => Prefix(false, rest)
      case Dam => Prefix(true, rest)
      case Unk => Prefix(false, rest) + Prefix(true, rest)
  }

  /** A filling agrees with the known springs. */
  predicate Fits(c: Filling, springs: seq<Spring>) {
    |c| == |springs| &&
    forall i | 0 <= i < |c| :: (springs[i] == Ope ==> !c[i]) && (springs[i] == Dam ==> c[i])
  }

  /** The run lengths of `cur` damaged springs followed by `c`. */
  function RunsFrom(c: Filling, cur: nat): seq<int> {
    if c == [] then (if cur > 0 then [cur] else [])
    else if c[0] then RunsFrom(c[1..], cur + 1)
    else (if cur > 0 then [cur] else []) + RunsFrom(c[1..], 0)
  }

  /** The number of fillings of `springs` whose runs, after a run of `cur`,
      are `groups`. */
  function Ways(springs: seq<Spring>, groups: seq<int>, cur: nat): nat {
    Count(Map(Completions(springs), (c: Filling) => RunsFrom(c, cur)), groups)
  }

  lemma {:induction false} CountPrefix<T>(xs: seq<seq<T>>, h: T, g: seq<T>)
    ensures Count(Map(xs, (x: seq<T>) => [h] + x), g) == if |g| > 0 && g[0] == h then Count(xs, g[1..]) else 0
    decreases |xs|
  {
    if xs != [] {
      var n := |xs|;
      var f := (x: seq<T>) => [h] + x;
      assert Map(xs, f)[..n - 1] == Map(xs[..n - 1], f);
      CountPrefix(xs[..n - 1], h, g);
      assert ([h] + xs[n - 1] == g) <==> (|g| > 0 && g[0] == h && xs[n - 1] == g[1..]) by {
        if |g| > 0 && g[0] == h && xs[n - 1] == g[1..] {
          assert g == [h] + g[1..];
        }
      }
    }
  }

  /** Each filling that fits appears exactly once among the completions. */
  lemma {:induction false} CompletionsExactlyOnce(springs: seq<Spring>, c: Filling)
    ensures Count(Completions(springs), c) == if Fits(c, springs) then 1 else 0
    decreases |springs|
  {
    if springs == [] {
      assert Completions(springs) == [[]];
      assert Count([[]], c) == Count([], c) + (if [] == c then 1 else 0);
    } else if c == [] {
      assert c !in Completions(springs);
      CountNotIn(Completions(springs), c);
    } else {
      var rest := Completions(springs[1..]);
      CompletionsExactlyOnce(springs[1..], c[1..]);
      CountPrefix(rest, false, c);
      CountPrefix(rest, true, c);
      assert Prefix(false, rest) == Map(rest, (x: seq<bool>) => [false] + x);
      assert Prefix(true, rest) == Map(rest, (x: seq<bool>) => [true] + x);
      if springs[0] == Unk {
        CountAppend(Prefix(false, rest), Prefix(true, rest), c);
      }
      FitsCons(c, springs);
    }
  }

  lemma FitsCons(c: Filling, springs: seq<Spring>)
    requires |springs| > 0
    ensures Fits(c, springs) <==>
      |c| > 0 && (springs[0] == Ope ==> !c[0]) && (springs[0] == Dam ==> c[0]) && Fits(c[1..], springs[1..])
  {
    if |c| > 0 && (springs[0] == Ope ==> !c[0]) && (springs[0] == Dam ==> c[0]) && Fits(c[1..], springs[1..]) {
      forall i | 0 <= i < |c| ensures (springs[i] == Ope ==> !c[i]) && (springs[i] == Dam ==> c[i]) {
        if i > 0 {
          assert c[1..][i - 1] == c[i] && springs[1..][i - 1] == springs[i];
        }
      }
    }
    if Fits(c, springs) {
      forall i | 0 <= i < |c| - 1 ensures (springs[1..][i] == Ope ==> !c[1..][i]) && (springs[1..][i] == Dam ==> c[1..][i]) {
        assert c[1..][i] == c[i + 1];
      }
    }
  }

  /** A run in progress is the first run, and at least as long. */
  lemma {:induction false} RunsFirst(c: Filling, cur: nat)
    requires cur > 0
    ensures |RunsFrom(c, cur)| > 0 && RunsFrom(c, cur)[0] >= cur
    decreases |c|
  {
    if c != [] && c[0] {
      RunsFirst(c[1..], cur + 1);
    }
  }

  /** The runs of a filling need at least their `minlen` of room. */
  lemma {:induction false} RunsMinLen(c: Filling, cur: nat)
    ensures MinLen(RunsFrom(c, cur)) <= |c| + cur
    decreases |c|
  {
    if c == [] {
      if cur > 0 {
        assert Sum([cur]) == Sum([]) + cur;
      }
    } else if c[0] {
      RunsMinLen(c[1..], cur + 1);
    } else {
      RunsMinLen(c[1..], 0);
      var r := RunsFrom(c[1..], 0);
      if cur > 0 {
        SumAppend([cur], r);
        assert Sum([cur]) == Sum([]) + cur;
      } else {
        assert [] + r == r;
      }
    }
  }

  lemma NoMatch(springs: seq<Spring>, groups: seq<int>, cur: nat)
    requires forall c | c in Completions(springs) :: RunsFrom(c, cur) != groups
    ensures Ways(springs, groups, cur) == 0
  {
    var xs := Map(Completions(springs), (c: Filling) => RunsFrom(c, cur));
    assert groups !in xs;
    CountNotIn(xs, groups);
  }

  lemma DamagedStep(rest: seq<Filling>, cur: nat)
    ensures Map(Prefix(true, rest), (c: Filling) => RunsFrom(c, cur)) == Map(rest, (c: Filling) => RunsFrom(c, cur + 1))
  {
  }

  lemma OperationalStep(rest: seq<Spring>, groups: seq<int>, cur: nat)
    ensures Count(Map(Prefix(false, Completions(rest)), (c: Filling) => RunsFrom(c, cur)), groups) ==
      if cur == 0 then Ways(rest, groups, 0)
      else if |groups| > 0 && groups[0] == cur then Ways(rest, groups[1..], 0)
      else 0
  {
    var cs := Completions(rest);
    var zs := Map(cs, (c: Filling) => RunsFrom(c, 0));
    if cur == 0 {
      var l := Map(Prefix(false, cs), (c: Filling) => RunsFrom(c, cur));
      forall i | 0 <= i < |l| ensures l[i] == zs[i] {
        assert ([false] + cs[i])[1..] == cs[i];
        assert [] + RunsFrom(cs[i], 0) == RunsFrom(cs[i], 0);
      }
      assert l == zs;
    } else {
      assert Map(Prefix(false, cs), (c: Filling) => RunsFrom(c, cur)) == Map(zs, (x: seq<int>) => [cur] + x);
      CountPrefix(zs, cur, groups);
    }
  }

  /** The ways split on the first spring as the recursion does. */
  lemma WaysStep(springs: seq<Spring>, groups: seq<int>, cur: nat)
    requires |springs| > 0
    ensures Ways(springs, groups, cur) ==
      (if springs[0] != Dam then
         (if cur == 0 then Ways(springs[1..], groups, 0)
          else if |groups| > 0 && groups[0] == cur then Ways(springs[1..], groups[1..], 0)
          else 0)
       else 0)
      + (if springs[0] != Ope then Ways(springs[1..], groups, cur + 1) else 0)
  {
    var rest := springs[1..];
    var cs := Completions(rest);
    var f := (c: Filling) => RunsFrom(c, cur);
    OperationalStep(rest, groups, cur);
    DamagedStep(cs, cur);
    if springs[0] == Unk {
      MapConcat(Prefix(false, cs), Prefix(true, cs), f);
      CountAppend(Map(Prefix(false, cs), f), Map(Prefix(true, cs), f), groups);
    }
  }

  /** With no early return, `count_springs` is the sum of its two branches. */
  lemma CountFStep(springs: seq<Spring>, groups: seq<int>, cur: nat, minlen: int)
    requires |springs| > 0
    requires !(|groups| > 0 && cur > groups[0]) && !(|groups| == 0 && cur > 0) && |springs| + cur >= minlen
    ensures CountF(springs, groups, cur, minlen) ==
      (if springs[0] != Dam then
         (if cur == 0 then CountF(springs[1..], groups, 0, minlen)
          else if |groups| > 0 && groups[0] == cur then CountF(springs[1..], groups[1..], 0, minlen - cur - 1)
          else 0)
       else 0)
      + (if springs[0] != Ope then CountF(springs[1..], groups, cur + 1, minlen) else 0)
  {
  }

  /** At the end of the line the run so far must be the last group. */
  lemma WaysEnd(groups: seq<int>, cur: nat)
    requires forall i | 0 <= i < |groups| :: groups[i] > 0
    ensures CountF([], groups, cur, MinLen(groups)) == Ways([], groups, cur)
  {
    assert Completions([]) == [[]];
    var xs := Map(Completions([]), (c: Filling) => RunsFrom(c, cur));
    assert xs == [RunsFrom([], cur)];
    assert Count(xs, groups) == Count([], groups) + (if RunsFrom([], cur) == groups then 1 else 0);
  }

  /** A run longer than the next group, or a run with no group left, matches
      no filling. */
  lemma TooLong(springs: seq<Spring>, groups: seq<int>, cur: nat)
    requires forall i | 0 <= i < |groups| :: groups[i] > 0
    requires (|groups| > 0 && cur > groups[0]) || (|groups| == 0 && cur > 0)
    ensures Ways(springs, groups, cur) == 0
  {
    forall c | c in Completions(springs) ensures RunsFrom(c, cur) != groups {
      RunsFirst(c, cur);
    }
    NoMatch(springs, groups, cur);
  }

  /** Too few springs left for the remaining groups matches no filling. */
  lemma TooShort(springs: seq<Spring>, groups: seq<int>, cur: nat)
    requires forall i | 0 <= i < |groups| :: groups[i] > 0
    requires |springs| + cur < MinLen(groups)
    ensures Ways(springs, groups, cur) == 0
  {
    forall c | c in Completions(springs) ensures RunsFrom(c, cur) != groups {
      RunsMinLen(c, cur);
    }
    NoMatch(springs, groups, cur);
  }

  /** The recursion of `count_springs` counts exactly the fillings whose
      damaged runs are the groups (for positive group lengths, as in any
      puzzle line). In particular every early return is sound. */
  lemma {:induction false} CountFIsWays(springs: seq<Spring>, groups: seq<int>, cur: nat)
    requires forall i | 0 <= i < |groups| :: groups[i] > 0
    ensures CountF(springs, groups, cur, MinLen(groups)) == Ways(springs, groups, cur)
    decreases |springs|
  {
    var minlen := MinLen(groups);
    if |springs| == 0 {
      WaysEnd(groups, cur);
    } else if (|groups| > 0 && cur > groups[0]) || (|groups| == 0 && cur > 0) {
      TooLong(springs, groups, cur);
    } else if |springs| + cur < minlen {
      TooShort(springs, groups, cur);
    } else {
      var rest := springs[1..];
      WaysStep(springs, groups, cur);
      CountFStep(springs, groups, cur, minlen);
      CountFIsWays(rest, groups, cur + 1);
      if cur == 0 {
        CountFIsWays(rest, groups, 0);
      } else if |groups| > 0 && groups[0] == cur {
        MinLenCons(groups);
        CountFIsWays(rest, groups[1..], 0);
      }
    }
  }

  // ---------------------------------------------------------------------
  // The memoised recursion

  /** `count_springs` with its cache. The cache key leaves out `minlen`;
      that is sound because `minlen` is always the `MinLen` of the groups
      passed, which `Valid` records for every entry. */
  class Memo {
    var cache: map<(seq<Spring>, seq<int>, int), int>

    constructor()
      ensures cache == map[]
    {
      cache := map[];
    }

    predicate Valid()
      reads this
    {
      forall k | k in cache :: cache[k] == CountF(k.0, k.1, k.2, MinLen(k.1))
    }

    method Count(springs: seq<Spring>, groups: seq<int>, curdam: int, minlen: int) returns (ret: int)
      requires Valid() && minlen == MinLen(groups)
      modifies this
      ensures Valid() && old(cache).Keys <= cache.Keys
      ensures ret == CountF(springs, groups, curdam, minlen)
      decreases |springs|
    {
      if |springs| == 0 && |groups| == 1 && groups[0] == curdam {
        return 1;
      } else if |springs| == 0 && |groups| == 0 && curdam == 0 {
        return 1;
      } else if |springs| == 0 {
        return 0;
      } else if |groups| > 0 && curdam > groups[0] {
        return 0;
      } else if |groups| == 0 && curdam > 0 {
        return 0;
      } else if |springs| + curdam < minlen {
        return 0;
      }
      if (springs, groups, curdam) in cache {
        return cache[(springs, groups, curdam)];
      }
      ret := 0;
      if springs[0] == Ope || springs[0] == Unk {
        if curdam > 0 {
          if |groups| > 0 && groups[0] == curdam {
            MinLenCons(groups);
            var r := Count(springs[1..], groups[1..], 0, minlen - curdam - 1);
            ret := ret + r;
          }
        } else {
          var r := Count(springs[1..], groups, 0, minlen);
          ret := ret + r;
        }
      }
      if springs[0] == Dam || springs[0] == Unk {
        var r := Count(springs[1..], groups, curdam + 1, minlen);
        ret := ret + r;
      }
      cache := cache[(springs, groups, curdam) := ret];
    }
  }

  /** One line of `puzzle1and2`: a fresh cache and the computed `minlen`. */
  method CountLine(springs: seq<Spring>, groups: seq<int>) returns (count: int)
    ensures count == CountF(springs, groups, 0, MinLen(groups))
  {
    var memo := new Memo();
    count := memo.Count(springs, groups, 0, Sum(groups) + |groups| - 1);
  }

  /** `unfold`: five copies of the springs joined by '?', five copies of the
      groups. */
  function Unfold(springs: seq<Spring>, groups: seq<int>): (r: (seq<Spring>, seq<int>))
    ensures |r.0| == 5 * |springs| + 4 && |r.1| == 5 * |groups|
    ensures r.0[..|springs|] == springs && r.0[|springs| + 1..2 * |springs| + 1] == springs
    ensures r.0[2 * |springs| + 2..3 * |springs| + 2] == springs && r.0[3 * |springs| + 3..4 * |springs| + 3] == springs
    ensures r.0[4 * |springs| + 4..] == springs
    ensures r.0[|springs|] == Unk && r.0[2 * |springs| + 1] == Unk && r.0[3 * |springs| + 2] == Unk && r.0[4 * |springs| + 3] == Unk
    ensures r.1[..|groups|] == groups && r.1[|groups|..2 * |groups|] == groups && r.1[2 * |groups|..3 * |groups|] == groups
    ensures r.1[3 * |groups|..4 * |groups|] == groups && r.1[4 * |groups|..] == groups
  {
    (springs + [Unk] + springs + [Unk] + springs + [Unk] + springs + [Unk] + springs,
     groups + groups + groups + groups + groups)
  }

  /** The unfolded groups need five times the room plus the four joints. */
  lemma UnfoldMinLen(springs: seq<Spring>, groups: seq<int>)
    ensures MinLen(Unfold(springs, groups).1) == 5 * MinLen(groups) + 4
  {
    var g := groups;
    SumAppend(g, g);
    SumAppend(g + g, g);
    SumAppend(g + g + g, g);
    SumAppend(g + g + g + g, g);
  }

  /** Unfolding keeps every group positive, so the count stays exact. */
  lemma UnfoldPositive(springs: seq<Spring>, groups: seq<int>)
    requires forall i | 0 <= i < |groups| :: groups[i] > 0
    ensures forall i | 0 <= i < |Unfold(springs, groups).1| :: Unfold(springs, groups).1[i] > 0
  {
    var g := Unfold(springs, groups).1;
    forall i | 0 <= i < |g| ensures g[i] > 0 {
      var m := |groups|;
      if i < m { assert g[i] == g[..m][i]; }
      else if i < 2 * m { assert g[i] == g[m..2 * m][i - m]; }
      else if i < 3 * m { assert g[i] == g[2 * m..3 * m][i - 2 * m]; }
      else if i < 4 * m { assert g[i] == g[3 * m..4 * m][i - 3 * m]; }
      else { assert g[i] == g[4 * m..][i - 4 * m]; }
    }
  }

  type Line = (seq<Spring>, seq<int>)

  function Total(lines: seq<Line>): int {
    if lines == [] then 0
    else
      var l := lines[|lines| - 1];
      Total(lines[..|lines| - 1]) + CountF(l.0, l.1, 0, MinLen(l.1))
  }

  function TotalWays(lines: seq<Line>): int {
    if lines == [] then 0
    else
      var l := lines[|lines| - 1];
      TotalWays(lines[..|lines| - 1]) + Ways(l.0, l.1, 0)
  }

  predicate PositiveGroups(lines: seq<Line>) {
    forall i, j | 0 <= i < |lines| && 0 <= j < |lines[i].1| :: lines[i].1[j] > 0
  }

  /** The puzzle total is the number of fillings, line by line. */
  lemma {:induction false} TotalIsWays(lines: seq<Line>)
    requires PositiveGroups(lines)
    ensures Total(lines) == TotalWays(lines)
    decreases |lines|
  {
    if lines != [] {
      var n := |lines|;
      var init := lines[..n - 1];
      assert PositiveGroups(init) by {
        forall i | 0 <= i < n - 1 ensures init[i] == lines[i] {
        }
      }
      TotalIsWays(init);
      CountFIsWays(lines[n - 1].0, lines[n - 1].1, 0);
    }
  }

  function UnfoldAll(lines: seq<Line>): (r: seq<Line>)
    ensures |r| == |lines| && forall i | 0 <= i < |lines| :: r[i] == Unfold(lines[i].0, lines[i].1)
  {
    Map(lines, (l: Line) => Unfold(l.0, l.1))
  }

  /** `puzzle1and2` on parsed lines, unfolded first when asked. */
  method Puzzle(input: seq<Line>, unfolded: bool) returns (ret: int)
    ensures ret == Total(if unfolded then UnfoldAll(input) else input)
  {
    var lines := if unfolded then UnfoldAll(input) else input;
    ret := SumLines(lines);
  }

  /** The summing loop of `puzzle1and2`: one fresh count per line. */
  method SumLines(lines: seq<Line>) returns (ret: int)
    ensures ret == Total(lines)
  {
    ret := 0;
    for i := 0 to |lines|
      invariant ret == Total(lines[..i])
    {
      assert lines[..i + 1][..i] == lines[..i];
      var count := CountLine(lines[i].0, lines[i].1);
      ret := ret + count;
    }
    assert lines[..|lines|] == lines;
  }

  /** The first line of the worked example, `???.### 1,1,3`, has exactly one
      arrangement. */
  lemma ExampleFirstLine()
    ensures CountF([Unk, Unk, Unk, Ope, Dam, Dam, Dam], [1, 1, 3], 0, 6) == 1
  {
  }
}
