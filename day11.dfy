/** Day 11, "Cosmic Expansion": galaxies on a grid; every empty column and
    row is widened by `count` extra columns or rows, and the answer is the
    sum of the Manhattan distances over all pairs of galaxies. */
module Day11 {
  import opened Sorting
  import opened Seqs

  /** A galaxy's position (x, y): column, then row. */
  type Galaxy = (int, int)

  datatype Axis = X | Y

  function Coord(g: Galaxy, a: Axis): int {
    if a == X then g.0 else g.1
  }

  /** The galaxy with its coordinate on axis `a` replaced by `v`. */
  function Moved(g: Galaxy, a: Axis, v: int): (h: Galaxy)
    ensures Coord(h, a) == v
    ensures a == X ==> h.1 == g.1
    ensures a == Y ==> h.0 == g.0
  {
    if a == X then (v, g.1) else (g.0, v)
  }

  function Key(a: Axis): Galaxy -> int {
    (g: Galaxy) => Coord(g, a)
  }

  /** The coordinates on axis `a` that hold some galaxy. */
  function Occupied(s: seq<Galaxy>, a: Axis): set<int> {
    set i | 0 <= i < |s| :: Coord(s[i], a)
  }

  /** The number of lines in [lo, hi) that hold no galaxy. */
  function Empty(occ: set<int>, lo: int, hi: int): nat
    decreases hi - lo
  {
    if hi <= lo then 0 else Empty(occ, lo, hi - 1) + (if hi - 1 in occ then 0 else 1)
  }

  /** Where `expand` moves coordinate `c`: `count` further for each empty
      line between line 0 and `c` (line 0 itself is never counted, because
      `prevx` starts at 0). */
  function Shift(occ: set<int>, c: int, count: int): int {
    c + count * Empty(occ, 1, c)
  }

  /** The specification of `expand`: both coordinates shifted. */
  function Expansion(s: seq<Galaxy>, count: int): Galaxy -> Galaxy {
    (g: Galaxy) => (Shift(Occupied(s, X), g.0, count), Shift(Occupied(s, Y), g.1, count))
  }

  /** `parse_input`: the positions of the '#' characters, row by row and
      left to right. */
  method ParseGalaxies(lines: seq<string>) returns (ret: seq<Galaxy>)
    ensures forall g :: g in ret <==> 0 <= g.1 < |lines| && 0 <= g.0 < |lines[g.1]| && lines[g.1][g.0] == '#'
    ensures forall i, j | 0 <= i < j < |ret| :: RowMajor(ret[i], ret[j])
  {
    ret := [];
    for y := 0 to |lines|
      invariant forall g :: g in ret <==> 0 <= g.1 < y && 0 <= g.0 < |lines[g.1]| && lines[g.1][g.0] == '#'
      invariant forall i, j | 0 <= i < j < |ret| :: RowMajor(ret[i], ret[j])
      invariant forall i | 0 <= i < |ret| :: ret[i].1 < y
    {
      ret := ParseRow(lines[y], y, ret);
    }
  }

  /** Galaxy g comes before h in reading order. */
  predicate RowMajor(g: Galaxy, h: Galaxy) {
    g.1 < h.1 || (g.1 == h.1 && g.0 < h.0)
  }

  /** The inner loop of `parse_input`: the '#' positions of row y, appended
      left to right. */
  method ParseRow(line: string, y: int, ret0: seq<Galaxy>) returns (ret: seq<Galaxy>)
    requires forall i, j | 0 <= i < j < |ret0| :: RowMajor(ret0[i], ret0[j])
    requires forall i | 0 <= i < |ret0| :: ret0[i].1 < y
    ensures forall g :: g in ret <==> g in ret0 || (g.1 == y && 0 <= g.0 < |line| && line[g.0] == '#')
    ensures forall i, j | 0 <= i < j < |ret| :: RowMajor(ret[i], ret[j])
    ensures forall i | 0 <= i < |ret| :: ret[i].1 <= y
  {
    ret := ret0;
    for x := 0 to |line|
      invariant forall g :: g in ret <==> g in ret0 || (g.1 == y && 0 <= g.0 < x && line[g.0] == '#')
      invariant forall i, j | 0 <= i < j < |ret| :: RowMajor(ret[i], ret[j])
      invariant forall i | 0 <= i < |ret| :: ret[i].1 < y || (ret[i].1 == y && ret[i].0 < x)
    {
      if line[x] == '#' {
        ret := ret + [(x, y)];
      }
    }
  }

  lemma {:induction false} EmptySplit(occ: set<int>, lo: int, mid: int, hi: int)
    requires lo <= mid <= hi
    ensures Empty(occ, lo, hi) == Empty(occ, lo, mid) + Empty(occ, mid, hi)
    decreases hi - mid
  {
    if mid < hi {
      EmptySplit(occ, lo, mid, hi - 1);
    }
  }

  lemma {:induction false} EmptyNone(occ: set<int>, lo: int, hi: int)
    requires lo <= hi
    requires forall v | v in occ :: v < lo || v >= hi
    ensures Empty(occ, lo, hi) == hi - lo
    decreases hi - lo
  {
    if lo < hi {
      EmptyNone(occ, lo, hi - 1);
    }
  }

  /** Between an occupied line `p` (or line 0) and the next occupied line
      `c`, every line is empty. */
  lemma GapStep(occ: set<int>, p: int, c: int)
    requires 0 <= p < c && (p in occ || p == 0)
    requires forall v | v in occ :: v <= p || v >= c
    ensures Empty(occ, 1, c) == Empty(occ, 1, p) + (c - p - 1)
  {
    if p == 0 {
      EmptyNone(occ, 1, c);
    } else {
      EmptySplit(occ, 1, p, c);
      EmptySplit(occ, p, p + 1, c);
      EmptyNone(occ, p + 1, c);
    }
  }

  /** The step of a pass at a galaxy whose coordinate `c` differs from the
      previous galaxy's (`prev`): the lines strictly between are empty. */
  lemma SpreadGap(s: seq<Galaxy>, a: Axis, i: nat, prev: int, c: int, count: int)
    requires SortedByKey(s, Key(a))
    requires forall k | 0 <= k < |s| :: Coord(s[k], a) >= 0
    requires i < |s| && prev == (if i == 0 then 0 else Coord(s[i - 1], a)) && c == Coord(s[i], a) && c != prev
    ensures count * Empty(Occupied(s, a), 1, prev) + (c - prev - 1) * count == count * Empty(Occupied(s, a), 1, c)
  {
    var occ := Occupied(s, a);
    SortedSplit(s, a, i, prev, c);
    GapStep(occ, prev, c);
    var e := Empty(occ, 1, prev);
    assert count * (e + (c - prev - 1)) == count * e + (c - prev - 1) * count;
  }

  lemma SortedSplit(s: seq<Galaxy>, a: Axis, i: nat, prev: int, c: int)
    requires SortedByKey(s, Key(a))
    requires forall k | 0 <= k < |s| :: Coord(s[k], a) >= 0
    requires i < |s| && prev == (if i == 0 then 0 else Coord(s[i - 1], a)) && c == Coord(s[i], a) && c != prev
    ensures 0 <= prev < c && (prev in Occupied(s, a) || prev == 0)
    ensures forall v | v in Occupied(s, a) :: v <= prev || v >= c
  {
    var occ := Occupied(s, a);
    var key := Key(a);
    assert key(s[i]) == c;
    if i > 0 {
      assert key(s[i - 1]) == prev;
      assert prev in occ;
    }
    forall v | v in occ ensures v <= prev || v >= c {
      var j :| 0 <= j < |s| && Coord(s[j], a) == v;
      assert key(s[j]) == v;
      if j < i - 1 {
        assert key(s[j]) <= key(s[i - 1]);
      } else if j > i {
        assert key(s[i]) <= key(s[j]);
      }
    }
  }

  /** One pass of `expand` (the `iter_mut` loop over `input` sorted on axis
      `a`): every galaxy's coordinate is shifted by `count` per empty line
      before it. */
  method Spread(s: seq<Galaxy>, a: Axis, count: int) returns (out: seq<Galaxy>)
    requires SortedByKey(s, Key(a))
    requires forall i | 0 <= i < |s| :: Coord(s[i], a) >= 0
    ensures |out| == |s|
    ensures forall k | 0 <= k < |s| :: out[k] == Moved(s[k], a, Shift(Occupied(s, a), Coord(s[k], a), count))
  {
    ghost var occ := Occupied(s, a);
    var prev := 0;
    var inc := 0;
    out := s;
    for i := 0 to |s|
      invariant |out| == |s|
      invariant prev == (if i == 0 then 0 else Coord(s[i - 1], a))
      invariant inc == count * Empty(occ, 1, prev)
      invariant forall k | 0 <= k < i :: out[k] == Moved(s[k], a, Shift(occ, Coord(s[k], a), count))
      invariant forall k | i <= k < |s| :: out[k] == s[k]
    {
      var c := Coord(out[i], a);
      if c != prev {
        SpreadGap(s, a, i, prev, c, count);
        inc := inc + (c - prev - 1) * count;
        prev := c;
      }
      out := out[i := Moved(out[i], a, c + inc)];
    }
  }

  lemma OccupiedPerm(s: seq<Galaxy>, t: seq<Galaxy>, a: Axis)
    requires multiset(s) == multiset(t)
    ensures Occupied(s, a) == Occupied(t, a)
  {
    forall v | v in Occupied(s, a) ensures v in Occupied(t, a) {
      var i :| 0 <= i < |s| && Coord(s[i], a) == v;
      assert s[i] in multiset(t);
      var j :| 0 <= j < |t| && t[j] == s[i];
    }
    forall v | v in Occupied(t, a) ensures v in Occupied(s, a) {
      var j :| 0 <= j < |t| && Coord(t[j], a) == v;
      assert t[j] in multiset(s);
      var i :| 0 <= i < |s| && s[i] == t[j];
    }
  }

  /** `expand`: sort on x and spread the columns, then sort on y and spread
      the rows. The result is the expansion of the input, in some order. */
  method Expand(input: seq<Galaxy>, count: int) returns (out: seq<Galaxy>)
    requires forall i | 0 <= i < |input| :: input[i].0 >= 0 && input[i].1 >= 0
    ensures multiset(out) == multiset(Map(input, Expansion(input, count)))
  {
    var xs := SortByKey(input, Key(X));
    assert forall i | 0 <= i < |xs| :: Coord(xs[i], X) >= 0 by {
      forall i | 0 <= i < |xs| ensures Coord(xs[i], X) >= 0 {
        assert xs[i] in multiset(input);
      }
    }
    var wide := Spread(xs, X, count);
    var ys := SortByKey(wide, Key(Y));
    assert forall i | 0 <= i < |ys| :: Coord(ys[i], Y) >= 0 by {
      forall i | 0 <= i < |ys| ensures Coord(ys[i], Y) >= 0 {
        assert ys[i] in multiset(wide);
        var j :| 0 <= j < |wide| && wide[j] == ys[i];
        assert xs[j] in multiset(input);
      }
    }
    out := Spread(ys, Y, count);
    ExpandSpec(input, count, xs, wide, ys, out);
  }

  lemma ExpandSpec(input: seq<Galaxy>, count: int, xs: seq<Galaxy>, wide: seq<Galaxy>, ys: seq<Galaxy>, out: seq<Galaxy>)
    requires multiset(xs) == multiset(input) && multiset(ys) == multiset(wide)
    requires |wide| == |xs| && forall k | 0 <= k < |xs| :: wide[k] == Moved(xs[k], X, Shift(Occupied(xs, X), Coord(xs[k], X), count))
    requires |out| == |ys| && forall k | 0 <= k < |ys| :: out[k] == Moved(ys[k], Y, Shift(Occupied(ys, Y), Coord(ys[k], Y), count))
    ensures multiset(out) == multiset(Map(input, Expansion(input, count)))
  {
    var ox, oy := Occupied(input, X), Occupied(input, Y);
    OccupiedPerm(xs, input, X);
    OccupiedPerm(xs, input, Y);
    OccupiedPerm(ys, wide, Y);
    assert Occupied(wide, Y) == Occupied(xs, Y) by {
      forall k | 0 <= k < |xs| ensures Coord(wide[k], Y) == Coord(xs[k], Y) {
      }
    }
    var fx := (g: Galaxy) => (Shift(ox, g.0, count), g.1);
    var fy := (g: Galaxy) => (g.0, Shift(oy, g.1, count));
    var f := Expansion(input, count);
    assert wide == Map(xs, fx);
    assert out == Map(ys, fy);
    MapPerm(ys, wide, fy);
    assert Map(wide, fy) == Map(xs, f);
    MapPerm(xs, input, f);
  }

  /** With `count` 0 the galaxies do not move. */
  lemma ExpandZero(input: seq<Galaxy>)
    ensures Map(input, Expansion(input, 0)) == input
  {
  }

  lemma EmptyMonotone(occ: set<int>, b: int, c: int)
    requires b <= c
    ensures Empty(occ, 1, b) <= Empty(occ, 1, c)
  {
    if 1 <= b {
      EmptySplit(occ, 1, b, c);
    } else if 1 <= c {
      EmptySplit(occ, b, 1, c);
    }
  }

  /** With `count` >= 0 the shift keeps the order of coordinates strictly,
      so galaxies on one line stay on one line and no two lines swap. */
  lemma ShiftMonotone(occ: set<int>, b: int, c: int, count: int)
    requires count >= 0 && b < c
    ensures Shift(occ, b, count) < Shift(occ, c, count)
  {
    EmptyMonotone(occ, b, c);
    assert count * Empty(occ, 1, b) <= count * Empty(occ, 1, c) by {
      MulMonotone(count, Empty(occ, 1, b), Empty(occ, 1, c));
    }
  }

  lemma MulMonotone(k: int, m: int, n: int)
    requires k >= 0 && m <= n
    ensures k * m <= k * n
  {
    assert k * n - k * m == k * (n - m);
  }

  lemma EmptyFrom(occ: set<int>, b: int, c: int)
    requires 0 <= b <= c && b in occ
    ensures Empty(occ, 1, c) == Empty(occ, 1, b) + Empty(occ, b, c)
  {
    if b == 0 {
      if 1 <= c {
        EmptySplit(occ, 0, 1, c);
      }
    } else {
      EmptySplit(occ, 1, b, c);
    }
  }

  /** Between an occupied line `b` and a later line `c`, the shift adds
      `count` for every empty line in between. */
  lemma ShiftDifference(occ: set<int>, b: int, c: int, count: int)
    requires 0 <= b <= c && b in occ
    ensures Shift(occ, c, count) - Shift(occ, b, count) == (c - b) + count * Empty(occ, b, c)
  {
    EmptyFrom(occ, b, c);
    Distribute(count, Empty(occ, 1, b), Empty(occ, b, c));
  }

  lemma Distribute(k: int, x: int, y: int)
    ensures k * (x + y) == k * x + k * y
  {
  }

  /** For consecutive occupied lines b < c the new gap is
      (c - b) + (c - b - 1) * count. */
  lemma ConsecutiveGap(occ: set<int>, b: int, c: int, count: int)
    requires 0 <= b < c && b in occ && c in occ
    requires forall v | v in occ :: v <= b || v >= c
    ensures Shift(occ, c, count) - Shift(occ, b, count) == (c - b) + (c - b - 1) * count
  {
    ShiftDifference(occ, b, c, count);
    EmptySplit(occ, b, b + 1, c);
    EmptyNone(occ, b + 1, c);
  }

  function Abs(v: int): (r: nat)
    ensures r == v || r == -v
  {
    if v < 0 then -v else v
  }

  /** The Manhattan distance of two galaxies. */
  function Dist(g: Galaxy, h: Galaxy): (d: nat)
    ensures d == 0 <==> g == h
  {
    Abs(g.0 - h.0) + Abs(g.1 - h.1)
  }

  lemma DistSymmetric(g: Galaxy, h: Galaxy)
    ensures Dist(g, h) == Dist(h, g)
  {
  }

  /** The distances from `g` to every galaxy of `s`. */
  function DistToAll(g: Galaxy, s: seq<Galaxy>): nat {
    if s == [] then 0 else Dist(g, s[0]) + DistToAll(g, s[1..])
  }

  /** The distances over all pairs i < j, in the order the loops visit them. */
  function PairSum(s: seq<Galaxy>): nat {
    if s == [] then 0 else DistToAll(s[0], s[1..]) + PairSum(s[1..])
  }

  /** Taking any one galaxy out of `s` takes out its distance to `g`. */
  lemma {:induction false} DistToAllRemove(g: Galaxy, t: seq<Galaxy>, k: nat)
    requires k < |t|
    ensures DistToAll(g, t) == Dist(g, t[k]) + DistToAll(g, t[..k] + t[k + 1..])
    decreases k
  {
    if k == 0 {
      assert t[..0] + t[1..] == t[1..];
    } else {
      DistToAllRemove(g, t[1..], k - 1);
      assert t[1..][..k - 1] + t[1..][k..] == t[1..k] + t[k + 1..];
      assert t[..k] + t[k + 1..] == [t[0]] + (t[1..k] + t[k + 1..]);
    }
  }

  /** The distance sum does not depend on the order of the galaxies. */
  lemma {:induction false} DistToAllPerm(g: Galaxy, s: seq<Galaxy>, t: seq<Galaxy>)
    requires multiset(s) == multiset(t)
    ensures DistToAll(g, s) == DistToAll(g, t)
    decreases |s|
  {
    if s != [] {
      var k :| 0 <= k < |t| && t[k] == s[0] by {
        assert s[0] in multiset(t);
      }
      var rest := t[..k] + t[k + 1..];
      PermRemoveFirst(s, t, k);
      DistToAllPerm(g, s[1..], rest);
      DistToAllRemove(g, t, k);
    }
  }

  /** Taking any one galaxy out of `t` takes out every pair it belongs to. */
  lemma {:induction false} PairSumRemove(t: seq<Galaxy>, k: nat)
    requires k < |t|
    ensures PairSum(t) == DistToAll(t[k], t[..k] + t[k + 1..]) + PairSum(t[..k] + t[k + 1..])
    decreases k
  {
    if k == 0 {
      assert t[..0] + t[1..] == t[1..];
    } else {
      var r1 := t[1..k] + t[k + 1..];
      assert t[1..][..k - 1] + t[1..][k..] == r1;
      PairSumRemove(t[1..], k - 1);
      DistToAllRemove(t[0], t[1..], k - 1);
      DistSymmetric(t[0], t[k]);
      assert t[..k] + t[k + 1..] == [t[0]] + r1;
      ConsUnfold(t[0], t[k], r1);
    }
  }

  lemma ConsUnfold(x: Galaxy, g: Galaxy, r: seq<Galaxy>)
    ensures DistToAll(g, [x] + r) == Dist(g, x) + DistToAll(g, r)
    ensures PairSum([x] + r) == DistToAll(x, r) + PairSum(r)
  {
    assert ([x] + r)[1..] == r;
  }

  /** The sum over all pairs does not depend on the order of the galaxies,
      so `expand` may leave them in any order. */
  lemma {:induction false} PairSumPerm(s: seq<Galaxy>, t: seq<Galaxy>)
    requires multiset(s) == multiset(t)
    ensures PairSum(s) == PairSum(t)
    decreases |s|
  {
    if s != [] {
      var k :| 0 <= k < |t| && t[k] == s[0] by {
        assert s[0] in multiset(t);
      }
      var rest := t[..k] + t[k + 1..];
      PermRemoveFirst(s, t, k);
      PairSumPerm(s[1..], rest);
      DistToAllPerm(s[0], s[1..], rest);
      PairSumRemove(t, k);
    }
  }

  /** The nested loop of `puzzle1and2`: each galaxy against every later one. */
  method SumPairs(s: seq<Galaxy>) returns (tot: int)
    ensures tot == PairSum(s)
  {
    tot := 0;
    for i := 0 to |s|
      invariant tot + PairSum(s[i..]) == PairSum(s)
    {
      assert s[i..][1..] == s[i + 1..];
      var acc := 0;
      for j := i + 1 to |s|
        invariant acc + DistToAll(s[i], s[j..]) == DistToAll(s[i], s[i + 1..])
      {
        assert s[j..][1..] == s[j + 1..];
        acc := acc + Dist(s[i], s[j]);
      }
      tot := tot + acc;
    }
  }

  /** `puzzle1and2`: expand, then sum the distances of all pairs. The answer
      is the pair sum of the expanded galaxies in their original order. */
  method Puzzle(galaxies: seq<Galaxy>, count: int) returns (tot: int)
    requires forall i | 0 <= i < |galaxies| :: galaxies[i].0 >= 0 && galaxies[i].1 >= 0
    ensures tot == PairSum(Map(galaxies, Expansion(galaxies, count)))
  {
    var expanded := Expand(galaxies, count);
    tot := SumPairs(expanded);
    PairSumPerm(expanded, Map(galaxies, Expansion(galaxies, count)));
  }
}
