/** Day 21, "Step Counter": a garden of plots and rocks repeats in every
    direction; each step moves every reached plot to its open orthogonal
    neighbours, and the answer is how many plots are reached after the
    last step. */
module Day21 {
  import opened Wrappers
  import opened Grid

  /** The rocks by (row, column) and the starting plot. */
  datatype Garden = Garden(rocks: seq<seq<bool>>, start: Pos)

  predicate Valid(g: Garden) {
    |g.rocks| > 0 && |g.rocks[0]| > 0 && Rect(g.rocks) && InGrid(|g.rocks|, |g.rocks[0]|, g.start)
  }

  /** '.' and 'S' are plots, '#' a rock; anything else is `unreachable!`. */
  function ParseCell(c: char): (r: Option<bool>)
    ensures r.Some? <==> c == '.' || c == '#' || c == 'S'
    ensures r.Some? ==> (r.value <==> c == '#')
  {
    match c
    case '.' => Some(false)
    case '#' => Some(true)
    case 'S' => Some(false)
    case _ => None
  }

  predicate GardenChar(c: char) {
    c == '.' || c == '#' || c == 'S'
  }

  function ParseRow(l: string): (r: Option<seq<bool>>)
    ensures r.Some? <==> forall i | 0 <= i < |l| :: GardenChar(l[i])
    ensures r.Some? ==> |r.value| == |l| && forall i | 0 <= i < |l| :: r.value[i] <==> l[i] == '#'
  {
    if l == [] then Some([])
    else
      var init, last := ParseRow(l[..|l| - 1]), ParseCell(l[|l| - 1]);
      if init.None? || last.None? then None else Some(init.value + [last.value])
  }

  function ParseRows(rows: seq<string>): (r: Option<seq<seq<bool>>>)
    ensures r.Some? <==> forall y, x | 0 <= y < |rows| && 0 <= x < |rows[y]| :: GardenChar(rows[y][x])
    ensures r.Some? ==> |r.value| == |rows| && forall y | 0 <= y < |rows| :: |r.value[y]| == |rows[y]|
    ensures r.Some? ==> forall y, x | 0 <= y < |rows| && 0 <= x < |rows[y]| :: r.value[y][x] <==> rows[y][x] == '#'
  {
    if rows == [] then Some([])
    else
      var init, last := ParseRows(rows[..|rows| - 1]), ParseRow(rows[|rows| - 1]);
      if init.None? || last.None? then None else Some(init.value + [last.value])
  }

  /** The lines of the file without the empty ones. */
  function NonEmpty(lines: seq<string>): (r: seq<string>)
    ensures forall l | l in r :: l != [] && l in lines
    ensures forall l | l in lines && l != [] :: l in r
  {
    if lines == [] then []
    else NonEmpty(lines[..|lines| - 1]) + (if lines[|lines| - 1] == [] then [] else [lines[|lines| - 1]])
  }

  /** The last 'S' of a line. */
  function LastIn(l: string, c: char): (r: Option<nat>)
    ensures r.None? <==> c !in l
    ensures r.Some? ==> r.value < |l| && l[r.value] == c && c !in l[r.value + 1..]
  {
    if l == [] then None
    else if l[|l| - 1] == c then Some(|l| - 1)
    else
      var init := l[..|l| - 1];
      var r := LastIn(init, c);
      assert l == init + [l[|l| - 1]];
      if r.None? then None
      else
        assert l[r.value + 1..] == init[r.value + 1..] + [l[|l| - 1]];
        r
  }

  /** The start the parse keeps: each 'S' met while reading overwrites
      the one before, so the last one in reading order. */
  function LastStart(rows: seq<string>): (r: Option<Pos>)
    ensures r.None? <==> forall y | 0 <= y < |rows| :: 'S' !in rows[y]
    ensures r.Some? ==> 0 <= r.value.0 < |rows| && 0 <= r.value.1 < |rows[r.value.0]| && rows[r.value.0][r.value.1] == 'S'
    ensures r.Some? ==> 'S' !in rows[r.value.0][r.value.1 + 1..] && forall y | r.value.0 < y < |rows| :: 'S' !in rows[y]
  {
    if rows == [] then None
    else
      var x := LastIn(rows[|rows| - 1], 'S');
      if x.Some? then Some((|rows| - 1, x.value)) else LastStart(rows[..|rows| - 1])
  }

  /** `parse_input`: the non-empty lines as rows of equal length, and the
      start, which is a plot; an unknown character, rows of unequal
      length or a missing 'S' fail. */
  function ParseGarden(lines: seq<string>): (r: Option<Garden>)
    ensures r.Some? ==> Valid(r.value) && !r.value.rocks[r.value.start.0][r.value.start.1]
    ensures r.Some? <==> var rows := NonEmpty(lines);
      && (forall y, x | 0 <= y < |rows| && 0 <= x < |rows[y]| :: GardenChar(rows[y][x]))
      && (forall y | 0 <= y < |rows| :: |rows[y]| == |rows[0]|)
      && (exists y | 0 <= y < |rows| :: 'S' in rows[y])
  {
    var rows := NonEmpty(lines);
    var cells := ParseRows(rows);
    if cells.None? || !Rect(cells.value) then None
    else
      var s := LastStart(rows);
      if s.None? then None
      else
        assert rows[s.value.0] != [];
        Some(Garden(cells.value, s.value))
  }

  /** `clamp_pos`: the cell of the tile a position falls on. */
  function Clamp(rows: nat, cols: nat, p: Pos): (r: Pos)
    requires rows > 0 && cols > 0
    ensures InGrid(rows, cols, r)
  {
    (p.0 % rows, p.1 % cols)
  }

  /** The cell differs from the position by whole tiles, and a position
      on the first tile is its own cell. */
  lemma ClampCongruent(rows: nat, cols: nat, p: Pos)
    requires rows > 0 && cols > 0
    ensures var r := Clamp(rows, cols, p);
      p.0 - r.0 == rows * (p.0 / rows) && p.1 - r.1 == cols * (p.1 / cols)
    ensures InGrid(rows, cols, p) ==> Clamp(rows, cols, p) == p
  {
    if InGrid(rows, cols, p) {
      DivModUnique(p.0, rows, 0, p.0);
      DivModUnique(p.1, cols, 0, p.1);
    }
  }

  /** Moving a whole tile in any direction lands on the same cell. */
  lemma ClampTile(rows: nat, cols: nat, p: Pos, k: int, m: int)
    requires rows > 0 && cols > 0
    ensures Clamp(rows, cols, (p.0 + k * rows, p.1 + m * cols)) == Clamp(rows, cols, p)
  {
    ModShift(p.0, rows, k);
    ModShift(p.1, cols, m);
  }

  lemma ModShift(a: int, n: nat, k: int)
    requires n > 0
    ensures (a + k * n) % n == a % n
  {
    var q, r := a / n, a % n;
    assert a == q * n + r;
    assert a + k * n == (q + k) * n + r;
    DivModUnique(a + k * n, n, q + k, r);
  }

  lemma DivModUnique(a: int, n: nat, q: int, r: int)
    requires n > 0 && 0 <= r < n && a == q * n + r
    ensures a % n == r
  {
    var q', r' := a / n, a % n;
    assert a == q' * n + r';
    assert (q - q') * n == r' - r;
    if q > q' {
      MulAtLeast(q - q', n);
    } else if q < q' {
      MulAtLeast(q' - q, n);
    }
  }

  lemma MulAtLeast(k: int, n: nat)
    requires k >= 1
    ensures k * n >= n
  {
  }

  /** Whether a position, on any tile, is a rock. */
  predicate Rock(g: Garden, p: Pos)
    requires Valid(g)
  {
    var c := Clamp(|g.rocks|, |g.rocks[0]|, p);
    g.rocks[c.0][c.1]
  }

  function Abs(v: int): nat {
    if v < 0 then -v else v
  }

  /** The number of orthogonal steps between two positions. */
  function Manhattan(p: Pos, q: Pos): nat {
    Abs(p.0 - q.0) + Abs(p.1 - q.1)
  }

  function Toward(p: Pos, d: Dir): Pos {
    (p.0 + DRow(d), p.1 + DCol(d))
  }

  /** The four orthogonal neighbours, `DIRECTIONS_4` added to p. */
  function Around(p: Pos): (r: set<Pos>)
    ensures |r| <= 4
  {
    {Toward(p, E), Toward(p, S), Toward(p, W), Toward(p, N)}
  }

  lemma AroundDistance(p: Pos, q: Pos)
    ensures q in Around(p) <==> Manhattan(p, q) == 1
  {
    if Manhattan(p, q) == 1 {
      var d := if q.0 < p.0 then N else if q.0 > p.0 then S else if q.1 > p.1 then E else W;
      assert q == Toward(p, d);
    }
  }

  /** `neighbours`: the orthogonal neighbours that are not rocks. */
  function Neighbours(g: Garden, p: Pos): (r: set<Pos>)
    requires Valid(g)
    ensures |r| <= 4
  {
    var r := set q | q in Around(p) && !Rock(g, q);
    SubsetCard(r, Around(p));
    r
  }

  /** The neighbours are the open positions one step away. */
  lemma NeighboursMembers(g: Garden, p: Pos, q: Pos)
    requires Valid(g)
    ensures q in Neighbours(g, p) <==> Manhattan(p, q) == 1 && !Rock(g, q)
  {
    AroundDistance(p, q);
  }

  lemma SubsetCard<T>(a: set<T>, b: set<T>)
    requires a <= b
    ensures |a| <= |b|
  {
    assert b == a + (b - a);
  }

  /** One step: every reached plot moves to each of its neighbours. */
  function Step(g: Garden, nodes: set<Pos>): set<Pos>
    requires Valid(g)
  {
    set p, q | p in nodes && q in Neighbours(g, p) :: q
  }

  /** The plots reached after n steps from the start. */
  function Reach(g: Garden, n: nat): set<Pos>
    requires Valid(g)
  {
    if n == 0 then {g.start} else Step(g, Reach(g, n - 1))
  }

  /** `puzzle1`: the step loop, then the number of plots reached. */
  method Puzzle1(g: Garden, steps: nat) returns (count: nat)
    requires Valid(g)
    ensures count == |Reach(g, steps)|
  {
    var nodes := {g.start};
    for i := 0 to steps
      invariant nodes == Reach(g, i)
    {
      nodes := Step(g, nodes);
    }
    count := |nodes|;
  }

  /** A step reaches exactly the open plots next to a reached one. */
  lemma StepMembers(g: Garden, nodes: set<Pos>, q: Pos)
    requires Valid(g)
    ensures q in Step(g, nodes) <==> !Rock(g, q) && exists p | p in nodes :: Manhattan(p, q) == 1
  {
    if q in Step(g, nodes) {
      var p :| p in nodes && q in Neighbours(g, p);
      NeighboursMembers(g, p, q);
    }
    if !Rock(g, q) && exists p | p in nodes :: Manhattan(p, q) == 1 {
      var p :| p in nodes && Manhattan(p, q) == 1;
      NeighboursMembers(g, p, q);
    }
  }

  /** Every plot a step reaches is next to a plot reached before. */
  lemma StepFrom(g: Garden, nodes: set<Pos>, q: Pos) returns (p: Pos)
    requires Valid(g) && q in Step(g, nodes)
    ensures p in nodes && Manhattan(p, q) == 1
  {
    p :| p in nodes && q in Neighbours(g, p);
    NeighboursMembers(g, p, q);
  }

  /** More plots before a step give more after it. */
  lemma StepMonotone(g: Garden, a: set<Pos>, b: set<Pos>)
    requires Valid(g) && a <= b
    ensures Step(g, a) <= Step(g, b)
  {
  }

  /** After n steps every reached plot is at most n steps from the start,
      and an even number of steps from it exactly when n is even. */
  lemma {:induction false} ReachWithin(g: Garden, n: nat, q: Pos)
    requires Valid(g) && q in Reach(g, n)
    ensures Manhattan(g.start, q) <= n && Manhattan(g.start, q) % 2 == n % 2
  {
    if n > 0 {
      var p := StepFrom(g, Reach(g, n - 1), q);
      ReachWithin(g, n - 1, p);
      NeighbourDistance(g.start, p, q);
      ParityStep(Manhattan(g.start, p), Manhattan(g.start, q), n);
    }
  }

  lemma ParityStep(a: nat, b: nat, n: nat)
    requires n >= 1 && a <= n - 1 && a % 2 == (n - 1) % 2 && (b == a + 1 || b + 1 == a)
    ensures b <= n && b % 2 == n % 2
  {
  }

  /** A step changes the distance from any fixed position by exactly one. */
  lemma NeighbourDistance(s: Pos, p: Pos, q: Pos)
    requires Manhattan(p, q) == 1
    ensures Manhattan(s, q) == Manhattan(s, p) + 1 || Manhattan(s, q) + 1 == Manhattan(s, p)
  {
  }

  predicate NoRocks(g: Garden) {
    forall y, x | 0 <= y < |g.rocks| && 0 <= x < |g.rocks[y]| :: !g.rocks[y][x]
  }

  /** A garden without rocks: after n steps the reached plots are exactly
      those at most n steps away whose distance has the parity of n. */
  lemma OpenReach(g: Garden, n: nat, q: Pos)
    requires Valid(g) && NoRocks(g)
    ensures q in Reach(g, n) <==> Manhattan(g.start, q) <= n && Manhattan(g.start, q) % 2 == n % 2
  {
    if q in Reach(g, n) {
      ReachWithin(g, n, q);
    } else if Manhattan(g.start, q) <= n && Manhattan(g.start, q) % 2 == n % 2 {
      OpenReached(g, n, q);
    }
  }

  lemma {:induction false} OpenReached(g: Garden, n: nat, q: Pos)
    requires Valid(g) && NoRocks(g)
    requires Manhattan(g.start, q) <= n && Manhattan(g.start, q) % 2 == n % 2
    ensures q in Reach(g, n)
  {
    if n == 0 {
      assert q == g.start;
    } else {
      var p := Closer(g.start, q, n);
      OpenReached(g, n - 1, p);
      OpenNoRock(g, q);
      StepMembers(g, Reach(g, n - 1), q);
    }
  }

  /** A position next to q that is one step nearer the start, or next to
      the start when q is the start. */
  lemma Closer(s: Pos, q: Pos, n: nat) returns (p: Pos)
    requires n >= 1 && Manhattan(s, q) <= n && Manhattan(s, q) % 2 == n % 2
    ensures Manhattan(p, q) == 1 && Manhattan(s, p) <= n - 1 && Manhattan(s, p) % 2 == (n - 1) % 2
  {
    p := if q.0 < s.0 then (q.0 + 1, q.1)
         else if q.0 > s.0 then (q.0 - 1, q.1)
         else if q.1 < s.1 then (q.0, q.1 + 1)
         else if q.1 > s.1 then (q.0, q.1 - 1)
         else (q.0 + 1, q.1);
  }

  lemma OpenNoRock(g: Garden, q: Pos)
    requires Valid(g) && NoRocks(g)
    ensures !Rock(g, q)
  {
    var c := Clamp(|g.rocks|, |g.rocks[0]|, q);
    assert |g.rocks[c.0]| == |g.rocks[0]|;
  }

  /** `calc_diamond_area`. */
  function DiamondArea(n: nat): nat {
    if n == 0 then 0 else n * (2 * n - 2) + 1
  }

  /** The values of the source's own test cases. */
  lemma DiamondAreaValues()
    ensures DiamondArea(0) == 0 && DiamondArea(1) == 1 && DiamondArea(2) == 5
    ensures DiamondArea(3) == 13 && DiamondArea(4) == 25 && DiamondArea(5) == 41
  {
  }

  /** Each diamond is the one before with a ring of 4n more cells. */
  lemma DiamondGrowth(n: nat)
    requires n >= 1
    ensures DiamondArea(n + 1) == DiamondArea(n) + 4 * n
  {
    assert (n + 1) * (2 * n) == 2 * n * n + 2 * n;
    assert n * (2 * n - 2) == 2 * n * n - 2 * n;
  }

  /** The ring points in column x: r steps from c. */
  function RingColumn(c: Pos, r: nat, x: int): (s: set<Pos>)
    requires Abs(x - c.0) <= r
    ensures |s| == if Abs(x - c.0) == r then 1 else 2
    ensures forall p | p in s :: p.0 == x
  {
    var h := r - Abs(x - c.0);
    if h == 0 then {(x, c.1)} else {(x, c.1 - h), (x, c.1 + h)}
  }

  lemma RingColumnMembers(c: Pos, r: nat, x: int, p: Pos)
    requires Abs(x - c.0) <= r
    ensures p in RingColumn(c, r, x) <==> p.0 == x && Manhattan(c, p) == r
  {
  }

  /** The ring points in the first k columns from the left. */
  function RingCols(c: Pos, r: nat, k: nat): set<Pos>
    requires k <= 2 * r + 1
  {
    if k == 0 then {} else RingCols(c, r, k - 1) + RingColumn(c, r, c.0 - r + k - 1)
  }

  lemma {:induction false} RingColsMembers(c: Pos, r: nat, k: nat, p: Pos)
    requires k <= 2 * r + 1
    ensures p in RingCols(c, r, k) <==> c.0 - r <= p.0 < c.0 - r + k && Manhattan(c, p) == r
  {
    if k > 0 {
      var x := c.0 - r + k - 1;
      var before, col := p in RingCols(c, r, k - 1), p in RingColumn(c, r, x);
      assert p in RingCols(c, r, k) <==> before || col;
      RingColsMembers(c, r, k - 1, p);
      RingColumnMembers(c, r, x, p);
    }
  }

  /** The positions exactly r steps from c. */
  function Ring(c: Pos, r: nat): set<Pos> {
    RingCols(c, r, 2 * r + 1)
  }

  lemma RingMembers(c: Pos, r: nat, p: Pos)
    ensures p in Ring(c, r) <==> Manhattan(c, p) == r
  {
    RingColsMembers(c, r, 2 * r + 1, p);
  }

  /** The positions at most r steps from c. */
  function Ball(c: Pos, r: nat): set<Pos> {
    if r == 0 then {c} else Ball(c, r - 1) + Ring(c, r)
  }

  lemma {:induction false} BallMembers(c: Pos, r: nat, p: Pos)
    ensures p in Ball(c, r) <==> Manhattan(c, p) <= r
  {
    if r > 0 {
      BallMembers(c, r - 1, p);
      RingMembers(c, r, p);
    }
  }

  lemma {:induction false} RingColsCount(c: Pos, r: nat, k: nat)
    requires 1 <= r && k <= 2 * r + 1
    ensures |RingCols(c, r, k)| == if k == 0 then 0 else if k <= 2 * r then 2 * k - 1 else 4 * r
  {
    if k == 0 {
      assert RingCols(c, r, 0) == {};
    } else {
      RingColsCount(c, r, k - 1);
      var x := c.0 - r + k - 1;
      var before, col := RingCols(c, r, k - 1), RingColumn(c, r, x);
      forall p | p in col ensures p !in before {
        RingColsMembers(c, r, k - 1, p);
      }
      DisjointUnionSize(before, col);
      assert RingCols(c, r, k) == before + col;
      assert |col| == if k == 1 || k == 2 * r + 1 then 1 else 2;
    }
  }

  lemma DisjointUnionSize(a: set<Pos>, b: set<Pos>)
    requires a !! b
    ensures |a + b| == |a| + |b|
  {
    assert a * b == {};
  }

  /** A ring of radius r >= 1 has 4r positions. */
  lemma RingCount(c: Pos, r: nat)
    requires r >= 1
    ensures |Ring(c, r)| == 4 * r
  {
    RingColsCount(c, r, 2 * r + 1);
  }

  lemma BallRingDisjoint(c: Pos, r: nat)
    requires r >= 1
    ensures Ball(c, r - 1) !! Ring(c, r)
  {
    forall p | p in Ball(c, r - 1) ensures p !in Ring(c, r) {
      BallMembers(c, r - 1, p);
      RingMembers(c, r, p);
    }
  }

  /** `calc_diamond_area(n)` counts the positions at most n - 1 steps from
      a centre. */
  lemma {:induction false} BallCount(c: Pos, r: nat)
    ensures |Ball(c, r)| == DiamondArea(r + 1)
  {
    if r == 0 {
      assert Ball(c, 0) == {c};
    } else {
      BallCount(c, r - 1);
      RingCount(c, r);
      BallRingDisjoint(c, r);
      assert |Ball(c, r)| == |Ball(c, r - 1)| + |Ring(c, r)|;
      DiamondGrowth(r);
    }
  }

  /** After n steps at most `calc_diamond_area(n + 1)` plots are reached. */
  lemma ReachBound(g: Garden, n: nat)
    requires Valid(g)
    ensures |Reach(g, n)| <= DiamondArea(n + 1)
  {
    forall q | q in Reach(g, n) ensures q in Ball(g.start, n) {
      ReachWithin(g, n, q);
      BallMembers(g.start, n, q);
    }
    SubsetCard(Reach(g, n), Ball(g.start, n));
    BallCount(g.start, n);
  }
}
