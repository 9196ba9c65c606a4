/** Day 23, "A Long Walk": the longest hike across a map of paths ('.'),
    forest ('#') and one-way slopes ('^', '>', 'v', '<') from the gap in
    the top row to the gap in the bottom row.  Part 1 follows the slopes and
    never steps straight back; part 2 ignores the slopes, shrinks the
    corridors between junctions to weighted edges and searches the simple
    paths of that graph. */
module Day23 {
  import opened Wrappers
  import opened Grid
  import opened Seqs

  type Trails = seq<seq<char>>

  predicate IsSlope(c: char) {
    c == '^' || c == '>' || c == 'v' || c == '<'
  }

  /** The cells a hike may use: paths and slopes. */
  predicate Open(c: char) {
    c == '.' || IsSlope(c)
  }

  predicate OnMap(m: Trails, p: Pos) {
    Rect(m) && InGrid(|m|, Cols(m), p)
  }

  function Cell(m: Trails, p: Pos): char
    requires OnMap(m, p)
  {
    m[p.0][p.1]
  }

  /** The cell one step from p towards d. */
  function Toward(p: Pos, d: Dir): (q: Pos)
    ensures q != p
  {
    (p.0 + DRow(d), p.1 + DCol(d))
  }

  /** The direction a slope points in. */
  function Arrow(c: char): Dir
    requires IsSlope(c)
  {
    if c == '>' then E else if c == '^' then N else if c == '<' then W else S
  }

  /** The directions `neighbours` tries from a cell: the arrow of a slope,
      all four from a path, and none (the `unreachable!` panic) from any
      other cell. */
  function Dirs(c: char): (r: Option<seq<Dir>>)
    ensures r.Some? <==> Open(c)
  {
    if IsSlope(c) then Some([Arrow(c)])
    else if c == '.' then Some(Directions4)
    else None
  }

  /** The open cells one step from p in the directions ds, in their order. */
  function Steps(m: Trails, p: Pos, ds: seq<Dir>): (r: seq<Pos>)
    requires Rect(m)
    ensures |r| <= |ds|
  {
    if ds == [] then []
    else
      var init := Steps(m, p, ds[..|ds| - 1]);
      var q := Move(|m|, Cols(m), p, ds[|ds| - 1]);
      if q.Some? && Open(Cell(m, q.value)) then init + [q.value] else init
  }

  lemma {:induction false} StepsMembers(m: Trails, p: Pos, ds: seq<Dir>, q: Pos)
    requires Rect(m)
    ensures q in Steps(m, p, ds) <==> OnMap(m, q) && Open(Cell(m, q)) && exists d | d in ds :: q == Toward(p, d)
  {
    if ds != [] {
      var init := ds[..|ds| - 1];
      StepsMembers(m, p, init, q);
      assert ds == init + [ds[|ds| - 1]];
      if OnMap(m, q) && Open(Cell(m, q)) && q == Toward(p, ds[|ds| - 1]) {
        assert q in Steps(m, p, ds);
      }
    }
  }

  /** `neighbours`: the open cells reachable in the directions of the
      current cell; None where the code panics. */
  function Neighbours(m: Trails, p: Pos): (r: Option<seq<Pos>>)
    requires OnMap(m, p)
    ensures r.Some? <==> Open(Cell(m, p))
    ensures r.Some? ==> |r.value| <= 4
  {
    var ds := Dirs(Cell(m, p));
    if ds.None? then None else Some(Steps(m, p, ds.value))
  }

  /** `neighbours2`: the open cells among the four around p. */
  function Neighbours2(m: Trails, p: Pos): (r: seq<Pos>)
    requires Rect(m)
    ensures |r| <= 4
  {
    Steps(m, p, Directions4)
  }

  /** The cells `neighbours2` yields are exactly the open cells of the map
      next to p. */
  lemma Neighbours2Members(m: Trails, p: Pos, q: Pos)
    requires Rect(m)
    ensures q in Neighbours2(m, p) <==> OnMap(m, q) && Open(Cell(m, q)) && exists d :: q == Toward(p, d)
  {
    StepsMembers(m, p, Directions4, q);
    if exists d :: q == Toward(p, d) {
      var d :| q == Toward(p, d);
      assert d in Directions4;
    }
  }

  /** From a slope `neighbours` yields at most the one cell its arrow
      points at. */
  lemma NeighboursOnSlope(m: Trails, p: Pos)
    requires OnMap(m, p) && IsSlope(Cell(m, p))
    ensures |Neighbours(m, p).value| <= 1
    ensures forall q | q in Neighbours(m, p).value :: q == Toward(p, Arrow(Cell(m, p)))
  {
    var d := Arrow(Cell(m, p));
    assert Neighbours(m, p).value == Steps(m, p, [d]);
    forall q | q in Neighbours(m, p).value ensures q == Toward(p, d) {
      StepsMembers(m, p, [d], q);
    }
  }

  /** From a path cell the two neighbour functions agree. */
  lemma NeighboursOnPath(m: Trails, p: Pos)
    requires OnMap(m, p) && Cell(m, p) == '.'
    ensures Neighbours(m, p) == Some(Neighbours2(m, p))
  {
  }

  /** What `neighbours` yields, `neighbours2` yields too: it only drops the
      slope restriction. */
  lemma NeighboursWithin(m: Trails, p: Pos, q: Pos)
    requires OnMap(m, p) && Open(Cell(m, p)) && q in Neighbours(m, p).value
    ensures q in Neighbours2(m, p)
  {
    StepsMembers(m, p, Dirs(Cell(m, p)).value, q);
    Neighbours2Members(m, p, q);
  }

  /** The map with the cell at p replaced by c. */
  function Paint(m: Trails, p: Pos, c: char): (r: Trails)
    requires OnMap(m, p)
    ensures Rect(r) && |r| == |m| && Cols(r) == Cols(m)
  {
    m[p.0 := m[p.0][p.1 := c]]
  }

  lemma {:induction false} StepsIgnoreOwnCell(m: Trails, p: Pos, c: char, ds: seq<Dir>)
    requires OnMap(m, p)
    ensures Steps(Paint(m, p, c), p, ds) == Steps(m, p, ds)
  {
    if ds != [] {
      StepsIgnoreOwnCell(m, p, c, ds[..|ds| - 1]);
    }
  }

  /** `neighbours2` does not look at the cell it starts from, so a slope
      there makes no difference. */
  lemma Neighbours2IgnoresSlopes(m: Trails, p: Pos, c: char)
    requires OnMap(m, p)
    ensures Neighbours2(Paint(m, p, c), p) == Neighbours2(m, p)
  {
    StepsIgnoreOwnCell(m, p, c, Directions4);
  }

  /** The start, the gap in the top row. */
  const Start: Pos := (0, 1)

  /** The goal, the gap in the bottom row. */
  function Goal(m: Trails): Pos {
    (|m| - 1, Cols(m) - 2)
  }

  function Max(a: int, b: int): (r: int)
    ensures r >= a && r >= b && (r == a || r == b)
  {
    if a < b then b else a
  }

  /** The cell a walk visited before its k-th one; the first cell counts as
      its own predecessor, as the initial branch does. */
  function Prev(w: seq<Pos>, k: nat): Pos
    requires k < |w|
  {
    if k == 0 then w[0] else w[k - 1]
  }

  // ----- Part 1: the walk along the slopes

  /** Step i of the walk w: from a cell other than the goal to one of its
      `neighbours`, not back to the cell before. */
  predicate SlopeStep(m: Trails, w: seq<Pos>, i: nat)
    requires i + 1 < |w|
  {
    OnMap(m, w[i]) && w[i] != Goal(m) && Open(Cell(m, w[i]))
    && w[i + 1] in Neighbours(m, w[i]).value && w[i + 1] != Prev(w, i)
  }

  predicate SlopeWalk(m: Trails, w: seq<Pos>) {
    w != [] && w[0] == Start && forall i | 0 <= i < |w| - 1 :: SlopeStep(m, w, i)
  }

  predicate SlopeHike(m: Trails, w: seq<Pos>) {
    SlopeWalk(m, w) && w[|w| - 1] == Goal(m)
  }

  /** v is the longest hike's length, or 0 when there is none. */
  ghost predicate LongestHike(m: Trails, v: int) {
    (forall w | SlopeHike(m, w) :: |w| - 1 <= v)
    && (v == 0 || exists w :: SlopeHike(m, w) && |w| - 1 == v)
  }

  /** An entry of `puzzle1`'s work list. */
  datatype Branch = Branch(prev: Pos, next: Pos, cost: int)

  function BranchAt(w: seq<Pos>, k: nat): Branch
    requires k < |w|
  {
    Branch(Prev(w, k), w[k], k)
  }

  /** The branch stands for a walk that is still under way. */
  ghost predicate BranchSound(m: Trails, b: Branch) {
    OnMap(m, b.next) && (b.next == Start || Open(Cell(m, b.next)))
    && 0 <= b.cost && exists w :: SlopeWalk(m, w) && |w| == b.cost + 1 && BranchAt(w, b.cost) == b
  }

  /** Some prefix of w is waiting in the work list. */
  ghost predicate BranchPending(w: seq<Pos>, queue: seq<Branch>) {
    exists k | 0 <= k < |w| :: BranchAt(w, k) in queue
  }

  /** The branches pushed for the cells ps after b, skipping the cell b
      came from. */
  function Forward(b: Branch, ps: seq<Pos>): seq<Branch> {
    if ps == [] then []
    else
      var init := Forward(b, ps[..|ps| - 1]);
      var p := ps[|ps| - 1];
      if p != b.prev then init + [Branch(b.next, p, b.cost + 1)] else init
  }

  lemma {:induction false} ForwardMembers(b: Branch, ps: seq<Pos>, t: Branch)
    ensures t in Forward(b, ps) <==> t.prev == b.next && t.cost == b.cost + 1 && t.next in ps && t.next != b.prev
  {
    if ps != [] {
      ForwardMembers(b, ps[..|ps| - 1], t);
      assert ps == ps[..|ps| - 1] + [ps[|ps| - 1]];
    }
  }

  /** A walk extended by a step is still a walk. */
  lemma SlopeWalkSnoc(m: Trails, w: seq<Pos>, q: Pos)
    requires SlopeWalk(m, w)
    requires var k := |w| - 1; OnMap(m, w[k]) && w[k] != Goal(m) && Open(Cell(m, w[k]))
    requires q in Neighbours(m, w[|w| - 1]).value && q != Prev(w, |w| - 1)
    ensures SlopeWalk(m, w + [q])
  {
    var v := w + [q];
    forall i | 0 <= i < |v| - 1 ensures SlopeStep(m, v, i) {
      if i < |w| - 1 {
        assert SlopeStep(m, w, i);
        assert v[i] == w[i] && v[i + 1] == w[i + 1] && Prev(v, i) == Prev(w, i);
      }
    }
  }

  /** The cells `neighbours` yields lie on the map and are open. */
  lemma NeighboursOpen(m: Trails, p: Pos, q: Pos)
    requires OnMap(m, p) && Open(Cell(m, p)) && q in Neighbours(m, p).value
    ensures OnMap(m, q) && Open(Cell(m, q))
  {
    StepsMembers(m, p, Dirs(Cell(m, p)).value, q);
  }

  /** Every branch pushed after a sound one is sound. */
  lemma ForwardSound(m: Trails, b: Branch, ns: seq<Pos>)
    requires BranchSound(m, b) && b.next != Goal(m) && Neighbours(m, b.next) == Some(ns)
    ensures forall t | t in Forward(b, ns) :: BranchSound(m, t)
  {
    var w :| SlopeWalk(m, w) && |w| == b.cost + 1 && BranchAt(w, b.cost) == b;
    forall t | t in Forward(b, ns) ensures BranchSound(m, t) {
      ForwardOneSound(m, b, ns, w, t);
    }
  }

  /** A branch pushed after b extends b's walk w by one step. */
  lemma ForwardOneSound(m: Trails, b: Branch, ns: seq<Pos>, w: seq<Pos>, t: Branch)
    requires BranchSound(m, b) && b.next != Goal(m) && Neighbours(m, b.next) == Some(ns)
    requires SlopeWalk(m, w) && |w| == b.cost + 1 && BranchAt(w, b.cost) == b
    requires t in Forward(b, ns)
    ensures BranchSound(m, t)
  {
    ForwardMembers(b, ns, t);
    NeighboursOpen(m, b.next, t.next);
    SlopeWalkSnoc(m, w, t.next);
    var v := w + [t.next];
    assert BranchAt(v, t.cost) == t;
    assert SlopeWalk(m, v) && |v| == t.cost + 1;
  }

  /** Reaching the goal settles every walk whose prefix it was. */
  lemma PopGoal(m: Trails, queue: seq<Branch>, best: int)
    requires queue != [] && queue[0].next == Goal(m)
    requires forall w | SlopeHike(m, w) :: |w| - 1 <= best || BranchPending(w, queue)
    ensures forall w | SlopeHike(m, w) :: |w| - 1 <= Max(best, queue[0].cost) || BranchPending(w, queue[1..])
  {
    forall w | SlopeHike(m, w) && |w| - 1 > Max(best, queue[0].cost)
      ensures BranchPending(w, queue[1..])
    {
      var k :| 0 <= k < |w| && BranchAt(w, k) in queue;
      if k < |w| - 1 {
        assert SlopeStep(m, w, k);
      }
      assert BranchAt(w, k) != queue[0];
      assert BranchAt(w, k) in queue[1..];
    }
  }

  /** Expanding a branch keeps every walk through it pending. */
  lemma PopExpand(m: Trails, queue: seq<Branch>, best: int, ns: seq<Pos>)
    requires queue != [] && queue[0].next != Goal(m)
    requires OnMap(m, queue[0].next) && Neighbours(m, queue[0].next) == Some(ns)
    requires forall w | SlopeHike(m, w) :: |w| - 1 <= best || BranchPending(w, queue)
    ensures forall w | SlopeHike(m, w) :: |w| - 1 <= best || BranchPending(w, queue[1..] + Forward(queue[0], ns))
  {
    var b := queue[0];
    var q' := queue[1..] + Forward(b, ns);
    forall w | SlopeHike(m, w) && |w| - 1 > best
      ensures BranchPending(w, q')
    {
      var k :| 0 <= k < |w| && BranchAt(w, k) in queue;
      if BranchAt(w, k) == b {
        assert k < |w| - 1;
        assert SlopeStep(m, w, k);
        ForwardMembers(b, ns, BranchAt(w, k + 1));
        assert BranchAt(w, k + 1) in q';
      } else {
        assert BranchAt(w, k) in q';
      }
    }
  }

  /** `puzzle1` with a step budget: the length of the longest hike. */
  method Puzzle1(m: Trails, fuel: nat) returns (r: Outcome)
    requires Rect(m)
    ensures (|m| == 0 || Cols(m) < 2) ==> r.Panic?
    ensures r.Panic? ==> |m| == 0 || Cols(m) < 2 || !Open(Cell(m, Start))
    ensures r.Done? ==> LongestHike(m, r.value)
  {
    if |m| == 0 || Cols(m) < 2 {
      return Panic;
    }
    var goal := Goal(m);
    var queue := [Branch(Start, Start, 0)];
    var best := 0;
    var budget := fuel;
    assert SlopeWalk(m, [Start]) && BranchAt([Start], 0) == queue[0];
    forall w | SlopeHike(m, w) ensures BranchPending(w, queue) {
      assert BranchAt(w, 0) == queue[0];
    }
    while queue != []
      invariant forall t | t in queue :: BranchSound(m, t)
      invariant best == 0 || exists w :: SlopeHike(m, w) && |w| - 1 == best
      invariant forall w | SlopeHike(m, w) :: |w| - 1 <= best || BranchPending(w, queue)
      decreases budget
    {
      if budget == 0 {
        return OutOfFuel;
      }
      budget := budget - 1;
      var b := queue[0];
      assert BranchSound(m, b);
      if b.next == goal {
        PopGoal(m, queue, best);
        if b.cost > best {
          var w :| SlopeWalk(m, w) && |w| == b.cost + 1 && BranchAt(w, b.cost) == b;
          assert SlopeHike(m, w);
        }
        best := Max(best, b.cost);
        queue := queue[1..];
        continue;
      }
      var ns := Neighbours(m, b.next);
      if ns.None? {
        return Panic;
      }
      PopExpand(m, queue, best, ns.value);
      ForwardSound(m, b, ns.value);
      queue := queue[1..] + Forward(b, ns.value);
    }
    return Done(best);
  }

  // ----- Part 2: corridors between junctions

  /** Step i of w: to one of the four open cells around, not back to the
      cell before. */
  predicate FlatStep(m: Trails, w: seq<Pos>, i: nat)
    requires i + 1 < |w|
  {
    OnMap(m, w[i]) && w[i + 1] in Neighbours2(m, w[i]) && w[i + 1] != Prev(w, i)
  }

  predicate FlatWalk(m: Trails, w: seq<Pos>) {
    w != [] && forall i | 0 <= i < |w| - 1 :: FlatStep(m, w, i)
  }

  /** A walk of exactly c steps leads from a to b. */
  ghost predicate Joins(m: Trails, a: Pos, b: Pos, c: int) {
    exists w :: FlatWalk(m, w) && |w| == c + 1 && w[0] == a && w[|w| - 1] == b
  }

  /** `DiGraphMap`: each node's outgoing edges, as (target, weight), in the
      order they were added. */
  type Graph = map<Pos, seq<(Pos, int)>>

  function Edges(g: Graph, a: Pos): seq<(Pos, int)> {
    if a in g then g[a] else []
  }

  predicate HasEdge(g: Graph, a: Pos, b: Pos, c: int) {
    (b, c) in Edges(g, a)
  }

  /** At most one edge from a node to another. */
  predicate UniqueTargets(g: Graph) {
    forall a, i, j | a in g && 0 <= i < j < |g[a]| :: g[a][i].0 != g[a][j].0
  }

  /** Every edge is a walk on the map of exactly its weight. */
  ghost predicate Corridors(m: Trails, g: Graph) {
    forall a, b, c | HasEdge(g, a, b, c) :: Joins(m, a, b, c)
  }

  /** The position of the edge to b among es. */
  function TargetIndex(es: seq<(Pos, int)>, b: Pos): (r: Option<nat>)
    ensures r.Some? ==> r.value < |es| && es[r.value].0 == b
    ensures r.None? ==> forall i | 0 <= i < |es| :: es[i].0 != b
  {
    if es == [] then None
    else if es[0].0 == b then Some(0)
    else
      var r := TargetIndex(es[1..], b);
      if r.None? then None else Some(r.value + 1)
  }

  /** `add_edge`: set the weight of the edge a to b, adding it (and b as a
      node) when missing; the flag says whether it already existed. */
  function AddEdge(g: Graph, a: Pos, b: Pos, c: int): (r: (Graph, bool))
    ensures HasEdge(r.0, a, b, c)
    ensures r.1 <==> exists i | 0 <= i < |Edges(g, a)| :: Edges(g, a)[i].0 == b
    ensures forall x, y, v | HasEdge(r.0, x, y, v) :: (x, y, v) == (a, b, c) || HasEdge(g, x, y, v)
    ensures UniqueTargets(g) ==> UniqueTargets(r.0)
  {
    var es := Edges(g, a);
    var i := TargetIndex(es, b);
    var es' := if i.Some? then es[i.value := (b, c)] else es + [(b, c)];
    var g' := g[a := es'];
    assert es'[if i.Some? then i.value else |es|] == (b, c);
    (if b in g' then g' else g'[b := []], i.Some?)
  }

  /** An entry of `simplify`'s work list. */
  datatype Corridor = Corridor(from: Pos, prev: Pos, next: Pos, cost: int)

  /** The corridor stands for a walk from its junction that is still under
      way. */
  ghost predicate CorridorSound(m: Trails, t: Corridor) {
    OnMap(m, t.next) && exists w :: FlatWalk(m, w) && |w| == t.cost + 1 && w[0] == t.from && BranchAt(w, t.cost) == Branch(t.prev, t.next, t.cost)
  }

  /** The cells of ps other than prev. */
  function Ahead(ps: seq<Pos>, prev: Pos): (r: seq<Pos>)
    ensures forall q :: q in r <==> q in ps && q != prev
  {
    if ps == [] then []
    else
      var rest := Ahead(ps[1..], prev);
      assert ps == [ps[0]] + ps[1..];
      if ps[0] != prev then [ps[0]] + rest else rest
  }

  function NewCorridor(at: Pos): Pos -> Corridor {
    p => Corridor(at, at, p, 1)
  }

  lemma CorridorExtend(m: Trails, t: Corridor, p: Pos)
    requires CorridorSound(m, t) && p in Neighbours2(m, t.next) && p != t.prev
    ensures CorridorSound(m, Corridor(t.from, t.next, p, t.cost + 1))
  {
    var w :| FlatWalk(m, w) && |w| == t.cost + 1 && w[0] == t.from && BranchAt(w, t.cost) == Branch(t.prev, t.next, t.cost);
    var v := w + [p];
    forall i | 0 <= i < |v| - 1 ensures FlatStep(m, v, i) {
      if i < |w| - 1 {
        assert FlatStep(m, w, i);
        assert v[i] == w[i] && v[i + 1] == w[i + 1] && Prev(v, i) == Prev(w, i);
      }
    }
    Neighbours2Members(m, t.next, p);
    assert BranchAt(v, t.cost + 1) == Branch(t.next, p, t.cost + 1);
  }

  lemma CorridorStart(m: Trails, at: Pos, p: Pos)
    requires OnMap(m, at) && p in Neighbours2(m, at)
    ensures CorridorSound(m, NewCorridor(at)(p))
  {
    Neighbours2Members(m, at, p);
    var w := [at, p];
    assert FlatStep(m, w, 0);
    assert BranchAt(w, 1) == Branch(at, p, 1);
  }

  lemma CorridorJoins(m: Trails, t: Corridor)
    requires CorridorSound(m, t)
    ensures Joins(m, t.from, t.next, t.cost)
  {
    var w :| FlatWalk(m, w) && |w| == t.cost + 1 && w[0] == t.from && BranchAt(w, t.cost) == Branch(t.prev, t.next, t.cost);
  }

  lemma AddCorridor(m: Trails, g: Graph, t: Corridor)
    requires Corridors(m, g) && CorridorSound(m, t)
    ensures Corridors(m, AddEdge(g, t.from, t.next, t.cost).0)
  {
    CorridorJoins(m, t);
  }

  /** `simplify` with a step budget: walk each corridor from a junction to
      the next junction, dead end or the goal and record it as an edge; the
      flag is false when the budget ran out. */
  method Simplify(m: Trails, fuel: nat) returns (g: Graph, done: bool)
    requires Rect(m) && |m| > 0 && Cols(m) >= 2
    ensures UniqueTargets(g) && Corridors(m, g)
  {
    var goal := Goal(m);
    var queue := [Corridor(Start, Start, Start, 0)];
    g := map[];
    var budget := fuel;
    assert BranchAt([Start], 0) == Branch(Start, Start, 0);
    while queue != []
      invariant UniqueTargets(g) && Corridors(m, g)
      invariant forall t | t in queue :: CorridorSound(m, t)
      decreases budget
    {
      if budget == 0 {
        return g, false;
      }
      budget := budget - 1;
      var t := queue[0];
      assert CorridorSound(m, t);
      queue := queue[1..];
      if t.next == goal {
        AddCorridor(m, g, t);
        g := AddEdge(g, t.from, t.next, t.cost).0;
        continue;
      }
      var posses := Ahead(Neighbours2(m, t.next), t.prev);
      if |posses| == 1 {
        assert posses[0] in posses;
        CorridorExtend(m, t, posses[0]);
        queue := queue + [Corridor(t.from, t.next, posses[0], t.cost + 1)];
      } else {
        AddCorridor(m, g, t);
        var added := AddEdge(g, t.from, t.next, t.cost);
        g := added.0;
        if added.1 {
          continue;
        }
        var pushed := Map(posses, NewCorridor(t.next));
        forall u | u in pushed ensures CorridorSound(m, u) {
          var i :| 0 <= i < |pushed| && pushed[i] == u;
          CorridorStart(m, t.next, posses[i]);
        }
        queue := queue + pushed;
      }
    }
    return g, true;
  }

  // ----- Part 2: the simple paths of the graph

  /** The weight of the first edge from a to b. */
  function EdgeCost(g: Graph, a: Pos, b: Pos): Option<int> {
    var i := TargetIndex(Edges(g, a), b);
    if i.None? then None else Some(Edges(g, a)[i.value].1)
  }

  lemma EdgeCostUnique(g: Graph, a: Pos, b: Pos, c: int)
    requires UniqueTargets(g) && HasEdge(g, a, b, c)
    ensures EdgeCost(g, a, b) == Some(c)
  {
    var es := Edges(g, a);
    var j :| 0 <= j < |es| && es[j] == (b, c);
    var i := TargetIndex(es, b).value;
  }

  lemma EdgeCostEdge(g: Graph, a: Pos, b: Pos)
    requires EdgeCost(g, a, b).Some?
    ensures HasEdge(g, a, b, EdgeCost(g, a, b).value)
  {
    var i := TargetIndex(Edges(g, a), b).value;
    assert Edges(g, a)[i] == (b, EdgeCost(g, a, b).value);
  }

  predicate Distinct(p: seq<Pos>) {
    forall i, j | 0 <= i < j < |p| :: p[i] != p[j]
  }

  /** Step i of the path p follows an edge out of a node other than the goal. */
  predicate GraphStep(g: Graph, goal: Pos, p: seq<Pos>, i: nat)
    requires i + 1 < |p|
  {
    p[i] != goal && EdgeCost(g, p[i], p[i + 1]).Some?
  }

  predicate SimplePath(g: Graph, goal: Pos, p: seq<Pos>) {
    p != [] && p[0] == Start && Distinct(p) && forall i | 0 <= i < |p| - 1 :: GraphStep(g, goal, p, i)
  }

  predicate SimpleHike(g: Graph, goal: Pos, p: seq<Pos>) {
    SimplePath(g, goal, p) && p[|p| - 1] == goal
  }

  /** The total weight of the edges along p. */
  function Cost(g: Graph, p: seq<Pos>): int {
    if |p| <= 1 then 0 else Cost(g, p[..|p| - 1]) + EdgeCost(g, p[|p| - 2], p[|p| - 1]).GetOr(0)
  }

  /** v is the weight of the heaviest simple path to the goal, or 0 when
      there is none. */
  ghost predicate LongestPath(g: Graph, goal: Pos, v: int) {
    (forall p | SimpleHike(g, goal, p) :: Cost(g, p) <= v)
    && (v == 0 || exists p :: SimpleHike(g, goal, p) && Cost(g, p) == v)
  }

  function Elems(p: seq<Pos>): set<Pos> {
    set x | x in p
  }

  /** An entry of `puzzle2`'s work list. */
  datatype Trail = Trail(node: Pos, cost: int, seen: set<Pos>)

  function TrailAt(g: Graph, p: seq<Pos>, k: nat): Trail
    requires k < |p|
  {
    Trail(p[k], Cost(g, p[..k + 1]), Elems(p[..k + 1]))
  }

  /** The trail stands for a simple path still under way. */
  ghost predicate TrailSound(g: Graph, goal: Pos, t: Trail) {
    exists p :: SimplePath(g, goal, p) && TrailAt(g, p, |p| - 1) == t
  }

  ghost predicate TrailPending(g: Graph, p: seq<Pos>, queue: seq<Trail>) {
    exists k | 0 <= k < |p| :: TrailAt(g, p, k) in queue
  }

  /** The trails pushed for the edges es out of t's node, skipping nodes
      already seen. */
  function Onward(t: Trail, es: seq<(Pos, int)>): seq<Trail> {
    if es == [] then []
    else
      var init := Onward(t, es[..|es| - 1]);
      var e := es[|es| - 1];
      if e.0 !in t.seen then init + [Trail(e.0, t.cost + e.1, t.seen + {e.0})] else init
  }

  lemma {:induction false} OnwardMembers(t: Trail, es: seq<(Pos, int)>, u: Trail)
    ensures u in Onward(t, es) <==> (u.node, u.cost - t.cost) in es && u.node !in t.seen && u.seen == t.seen + {u.node}
  {
    if es != [] {
      OnwardMembers(t, es[..|es| - 1], u);
      assert es == es[..|es| - 1] + [es[|es| - 1]];
    }
  }

  lemma PathSnoc(g: Graph, p: seq<Pos>, q: Pos)
    requires p != []
    ensures (p + [q])[..|p|] == p
    ensures Cost(g, p + [q]) == Cost(g, p) + EdgeCost(g, p[|p| - 1], q).GetOr(0)
    ensures Elems(p + [q]) == Elems(p) + {q}
  {
    assert (p + [q])[..|p|] == p;
  }

  /** A simple path extended along an edge to an unseen node is simple. */
  lemma SimplePathSnoc(g: Graph, goal: Pos, p: seq<Pos>, q: Pos)
    requires SimplePath(g, goal, p) && p[|p| - 1] != goal
    requires EdgeCost(g, p[|p| - 1], q).Some? && q !in Elems(p)
    ensures SimplePath(g, goal, p + [q])
  {
    var v := p + [q];
    forall i | 0 <= i < |v| - 1 ensures GraphStep(g, goal, v, i) {
      if i < |p| - 1 {
        assert GraphStep(g, goal, p, i);
      }
    }
    forall i, j | 0 <= i < j < |v| ensures v[i] != v[j] {
      if j == |p| {
        assert v[i] in Elems(p);
      }
    }
  }

  lemma TrailAtLast(g: Graph, p: seq<Pos>)
    requires p != []
    ensures TrailAt(g, p, |p| - 1) == Trail(p[|p| - 1], Cost(g, p), Elems(p))
  {
    assert p[..|p|] == p;
  }

  /** The trail at the end of a simple path extended along an edge. */
  lemma TrailSnoc(g: Graph, goal: Pos, p: seq<Pos>, q: Pos)
    requires SimplePath(g, goal, p) && p[|p| - 1] != goal
    requires EdgeCost(g, p[|p| - 1], q).Some? && q !in Elems(p)
    ensures SimplePath(g, goal, p + [q])
    ensures TrailAt(g, p + [q], |p|) == Trail(q, Cost(g, p) + EdgeCost(g, p[|p| - 1], q).value, Elems(p) + {q})
  {
    PathSnoc(g, p, q);
    SimplePathSnoc(g, goal, p, q);
    TrailAtLast(g, p + [q]);
  }

  /** What a pushed trail takes from its edge. */
  lemma OnwardEdge(g: Graph, t: Trail, u: Trail)
    requires UniqueTargets(g) && u in Onward(t, Edges(g, t.node))
    ensures EdgeCost(g, t.node, u.node) == Some(u.cost - t.cost)
    ensures u.node !in t.seen && u.seen == t.seen + {u.node}
  {
    OnwardMembers(t, Edges(g, t.node), u);
    EdgeCostUnique(g, t.node, u.node, u.cost - t.cost);
  }

  /** The trail one edge further along a simple path is sound. */
  lemma TrailExtend(g: Graph, goal: Pos, p: seq<Pos>, t: Trail, u: Trail)
    requires SimplePath(g, goal, p) && TrailAt(g, p, |p| - 1) == t && t.node != goal
    requires EdgeCost(g, t.node, u.node) == Some(u.cost - t.cost)
    requires u.node !in t.seen && u.seen == t.seen + {u.node}
    ensures TrailSound(g, goal, u)
  {
    TrailAtLast(g, p);
    TrailSnoc(g, goal, p, u.node);
    var v := p + [u.node];
    assert TrailAt(g, v, |v| - 1) == u;
  }

  /** A simple path never goes back to a node it has seen: every trail
      pushed after a sound one is sound. */
  lemma OnwardSound(g: Graph, goal: Pos, t: Trail)
    requires UniqueTargets(g) && TrailSound(g, goal, t) && t.node != goal
    ensures forall u | u in Onward(t, Edges(g, t.node)) :: TrailSound(g, goal, u)
  {
    var p :| SimplePath(g, goal, p) && TrailAt(g, p, |p| - 1) == t;
    forall u | u in Onward(t, Edges(g, t.node)) ensures TrailSound(g, goal, u) {
      OnwardEdge(g, t, u);
      TrailExtend(g, goal, p, t, u);
    }
  }

  lemma TrailGoal(g: Graph, goal: Pos, queue: seq<Trail>, best: int)
    requires queue != [] && queue[0].node == goal
    requires forall p | SimpleHike(g, goal, p) :: Cost(g, p) <= best || TrailPending(g, p, queue)
    ensures forall p | SimpleHike(g, goal, p) :: Cost(g, p) <= Max(best, queue[0].cost) || TrailPending(g, p, queue[1..])
  {
    forall p | SimpleHike(g, goal, p) && Cost(g, p) > Max(best, queue[0].cost)
      ensures TrailPending(g, p, queue[1..])
    {
      var k :| 0 <= k < |p| && TrailAt(g, p, k) in queue;
      if k < |p| - 1 {
        assert GraphStep(g, goal, p, k);
      }
      assert p[..|p|] == p;
      assert TrailAt(g, p, k) in queue[1..];
    }
  }

  /** The next trail along a simple path through t is among those pushed
      when t is expanded. */
  lemma TrailNext(g: Graph, goal: Pos, p: seq<Pos>, k: nat)
    requires SimplePath(g, goal, p) && k < |p| - 1
    ensures TrailAt(g, p, k + 1) in Onward(TrailAt(g, p, k), Edges(g, p[k]))
  {
    var t := TrailAt(g, p, k);
    assert GraphStep(g, goal, p, k);
    var q := p[k + 1];
    EdgeCostEdge(g, p[k], q);
    PathSnoc(g, p[..k + 1], q);
    assert p[..k + 1] + [q] == p[..k + 2];
    assert q !in Elems(p[..k + 1]);
    OnwardMembers(t, Edges(g, t.node), TrailAt(g, p, k + 1));
  }

  lemma TrailExpand(g: Graph, goal: Pos, queue: seq<Trail>, best: int)
    requires queue != [] && queue[0].node != goal
    requires forall p | SimpleHike(g, goal, p) :: Cost(g, p) <= best || TrailPending(g, p, queue)
    ensures forall p | SimpleHike(g, goal, p) :: Cost(g, p) <= best || TrailPending(g, p, queue[1..] + Onward(queue[0], Edges(g, queue[0].node)))
  {
    var t := queue[0];
    var q' := queue[1..] + Onward(t, Edges(g, t.node));
    forall p | SimpleHike(g, goal, p) && Cost(g, p) > best
      ensures TrailPending(g, p, q')
    {
      var k :| 0 <= k < |p| && TrailAt(g, p, k) in queue;
      if TrailAt(g, p, k) == t {
        assert p[|p| - 1] == goal;
        TrailNext(g, goal, p, k);
        assert TrailAt(g, p, k + 1) in q';
      } else {
        assert TrailAt(g, p, k) in q';
      }
    }
  }

  /** The search of `puzzle2` with a step budget: the heaviest simple path
      from the start to the goal. */
  method LongestSimplePath(g: Graph, goal: Pos, fuel: nat) returns (r: Outcome)
    requires UniqueTargets(g)
    ensures !r.Panic?
    ensures r.Done? ==> LongestPath(g, goal, r.value)
  {
    var queue := [Trail(Start, 0, {Start})];
    var best := 0;
    var budget := fuel;
    assert [Start][..1] == [Start];
    assert TrailAt(g, [Start], 0) == queue[0];
    forall p | SimpleHike(g, goal, p) ensures TrailPending(g, p, queue) {
      assert p[..1] == [Start];
      assert TrailAt(g, p, 0) == queue[0];
    }
    while queue != []
      invariant forall t | t in queue :: TrailSound(g, goal, t)
      invariant best == 0 || exists p :: SimpleHike(g, goal, p) && Cost(g, p) == best
      invariant forall p | SimpleHike(g, goal, p) :: Cost(g, p) <= best || TrailPending(g, p, queue)
      decreases budget
    {
      if budget == 0 {
        return OutOfFuel;
      }
      budget := budget - 1;
      var t := queue[0];
      assert TrailSound(g, goal, t);
      if t.node == goal {
        TrailGoal(g, goal, queue, best);
        if t.cost > best {
          var p :| SimplePath(g, goal, p) && TrailAt(g, p, |p| - 1) == t;
          assert p[..|p|] == p;
          assert SimpleHike(g, goal, p);
        }
        best := Max(best, t.cost);
        queue := queue[1..];
        continue;
      }
      TrailExpand(g, goal, queue, best);
      OnwardSound(g, goal, t);
      queue := queue[1..] + Onward(t, Edges(g, t.node));
    }
    return Done(best);
  }

  /** `puzzle2` with a step budget: the heaviest simple path, from start to
      goal, of the graph `simplify` built, every edge of which is a corridor
      of the map. */
  method Puzzle2(m: Trails, fuel: nat) returns (r: Outcome, ghost g: Graph)
    requires Rect(m)
    ensures (|m| == 0 || Cols(m) < 2) <==> r.Panic?
    ensures r.Done? ==> UniqueTargets(g) && Corridors(m, g) && LongestPath(g, Goal(m), r.value)
  {
    g := map[];
    if |m| == 0 || Cols(m) < 2 {
      return Panic, g;
    }
    var graph, done := Simplify(m, fuel);
    g := graph;
    if !done {
      return OutOfFuel, g;
    }
    r := LongestSimplePath(graph, Goal(m), fuel);
  }
}
