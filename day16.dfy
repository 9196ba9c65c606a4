/** Day 16, "The Floor Will Be Lava": a beam enters a grid of mirrors and
    splitters; every (cell, direction) it passes is traced once, and the
    answer is the number of cells the beam energizes. */
module Day16 {
  import opened Wrappers
  import opened Grid

  datatype Tile = Empty | Slash | Backslash | Versplit | Horsplit

  function ParseTile(c: char): (t: Option<Tile>)
    ensures t.Some? <==> c in ".\\/|-"
  {
    match c
    case '.' => Some(Empty)
    case '/' => Some(Slash)
    case '\\' => Some(Backslash)
    case '|' => Some(Versplit)
    case '-' => Some(Horsplit)
    case _ => None
  }

  /** '/' turns east-going beams north, north-going east, west-going south
      and south-going west. */
  function SlashTurn(d: Dir): Dir {
    match d
    case E => N
    case N => E
    case W => S
    case S => W
  }

  /** '\' turns east-going beams south, north-going west, west-going north
      and south-going east. */
  function BackslashTurn(d: Dir): Dir {
    match d
    case E => S
    case N => W
    case W => N
    case S => E
  }

  /** A mirror sends a reversed beam back along the way it came. */
  lemma MirrorsReversible(d: Dir)
    ensures SlashTurn(SlashTurn(d)) == d && BackslashTurn(BackslashTurn(d)) == d
    ensures SlashTurn(Opposite(SlashTurn(d))) == Opposite(d)
    ensures BackslashTurn(Opposite(BackslashTurn(d))) == Opposite(d)
  {
  }

  predicate Horizontal(d: Dir) {
    d == E || d == W
  }

  /** The directions a beam leaves a tile in: one for empty cells, mirrors
      and splitters met end-on, two for a splitter met flat-on, which also
      ends the beam. */
  function Bounce(t: Tile, d: Dir): (ds: seq<Dir>)
    ensures 1 <= |ds| <= 2
    ensures |ds| == 2 <==> (t == Versplit && Horizontal(d)) || (t == Horsplit && !Horizontal(d))
    ensures t == Empty ==> ds == [d]
  {
    match t
    case Empty => [d]
    case Slash => [SlashTurn(d)]
    case Backslash => [BackslashTurn(d)]
    case Versplit => if Horizontal(d) then [N, S] else [d]
    case Horsplit => if !Horizontal(d) then [E, W] else [d]
  }

  /** A beam state: the cell it is in and the direction it moves in. */
  type State = (Pos, Dir)

  predicate Valid(tiles: seq<seq<Tile>>, s: State) {
    Rect(tiles) && InGrid(|tiles|, Cols(tiles), s.0)
  }

  /** The states that follow a state: the beam leaves the cell in each
      direction Bounce gives, unless that takes it off the grid. */
  function Succ(tiles: seq<seq<Tile>>, s: State): (r: set<State>)
    requires Valid(tiles, s)
    ensures forall t | t in r :: Valid(tiles, t)
  {
    var ds := Bounce(tiles[s.0.0][s.0.1], s.1);
    set d | d in ds && Move(|tiles|, Cols(tiles), s.0, d).Some? :: (Move(|tiles|, Cols(tiles), s.0, d).value, d)
  }

  /** A set of states no beam leaves. */
  predicate Closed(tiles: seq<seq<Tile>>, c: set<State>) {
    forall s | s in c :: Valid(tiles, s) && Succ(tiles, s) <= c
  }

  /** The states a beam from `start` goes through: the least closed set
      containing it. */
  ghost predicate LeastFrom(tiles: seq<seq<Tile>>, c: set<State>, start: State) {
    start in c && Closed(tiles, c) &&
    forall d: set<State> | Closed(tiles, d) && start in d :: c <= d
  }

  /** The least closed set is unique. */
  lemma LeastUnique(tiles: seq<seq<Tile>>, c: set<State>, d: set<State>, start: State)
    requires LeastFrom(tiles, c, start) && LeastFrom(tiles, d, start)
    ensures c == d
  {
  }

  /** The cells a set of states passes through. */
  function Energized(c: set<State>): set<Pos> {
    set s | s in c :: s.0
  }

  /** A beam still to be traced: where it is (None once it has left the
      grid) and where it goes. */
  type Ray = (Option<Pos>, Dir)

  /** The states of the rays that are still on the grid. */
  function Pending(rays: seq<Ray>): set<State> {
    set i | 0 <= i < |rays| && rays[i].0.Some? :: (rays[i].0.value, rays[i].1)
  }

  function RayState(r: Ray): set<State> {
    if r.0.Some? then {(r.0.value, r.1)} else {}
  }

  lemma PendingSnoc(rays: seq<Ray>, r: Ray)
    ensures Pending(rays + [r]) == Pending(rays) + RayState(r)
  {
    var l := rays + [r];
    forall s | s in Pending(l) ensures s in Pending(rays) + RayState(r) {
      var i :| 0 <= i < |l| && l[i].0.Some? && s == (l[i].0.value, l[i].1);
      if i < |rays| {
        assert rays[i] == l[i];
      }
    }
    forall s | s in Pending(rays) ensures s in Pending(l) {
      var i :| 0 <= i < |rays| && rays[i].0.Some? && s == (rays[i].0.value, rays[i].1);
      assert l[i] == rays[i];
    }
    if r.0.Some? {
      assert l[|rays|] == r;
    }
  }

  function AllStates(rows: nat, cols: nat): set<State> {
    set y: int, x: int, d: Dir | 0 <= y < rows && 0 <= x < cols && d in Directions4 :: ((y, x), d)
  }

  /** Every successor of a traced state is traced or still pending. */
  predicate Complete(tiles: seq<seq<Tile>>, seen: set<State>, pending: set<State>)
    requires forall s | s in seen :: Valid(tiles, s)
  {
    forall s | s in seen :: forall t | t in Succ(tiles, s) :: t in seen || t in pending
  }

  /** Every traced or pending state lies in each closed set holding the start. */
  ghost predicate Within(tiles: seq<seq<Tile>>, start: State, seen: set<State>, pending: set<State>) {
    forall c: set<State> | Closed(tiles, c) && start in c :: seen <= c && pending <= c
  }

  /** What `shoot_ray` keeps between steps. */
  ghost predicate Tracing(tiles: seq<seq<Tile>>, start: State, seen: set<State>, pending: set<State>) {
    Rect(tiles) &&
    (forall s | s in seen :: Valid(tiles, s)) &&
    (forall s | s in pending :: Valid(tiles, s)) &&
    (start in seen || start in pending) &&
    Complete(tiles, seen, pending) &&
    Within(tiles, start, seen, pending)
  }

  lemma ValidInAll(tiles: seq<seq<Tile>>, s: State)
    requires Valid(tiles, s)
    ensures s in AllStates(|tiles|, Cols(tiles))
  {
    var y, x, d := s.0.0, s.0.1, s.1;
    assert d == Directions4[0] || d == Directions4[1] || d == Directions4[2] || d == Directions4[3];
    assert d in Directions4 && 0 <= y < |tiles| && 0 <= x < Cols(tiles);
    assert s == ((y, x), d);
  }

  /** The successors are the rays the tile sends on: one, or the two a
      splitter pushes. */
  lemma SuccRays(tiles: seq<seq<Tile>>, s: State)
    requires Valid(tiles, s)
    ensures var ds := Bounce(tiles[s.0.0][s.0.1], s.1);
      var rows, cols := |tiles|, Cols(tiles);
      Succ(tiles, s) == RayState((Move(rows, cols, s.0, ds[0]), ds[0])) +
        (if |ds| == 2 then RayState((Move(rows, cols, s.0, ds[1]), ds[1])) else {})
  {
    var ds := Bounce(tiles[s.0.0][s.0.1], s.1);
    var rows, cols := |tiles|, Cols(tiles);
    var rhs := RayState((Move(rows, cols, s.0, ds[0]), ds[0])) +
      (if |ds| == 2 then RayState((Move(rows, cols, s.0, ds[1]), ds[1])) else {});
    forall t | t in Succ(tiles, s) ensures t in rhs {
      var d :| d in ds && Move(rows, cols, s.0, d).Some? && t == (Move(rows, cols, s.0, d).value, d);
      assert d == ds[0] || (|ds| == 2 && d == ds[1]);
    }
    forall t | t in rhs ensures t in Succ(tiles, s) {
      if t in RayState((Move(rows, cols, s.0, ds[0]), ds[0])) {
        assert ds[0] in ds;
      } else {
        assert ds[1] in ds;
      }
    }
    assert Succ(tiles, s) == rhs;
  }

  /** Tracing a pending state replaces it by its successors. */
  lemma TraceStep(tiles: seq<seq<Tile>>, start: State, seen: set<State>, pending: set<State>, s: State)
    requires Tracing(tiles, start, seen, pending + {s})
    ensures Tracing(tiles, start, seen + {s}, pending + Succ(tiles, s))
  {
    var seen', pending' := seen + {s}, pending + Succ(tiles, s);
    forall c: set<State> | Closed(tiles, c) && start in c ensures seen' <= c && pending' <= c {
      assert s in c;
    }
    assert Complete(tiles, seen', pending');
  }

  /** A pending state already traced can be dropped. */
  lemma TraceSeen(tiles: seq<seq<Tile>>, start: State, seen: set<State>, pending: set<State>, s: State)
    requires Tracing(tiles, start, seen, pending + {s}) && s in seen
    ensures Tracing(tiles, start, seen, pending)
  {
    assert Complete(tiles, seen, pending);
  }

  /** The ray at p going d meets a traced state: it stops. */
  lemma TraceRaySeen(tiles: seq<seq<Tile>>, start: State, seen: set<State>, rays: seq<Ray>, p: Pos, d: Dir)
    requires Tracing(tiles, start, seen, Pending(rays) + RayState((Some(p), d))) && (p, d) in seen
    ensures Tracing(tiles, start, seen, Pending(rays) + RayState((None, d)))
  {
    assert Pending(rays) + RayState((Some(p), d)) == Pending(rays) + {(p, d)};
    TraceSeen(tiles, start, seen, Pending(rays), (p, d));
    assert Pending(rays) + RayState((None, d)) == Pending(rays);
  }

  /** The ray at p going d passes a tile that sends it on in one direction. */
  lemma TraceRayOn(tiles: seq<seq<Tile>>, start: State, seen: set<State>, rays: seq<Ray>, p: Pos, d: Dir)
    requires Tracing(tiles, start, seen, Pending(rays) + RayState((Some(p), d))) && (p, d) !in seen
    requires |Bounce(tiles[p.0][p.1], d)| == 1
    ensures var d' := Bounce(tiles[p.0][p.1], d)[0];
      Tracing(tiles, start, seen + {(p, d)}, Pending(rays) + RayState((Move(|tiles|, Cols(tiles), p, d'), d')))
  {
    assert Pending(rays) + RayState((Some(p), d)) == Pending(rays) + {(p, d)};
    TraceStep(tiles, start, seen, Pending(rays), (p, d));
    SuccRays(tiles, (p, d));
  }

  /** The ray at p going d meets a splitter flat-on: the two new rays are
      pushed and this one stops. */
  lemma TraceRaySplit(tiles: seq<seq<Tile>>, start: State, seen: set<State>, rays: seq<Ray>, p: Pos, d: Dir)
    requires Tracing(tiles, start, seen, Pending(rays) + RayState((Some(p), d))) && (p, d) !in seen
    requires |Bounce(tiles[p.0][p.1], d)| == 2
    ensures var ds := Bounce(tiles[p.0][p.1], d);
      var rows, cols := |tiles|, Cols(tiles);
      Tracing(tiles, start, seen + {(p, d)},
              Pending(rays + [(Move(rows, cols, p, ds[0]), ds[0])] + [(Move(rows, cols, p, ds[1]), ds[1])]) + RayState((None, d)))
  {
    var ds := Bounce(tiles[p.0][p.1], d);
    var rows, cols := |tiles|, Cols(tiles);
    var r0, r1 := (Move(rows, cols, p, ds[0]), ds[0]), (Move(rows, cols, p, ds[1]), ds[1]);
    assert Pending(rays) + RayState((Some(p), d)) == Pending(rays) + {(p, d)};
    TraceStep(tiles, start, seen, Pending(rays), (p, d));
    SuccRays(tiles, (p, d));
    PendingSnoc(rays, r0);
    PendingSnoc(rays + [r0], r1);
    assert Pending(rays + [r0] + [r1]) + RayState((None, d)) == Pending(rays) + Succ(tiles, (p, d));
  }

  /** Marking a new state shrinks the untraced part of the state space. */
  lemma MarkShrinks(tiles: seq<seq<Tile>>, seen: set<State>, p: Pos, d: Dir)
    requires Valid(tiles, (p, d)) && (p, d) !in seen
    ensures |AllStates(|tiles|, Cols(tiles)) - (seen + {(p, d)})| < |AllStates(|tiles|, Cols(tiles)) - seen|
  {
    var all := AllStates(|tiles|, Cols(tiles));
    ValidInAll(tiles, (p, d));
    var rest := all - (seen + {(p, d)});
    assert all - seen == rest + {(p, d)} && (p, d) !in rest;
  }

  /** One step of a ray: stop at a traced state; else mark it, and either
      push the two split rays and stop, or turn and move on. A stopped ray
      is left off the grid (None). */
  method StepRay(tiles: seq<seq<Tile>>, ghost start: State, pos0: Option<Pos>, d0: Dir,
                 seen0: set<State>, rays0: seq<Ray>)
    returns (seen: set<State>, rays: seq<Ray>, pos: Option<Pos>, d: Dir)
    requires pos0.Some? && Tracing(tiles, start, seen0, Pending(rays0) + RayState((pos0, d0)))
    ensures Tracing(tiles, start, seen, Pending(rays) + RayState((pos, d)))
    ensures |AllStates(|tiles|, Cols(tiles)) - seen| < |AllStates(|tiles|, Cols(tiles)) - seen0| ||
      (seen == seen0 && rays == rays0 && pos.None?)
    ensures seen0 <= seen
  {
    var rows, cols := |tiles|, Cols(tiles);
    var p := pos0.value;
    if (p, d0) in seen0 {
      TraceRaySeen(tiles, start, seen0, rays0, p, d0);
      return seen0, rays0, None, d0;
    }
    MarkShrinks(tiles, seen0, p, d0);
    seen := seen0 + {(p, d0)};
    var ds := Bounce(tiles[p.0][p.1], d0);
    if |ds| == 2 {
      TraceRaySplit(tiles, start, seen0, rays0, p, d0);
      rays := rays0 + [(Move(rows, cols, p, ds[0]), ds[0])] + [(Move(rows, cols, p, ds[1]), ds[1])];
      pos, d := None, d0;
    } else {
      TraceRayOn(tiles, start, seen0, rays0, p, d0);
      rays, d := rays0, ds[0];
      pos := Move(rows, cols, p, d);
    }
  }

  /** A ray that has stopped adds no pending state. */
  lemma TraceRayGone(tiles: seq<seq<Tile>>, start: State, seen: set<State>, rays: seq<Ray>, d: Dir)
    requires Tracing(tiles, start, seen, Pending(rays) + RayState((None, d)))
    ensures Tracing(tiles, start, seen, Pending(rays))
  {
    assert Pending(rays) + RayState((None, d)) == Pending(rays);
  }

  /** The inner loop of `shoot_ray`: follow one ray until it meets a
      traced state, leaves the grid or splits. */
  method FollowRay(tiles: seq<seq<Tile>>, ghost start: State, pos0: Option<Pos>, d0: Dir,
                   seen0: set<State>, rays0: seq<Ray>) returns (seen: set<State>, rays: seq<Ray>)
    requires Tracing(tiles, start, seen0, Pending(rays0) + RayState((pos0, d0)))
    ensures Tracing(tiles, start, seen, Pending(rays))
    ensures |AllStates(|tiles|, Cols(tiles)) - seen| < |AllStates(|tiles|, Cols(tiles)) - seen0| ||
      (seen == seen0 && rays == rays0)
  {
    ghost var all := AllStates(|tiles|, Cols(tiles));
    seen, rays := seen0, rays0;
    var pos, d := pos0, d0;
    while pos.Some?
      invariant Tracing(tiles, start, seen, Pending(rays) + RayState((pos, d)))
      invariant |all - seen| < |all - seen0| || (seen == seen0 && rays == rays0)
      decreases |all - seen|, pos.Some?
    {
      seen, rays, pos, d := StepRay(tiles, start, pos, d, seen, rays);
    }
    TraceRayGone(tiles, start, seen, rays, d);
  }

  lemma TraceStart(tiles: seq<seq<Tile>>, start: State)
    requires Valid(tiles, start)
    ensures Tracing(tiles, start, {}, Pending([(Some(start.0), start.1)]))
  {
    PendingSnoc([], (Some(start.0), start.1));
    assert [] + [(Some(start.0), start.1)] == [(Some(start.0), start.1)];
  }

  /** Taking the last ray off the stack keeps it as the ray being followed. */
  lemma TracePop(tiles: seq<seq<Tile>>, start: State, seen: set<State>, rays: seq<Ray>)
    requires rays != [] && Tracing(tiles, start, seen, Pending(rays))
    ensures Tracing(tiles, start, seen, Pending(rays[..|rays| - 1]) + RayState(rays[|rays| - 1]))
  {
    PendingSnoc(rays[..|rays| - 1], rays[|rays| - 1]);
    assert rays[..|rays| - 1] + [rays[|rays| - 1]] == rays;
  }

  /** With nothing pending, the traced states are closed and lie in every
      closed set holding the start: they are the least one. */
  lemma TraceDone(tiles: seq<seq<Tile>>, start: State, seen: set<State>)
    requires Tracing(tiles, start, seen, Pending([]))
    ensures LeastFrom(tiles, seen, start)
  {
    assert Pending([]) == {};
    assert Closed(tiles, seen);
  }

  /** `shoot_ray`: a stack of rays and the set `seent` of traced states;
      the traced states are exactly those a beam from the start reaches,
      and the answer is the number of their cells. */
  method ShootRay(tiles: seq<seq<Tile>>, start: Pos, dir: Dir) returns (energized: int, seen: set<State>)
    requires Rect(tiles) && InGrid(|tiles|, Cols(tiles), start)
    ensures LeastFrom(tiles, seen, (start, dir))
    ensures energized == |Energized(seen)|
  {
    ghost var all := AllStates(|tiles|, Cols(tiles));
    seen := {};
    var rays: seq<Ray> := [(Some(start), dir)];
    TraceStart(tiles, (start, dir));
    while rays != []
      invariant Tracing(tiles, (start, dir), seen, Pending(rays))
      decreases |all - seen|, |rays|
    {
      TracePop(tiles, (start, dir), seen, rays);
      var ray := rays[|rays| - 1];
      seen, rays := FollowRay(tiles, (start, dir), ray.0, ray.1, seen, rays[..|rays| - 1]);
    }
    TraceDone(tiles, (start, dir), seen);
    energized := |Energized(seen)|;
  }

  function RowCells(y: int, cols: nat): set<Pos> {
    set x: int | 0 <= x < cols :: (y, x)
  }

  /** The cells of a rows x cols grid, row by row. */
  function Cells(rows: nat, cols: nat): set<Pos> {
    if rows == 0 then {} else Cells(rows - 1, cols) + RowCells(rows - 1, cols)
  }

  lemma {:induction false} CellsIn(rows: nat, cols: nat, q: Pos)
    ensures q in Cells(rows, cols) <==> InGrid(rows, cols, q)
  {
    if rows > 0 {
      CellsIn(rows - 1, cols, q);
    }
  }

  lemma {:induction false} RowCellsCard(y: int, cols: nat)
    ensures |RowCells(y, cols)| == cols
  {
    if cols > 0 {
      RowCellsCard(y, cols - 1);
      assert RowCells(y, cols) == RowCells(y, cols - 1) + {(y, cols - 1)};
    } else {
      assert RowCells(y, cols) == {};
    }
  }

  lemma {:induction false} CellsCard(rows: nat, cols: nat)
    ensures |Cells(rows, cols)| == rows * cols
  {
    if rows > 0 {
      var r := rows - 1;
      CellsCard(r, cols);
      RowCellsCard(r, cols);
      var above, row := Cells(r, cols), RowCells(r, cols);
      forall q | q in row ensures q !in above {
        CellsIn(r, cols, q);
      }
      DisjointCard(above, row);
      MulSucc(r, cols);
    }
  }

  lemma DisjointCard(a: set<Pos>, b: set<Pos>)
    requires a !! b
    ensures |a + b| == |a| + |b|
  {
    assert a * b == {};
  }

  lemma MulSucc(r: nat, cols: nat)
    ensures r * cols + cols == (r + 1) * cols
  {
  }

  /** A beam from a cell of the grid energizes that cell and at most every
      cell of the grid. */
  lemma EnergizedBounds(tiles: seq<seq<Tile>>, c: set<State>, start: State)
    requires LeastFrom(tiles, c, start)
    ensures start.0 in Energized(c)
    ensures 1 <= |Energized(c)| <= |tiles| * Cols(tiles)
  {
    var rows, cols := |tiles|, Cols(tiles);
    var e := Energized(c);
    assert start.0 in e;
    assert e == (e - {start.0}) + {start.0};
    forall q | q in e ensures q in Cells(rows, cols) {
      var s :| s in c && s.0 == q;
      assert Valid(tiles, s);
      CellsIn(rows, cols, q);
    }
    CellsCard(rows, cols);
    assert Cells(rows, cols) == e + (Cells(rows, cols) - e);
  }

  /** `puzzle1`: the beam enters the top-left corner going east; an empty
      grid has no corner to enter. */
  method Puzzle1(tiles: seq<seq<Tile>>) returns (r: Option<int>)
    requires Rect(tiles)
    ensures r.None? <==> |tiles| == 0 || Cols(tiles) == 0
    ensures r.Some? ==> exists c :: LeastFrom(tiles, c, ((0, 0), E)) && r.value == |Energized(c)|
    ensures r.Some? ==> 1 <= r.value <= |tiles| * Cols(tiles)
  {
    if |tiles| == 0 || Cols(tiles) == 0 {
      return None;
    }
    var n, seen := ShootRay(tiles, (0, 0), E);
    EnergizedBounds(tiles, seen, ((0, 0), E));
    r := Some(n);
  }

  /** The beams of `puzzle2`: entering every cell of the left edge going
      east, of the right edge going west, of the top edge going south and
      of the bottom edge going north. */
  predicate EdgeStart(tiles: seq<seq<Tile>>, s: State) {
    var rows, cols := |tiles|, Cols(tiles);
    InGrid(rows, cols, s.0) &&
    ((s.1 == E && s.0.1 == 0) || (s.1 == W && s.0.1 == cols - 1) ||
     (s.1 == S && s.0.0 == 0) || (s.1 == N && s.0.0 == rows - 1))
  }

  /** The left and right edge beams of rows before y, and the top and
      bottom edge beams of columns before x. */
  predicate Shot(tiles: seq<seq<Tile>>, s: State, y: int, x: int) {
    EdgeStart(tiles, s) &&
    (((s.1 == E || s.1 == W) && s.0.0 < y) || ((s.1 == S || s.1 == N) && s.0.1 < x))
  }

  /** Every beam among the first shots energizes at most `max` cells. */
  ghost predicate Bounded(tiles: seq<seq<Tile>>, max: int, y: int, x: int) {
    forall s, c | Shot(tiles, s, y, x) && LeastFrom(tiles, c, s) :: |Energized(c)| <= max
  }

  /** The beams of `puzzle2` are the shots of every row and column. */
  lemma BoundedAll(tiles: seq<seq<Tile>>, max: int)
    requires Bounded(tiles, max, |tiles|, Cols(tiles))
    ensures forall s, c | EdgeStart(tiles, s) && LeastFrom(tiles, c, s) :: |Energized(c)| <= max
  {
    forall s, c | EdgeStart(tiles, s) && LeastFrom(tiles, c, s) ensures |Energized(c)| <= max {
      assert Shot(tiles, s, |tiles|, Cols(tiles));
    }
  }

  /** Shooting the two beams of row y extends the bound to that row. */
  lemma BoundedRow(tiles: seq<seq<Tile>>, max: int, y: int, cols: int, c: set<State>, c': set<State>)
    requires cols == Cols(tiles) && Bounded(tiles, max, y, 0)
    requires LeastFrom(tiles, c, ((y, 0), E)) && |Energized(c)| <= max
    requires LeastFrom(tiles, c', ((y, cols - 1), W)) && |Energized(c')| <= max
    ensures Bounded(tiles, max, y + 1, 0)
  {
    forall s, d | Shot(tiles, s, y + 1, 0) && LeastFrom(tiles, d, s) ensures |Energized(d)| <= max {
      if s == ((y, 0), E) {
        LeastUnique(tiles, c, d, s);
      } else if s == ((y, cols - 1), W) {
        LeastUnique(tiles, c', d, s);
      } else {
        assert Shot(tiles, s, y, 0);
      }
    }
  }

  /** Shooting the two beams of column x extends the bound to that column. */
  lemma BoundedColumn(tiles: seq<seq<Tile>>, max: int, x: int, rows: int, c: set<State>, c': set<State>)
    requires rows == |tiles| && Bounded(tiles, max, rows, x)
    requires LeastFrom(tiles, c, ((0, x), S)) && |Energized(c)| <= max
    requires LeastFrom(tiles, c', ((rows - 1, x), N)) && |Energized(c')| <= max
    ensures Bounded(tiles, max, rows, x + 1)
  {
    forall s, d | Shot(tiles, s, rows, x + 1) && LeastFrom(tiles, d, s) ensures |Energized(d)| <= max {
      if s == ((0, x), S) {
        LeastUnique(tiles, c, d, s);
      } else if s == ((rows - 1, x), N) {
        LeastUnique(tiles, c', d, s);
      } else {
        assert Shot(tiles, s, rows, x);
      }
    }
  }

  /** A larger bound is still a bound. */
  lemma BoundedMono(tiles: seq<seq<Tile>>, max: int, max': int, y: int, x: int)
    requires Bounded(tiles, max, y, x) && max <= max'
    ensures Bounded(tiles, max', y, x)
  {
  }

  /** `puzzle2`: the most cells any edge beam energizes. */
  method Puzzle2(tiles: seq<seq<Tile>>) returns (max: int)
    requires Rect(tiles) && (|tiles| > 0 ==> Cols(tiles) > 0)
    ensures forall s, c | EdgeStart(tiles, s) && LeastFrom(tiles, c, s) :: |Energized(c)| <= max
    ensures |tiles| == 0 ==> max == 0
    ensures |tiles| > 0 ==> exists s, c :: EdgeStart(tiles, s) && LeastFrom(tiles, c, s) && max == |Energized(c)|
  {
    var rows, cols := |tiles|, Cols(tiles);
    max := 0;
    ghost var ws: State, wc: set<State> := ((0, 0), E), {};
    var y := 0;
    while y < rows
      invariant 0 <= y <= rows
      invariant Bounded(tiles, max, y, 0)
      invariant y == 0 ==> max == 0
      invariant y > 0 ==> EdgeStart(tiles, ws) && LeastFrom(tiles, wc, ws) && max == |Energized(wc)|
    {
      ghost var max0 := max;
      var n, c := ShootRay(tiles, (y, 0), E);
      if n >= max {
        max, ws, wc := n, ((y, 0), E), c;
      }
      var m, c' := ShootRay(tiles, (y, cols - 1), W);
      if m > max {
        max, ws, wc := m, ((y, cols - 1), W), c';
      }
      BoundedMono(tiles, max0, max, y, 0);
      BoundedRow(tiles, max, y, cols, c, c');
      y := y + 1;
    }
    var x := 0;
    while x < cols
      invariant 0 <= x <= cols
      invariant Bounded(tiles, max, rows, x)
      invariant rows == 0 ==> max == 0
      invariant rows > 0 ==> EdgeStart(tiles, ws) && LeastFrom(tiles, wc, ws) && max == |Energized(wc)|
    {
      ghost var max0 := max;
      var n, c := ShootRay(tiles, (0, x), S);
      if n > max {
        max, ws, wc := n, ((0, x), S), c;
      }
      var m, c' := ShootRay(tiles, (rows - 1, x), N);
      if m > max {
        max, ws, wc := m, ((rows - 1, x), N), c';
      }
      BoundedMono(tiles, max0, max, rows, x);
      BoundedColumn(tiles, max, x, rows, c, c');
      x := x + 1;
    }
    BoundedAll(tiles, max);
  }
}
