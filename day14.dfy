/** Day 14, "Parabolic Reflector Dish": round rocks roll north until they
    meet a cube rock, the edge or another round rock; a spin cycle rolls
    north, west, south and east, and the load after a billion cycles is
    found through the cycle the platform falls into. */
module Day14 {
  import opened Wrappers
  import opened Seqs
  import opened Grid
  import opened Iteration

  /** 'O', '#' and '.'. */
  datatype Rock = Round | Cube | Empty

  function ParseRock(c: char): (r: Option<Rock>)
    ensures r.Some? <==> c in "O#."
    ensures r == Some(Round) <==> c == 'O'
    ensures r == Some(Cube) <==> c == '#'
  {
    match c
    case 'O' => Some(Round)
    case '#' => Some(Cube)
    case '.' => Some(Empty)
    case _ => None
  }

  /** One column after `roll` has seen its first |p| cells (index 0 is the
      north end), with the `free_row` it carries: a round rock moves up to
      the free row, a cube rock clears it, and an empty cell becomes it
      when there is none. */
  function Rolled(p: seq<Rock>): (r: (seq<Rock>, Option<nat>))
    ensures |r.0| == |p|
    ensures r.1.Some? ==> r.1.value < |p|
  {
    if p == [] then ([], None)
    else
      var prev := Rolled(p[..|p| - 1]);
      var t, free := prev.0, prev.1;
      match p[|p| - 1]
      case Cube => (t + [Cube], None)
      case Empty => (t + [Empty], if free.None? then Some(|p| - 1) else free)
      case Round =>
        if free.Some? then (t[free.value := Round] + [Empty], Some(free.value + 1))
        else (t + [Round], None)
  }

  /** A column rolled north. */
  function Tilt(p: seq<Rock>): (t: seq<Rock>)
    ensures |t| == |p|
  {
    Rolled(p).0
  }

  lemma RolledSnoc(p: seq<Rock>, c: Rock)
    ensures Rolled(p + [c]) == (
      var t, free := Rolled(p).0, Rolled(p).1;
      match c
      case Cube => (t + [Cube], None)
      case Empty => (t + [Empty], if free.None? then Some(|p|) else free)
      case Round =>
        if free.Some? then (t[free.value := Round] + [Empty], Some(free.value + 1))
        else (t + [Round], None))
  {
    assert (p + [c])[..|p|] == p;
  }

  /** No empty cell lies directly above a round rock. */
  predicate Settled(s: seq<Rock>) {
    forall i | 0 <= i < |s| - 1 :: !(s[i] == Empty && s[i + 1] == Round)
  }

  /** What the loop keeps: the rolled prefix is settled; the free row, when
      set, starts a run of empty cells to the end and sits just below a
      cell that is not empty; when unset, the last cell is not empty. */
  predicate FreeRowInvariant(t: seq<Rock>, free: Option<nat>) {
    Settled(t) &&
    (free.Some? ==> free.value < |t| && (forall i | free.value <= i < |t| :: t[i] == Empty) &&
                    (free.value == 0 || t[free.value - 1] != Empty)) &&
    (free.None? ==> |t| == 0 || t[|t| - 1] != Empty)
  }

  lemma {:induction false} RolledInvariant(p: seq<Rock>)
    ensures FreeRowInvariant(Rolled(p).0, Rolled(p).1)
    decreases |p|
  {
    if p != [] {
      var n := |p| - 1;
      var q := p[..n];
      RolledInvariant(q);
      RolledSnoc(q, p[n]);
      assert q + [p[n]] == p;
      var t, free := Rolled(q).0, Rolled(q).1;
      var t', free' := Rolled(p).0, Rolled(p).1;
      if p[n] == Round && free.Some? {
        var r := free.value;
        forall i | 0 <= i < |t'| - 1 ensures !(t'[i] == Empty && t'[i + 1] == Round) {
          if i + 1 < r {
            assert t'[i] == t[i] && t'[i + 1] == t[i + 1];
          } else if i + 1 == r {
            assert t'[i] == t[i];
          }
        }
      }
    }
  }

  /** After rolling no empty cell lies directly above a round rock. */
  lemma TiltSettled(p: seq<Rock>)
    ensures Settled(Tilt(p))
  {
    RolledInvariant(p);
  }

  /** Rolling keeps every cube rock where it is. */
  lemma {:induction false} TiltCubes(p: seq<Rock>)
    ensures forall i | 0 <= i < |p| :: Tilt(p)[i] == Cube <==> p[i] == Cube
    decreases |p|
  {
    if p != [] {
      var n := |p| - 1;
      var q := p[..n];
      TiltCubes(q);
      RolledSnoc(q, p[n]);
      assert q + [p[n]] == p;
      RolledInvariant(q);
      forall i | 0 <= i < |p| ensures Tilt(p)[i] == Cube <==> p[i] == Cube {
        if i < n {
          assert p[i] == q[i];
        }
      }
    }
  }

  lemma CountUpdate(s: seq<Rock>, i: nat, x: Rock)
    requires i < |s|
    ensures Count(s[i := x], Round) == Count(s, Round) - (if s[i] == Round then 1 else 0) + (if x == Round then 1 else 0)
  {
    assert s == s[..i] + [s[i]] + s[i + 1..];
    assert s[i := x] == s[..i] + [x] + s[i + 1..];
    CountAppend(s[..i] + [s[i]], s[i + 1..], Round);
    CountAppend(s[..i], [s[i]], Round);
    CountAppend(s[..i] + [x], s[i + 1..], Round);
    CountAppend(s[..i], [x], Round);
    assert Count([s[i]], Round) == Count([], Round) + (if s[i] == Round then 1 else 0);
    assert Count([x], Round) == Count([], Round) + (if x == Round then 1 else 0);
  }

  /** Rolling keeps the number of round rocks in the column. */
  lemma {:induction false} TiltCount(p: seq<Rock>)
    ensures Count(Tilt(p), Round) == Count(p, Round)
    decreases |p|
  {
    if p != [] {
      var n := |p| - 1;
      var q := p[..n];
      var c := p[n];
      TiltCount(q);
      RolledSnoc(q, c);
      assert q + [c] == p;
      RolledInvariant(q);
      var t, free := Rolled(q).0, Rolled(q).1;
      CountAppend(q, [c], Round);
      assert Count([c], Round) == Count([], Round) + (if c == Round then 1 else 0);
      if c == Round && free.Some? {
        CountUpdate(t, free.value, Round);
        CountAppend(t[free.value := Round], [Empty], Round);
        assert Count([Empty], Round) == Count([], Round) + 0;
      } else {
        CountAppend(t, [if c == Round then Round else c], Round);
      }
    }
  }

  /** A settled column is already rolled. */
  lemma {:induction false} SettledFixed(s: seq<Rock>)
    requires Settled(s)
    ensures Tilt(s) == s
    decreases |s|
  {
    if s != [] {
      var n := |s| - 1;
      var q := s[..n];
      assert Settled(q);
      SettledFixed(q);
      RolledSnoc(q, s[n]);
      assert q + [s[n]] == s;
      RolledInvariant(q);
    }
  }

  /** Rolling twice is rolling once. */
  lemma TiltIdempotent(p: seq<Rock>)
    ensures Tilt(Tilt(p)) == Tilt(p)
  {
    TiltSettled(p);
    SettledFixed(Tilt(p));
  }

  /** Column x of a matrix, read from the north. */
  function Column(g: seq<seq<Rock>>, x: nat): (c: seq<Rock>)
    requires forall y | 0 <= y < |g| :: x < |g[y]|
    ensures |c| == |g| && forall y | 0 <= y < |g| :: c[y] == g[y][x]
  {
    seq(|g|, y requires 0 <= y < |g| => g[y][x])
  }

  /** Every column rolled north. */
  function TiltNorth(g: seq<seq<Rock>>): (t: seq<seq<Rock>>)
    requires Rect(g)
    ensures |t| == |g| && Rect(t) && Cols(t) == Cols(g)
    ensures forall y | 0 <= y < |t| :: |t[y]| == Cols(g)
  {
    seq(|g|, y requires 0 <= y < |g| =>
      seq(Cols(g), x requires 0 <= x < Cols(g) => Tilt(Column(g, x))[y]))
  }

  /** The columns of the tilted matrix are the tilted columns, so each keeps
      its cube rocks and its number of round rocks, and is settled. */
  lemma TiltNorthColumns(g: seq<seq<Rock>>, x: nat)
    requires Rect(g) && x < Cols(g)
    ensures Column(TiltNorth(g), x) == Tilt(Column(g, x))
    ensures Count(Column(TiltNorth(g), x), Round) == Count(Column(g, x), Round)
    ensures Settled(Column(TiltNorth(g), x))
    ensures forall y | 0 <= y < |g| :: TiltNorth(g)[y][x] == Cube <==> g[y][x] == Cube
  {
    var c := Column(g, x);
    assert Column(TiltNorth(g), x) == Tilt(c);
    TiltCount(c);
    TiltSettled(c);
    TiltCubes(c);
  }

  /** Rolling the whole platform north twice is rolling it once. */
  lemma TiltNorthIdempotent(g: seq<seq<Rock>>)
    requires Rect(g)
    ensures TiltNorth(TiltNorth(g)) == TiltNorth(g)
  {
    var t := TiltNorth(g);
    forall y | 0 <= y < |g| ensures TiltNorth(t)[y] == t[y] {
      forall x | 0 <= x < Cols(g) ensures TiltNorth(t)[y][x] == t[y][x] {
        assert Column(t, x) == Tilt(Column(g, x));
        TiltIdempotent(Column(g, x));
      }
    }
  }

  /** The cells of a matrix, row by row. */
  function Cells(m: array2<Rock>): (g: seq<seq<Rock>>)
    reads m
    ensures |g| == m.Length0 && Rect(g) && (m.Length0 > 0 ==> Cols(g) == m.Length1)
    ensures forall y | 0 <= y < |g| :: |g[y]| == m.Length1
    ensures forall y, x | 0 <= y < m.Length0 && 0 <= x < m.Length1 :: g[y][x] == m[y, x]
  {
    seq(m.Length0, y requires 0 <= y < m.Length0 reads m =>
      seq(m.Length1, x requires 0 <= x < m.Length1 reads m => m[y, x]))
  }

  /** The inner loop of `roll`: one column, with the `free_row` cursor. */
  method RollColumn(m: array2<Rock>, x: nat)
    requires x < m.Length1
    modifies m
    ensures forall y, j | 0 <= y < m.Length0 && 0 <= j < m.Length1 ::
      m[y, j] == if j == x then Tilt(Column(old(Cells(m)), x))[y] else old(m[y, j])
  {
    ghost var g := Cells(m);
    ghost var orig := Column(g, x);
    ghost var t: seq<Rock> := [];
    var free: Option<nat> := None;
    var y := 0;
    while y < m.Length0
      invariant 0 <= y <= m.Length0
      invariant (t, free) == Rolled(orig[..y])
      invariant forall i | 0 <= i < y :: m[i, x] == t[i]
      invariant forall i | y <= i < m.Length0 :: m[i, x] == orig[i]
      invariant forall i, j | 0 <= i < m.Length0 && 0 <= j < m.Length1 && j != x :: m[i, j] == g[i][j]
    {
      free, t := RollCell(m, x, y, free, t, orig);
      y := y + 1;
    }
    assert orig[..y] == orig;
  }

  /** One cell of the inner loop of `roll`: a round rock moves up to the
      free row, a cube rock clears it, an empty cell may start it. */
  method RollCell(m: array2<Rock>, x: nat, y: nat, free0: Option<nat>, ghost t0: seq<Rock>, ghost orig: seq<Rock>)
    returns (free: Option<nat>, ghost t: seq<Rock>)
    requires x < m.Length1 && y < m.Length0 && y < |orig| && m[y, x] == orig[y]
    requires (t0, free0) == Rolled(orig[..y])
    requires forall i | 0 <= i < y :: m[i, x] == t0[i]
    modifies m
    ensures (t, free) == Rolled(orig[..y + 1])
    ensures forall i | 0 <= i <= y :: m[i, x] == t[i]
    ensures forall i, j | 0 <= i < m.Length0 && 0 <= j < m.Length1 && (j != x || i > y) :: m[i, j] == old(m[i, j])
  {
    RolledSnoc(orig[..y], orig[y]);
    assert orig[..y + 1] == orig[..y] + [orig[y]];
    free, t := free0, t0;
    match m[y, x] {
      case Round =>
        if free.Some? {
          var r := free.value;
          m[y, x] := Empty;
          m[r, x] := Round;
          free := Some(r + 1);
          t := t[r := Round] + [Empty];
        } else {
          t := t + [Round];
        }
      case Cube =>
        free := None;
        t := t + [Cube];
      case Empty =>
        if free.None? {
          free := Some(y);
        }
        t := t + [Empty];
    }
  }

  /** `roll`: every column rolled north in place. */
  method Roll(m: array2<Rock>)
    modifies m
    ensures Cells(m) == TiltNorth(old(Cells(m)))
  {
    ghost var g := Cells(m);
    for x := 0 to m.Length1
      invariant forall y, j | 0 <= y < m.Length0 && 0 <= j < m.Length1 ::
        m[y, j] == if j < x then Tilt(Column(g, j))[y] else g[y][j]
    {
      assert Column(Cells(m), x) == Column(g, x);
      RollColumn(m, x);
    }
    forall y | 0 <= y < m.Length0 ensures Cells(m)[y] == TiltNorth(g)[y] {
      assert forall x | 0 <= x < m.Length1 :: Cells(m)[y][x] == TiltNorth(g)[y][x];
    }
  }

  /** A platform: a non-empty rectangular matrix. */
  predicate Platform(g: seq<seq<Rock>>) {
    Rect(g) && |g| > 0 && Cols(g) > 0
  }

  /** Same dimensions and cube rocks in the same cells. */
  predicate SameCubes(g: seq<seq<Rock>>, h: seq<seq<Rock>>)
    requires Rect(g) && Rect(h)
  {
    |g| == |h| && Cols(g) == Cols(h) &&
    forall y, x | 0 <= y < |g| && 0 <= x < Cols(g) :: g[y][x] == Cube <==> h[y][x] == Cube
  }

  /** `rotate_cw(1)` of the matrix library, into a new matrix. */
  method Rotate(m: array2<Rock>) returns (r: array2<Rock>)
    requires m.Length0 > 0
    ensures fresh(r) && r.Length0 == m.Length1 && r.Length1 == m.Length0
    ensures Cells(r) == RotateCW(Cells(m))
  {
    r := new Rock[m.Length1, m.Length0]((i: int, j: int) reads m
      requires 0 <= i < m.Length1 && 0 <= j < m.Length0 => m[m.Length0 - 1 - j, i]);
    assert forall i | 0 <= i < r.Length0 :: Cells(r)[i] == RotateCW(Cells(m))[i];
  }

  /** One spin cycle: roll north, then west, south and east, each by rolling
      north after a clockwise quarter turn; four turns restore the
      orientation. */
  function CycleF(g: seq<seq<Rock>>): (r: seq<seq<Rock>>)
    requires Platform(g)
    ensures Platform(r) && |r| == |g| && Cols(r) == Cols(g)
  {
    var a := RotateCW(TiltNorth(g));
    var b := RotateCW(TiltNorth(a));
    var c := RotateCW(TiltNorth(b));
    RotateCW(TiltNorth(c))
  }

  lemma TiltNorthCubes(g: seq<seq<Rock>>)
    requires Rect(g)
    ensures SameCubes(g, TiltNorth(g))
  {
    forall y, x | 0 <= y < |g| && 0 <= x < Cols(g)
      ensures TiltNorth(g)[y][x] == Cube <==> g[y][x] == Cube
    {
      TiltNorthColumns(g, x);
    }
  }

  lemma RotateCubes(g: seq<seq<Rock>>, h: seq<seq<Rock>>)
    requires Rect(g) && Rect(h) && SameCubes(g, h)
    ensures SameCubes(RotateCW(g), RotateCW(h))
  {
  }

  lemma SameCubesTrans(f: seq<seq<Rock>>, g: seq<seq<Rock>>, h: seq<seq<Rock>>)
    requires Rect(f) && Rect(g) && Rect(h) && SameCubes(f, g) && SameCubes(g, h)
    ensures SameCubes(f, h)
  {
  }

  /** A half turn: each cell moves to the opposite corner. */
  lemma RotateTwice(g: seq<seq<Rock>>)
    requires Platform(g)
    ensures |RotateCW(RotateCW(g))| == |g| && Cols(RotateCW(RotateCW(g))) == Cols(g)
    ensures forall y, x | 0 <= y < |g| && 0 <= x < Cols(g) ::
      RotateCW(RotateCW(g))[y][x] == g[|g| - 1 - y][Cols(g) - 1 - x]
  {
  }

  /** Four quarter turns are the identity. */
  lemma RotateFour(g: seq<seq<Rock>>)
    requires Platform(g)
    ensures RotateCW(RotateCW(RotateCW(RotateCW(g)))) == g
  {
    var h := RotateCW(RotateCW(g));
    RotateTwice(g);
    RotateTwice(h);
    var k := RotateCW(RotateCW(h));
    forall y | 0 <= y < |g| ensures k[y] == g[y] {
      assert forall x | 0 <= x < Cols(g) :: k[y][x] == g[y][x];
    }
  }

  /** A spin cycle moves no cube rock. */
  lemma CycleCubes(g: seq<seq<Rock>>)
    requires Platform(g)
    ensures SameCubes(g, CycleF(g))
  {
    var r0 := RotateCW(g);
    var r1 := RotateCW(r0);
    var r2 := RotateCW(r1);
    var a := RotateCW(TiltNorth(g));
    var b := RotateCW(TiltNorth(a));
    var c := RotateCW(TiltNorth(b));
    TiltNorthCubes(g);
    RotateCubes(g, TiltNorth(g));
    TiltNorthCubes(a);
    SameCubesTrans(r0, a, TiltNorth(a));
    RotateCubes(r0, TiltNorth(a));
    TiltNorthCubes(b);
    SameCubesTrans(r1, b, TiltNorth(b));
    RotateCubes(r1, TiltNorth(b));
    TiltNorthCubes(c);
    SameCubesTrans(r2, c, TiltNorth(c));
    RotateCubes(r2, TiltNorth(c));
    RotateFour(g);
  }

  /** `cycle`: roll and turn four times; the turned matrix is a new one. */
  method Cycle(m: array2<Rock>) returns (r: array2<Rock>)
    requires m.Length0 > 0 && m.Length1 > 0
    modifies m
    ensures fresh(r) && r.Length0 == m.Length0 && r.Length1 == m.Length1
    ensures Cells(r) == CycleF(old(Cells(m)))
  {
    Roll(m);
    var a := Rotate(m);
    Roll(a);
    var b := Rotate(a);
    Roll(b);
    var c := Rotate(b);
    Roll(c);
    r := Rotate(c);
  }

  /** One spin cycle as a total step: a platform is spun, anything else
      is left alone. */
  function Spin(g: seq<seq<Rock>>): seq<seq<Rock>> {
    if Platform(g) then CycleF(g) else g
  }

  /** The platform after n spin cycles. */
  function CycleN(g: seq<seq<Rock>>, n: nat): seq<seq<Rock>> {
    Iterate(Spin, g, n)
  }

  lemma {:induction false} CycleNShape(g: seq<seq<Rock>>, n: nat)
    requires Platform(g)
    ensures Platform(CycleN(g, n)) && |CycleN(g, n)| == |g| && Cols(CycleN(g, n)) == Cols(g)
    decreases n
  {
    if n > 0 {
      CycleNShape(g, n - 1);
    }
  }

  /** `find_loop`: spin until a platform repeats, remembering the cycle
      number at which each was first seen. The code loops until it finds a
      repeat; the model gives up after `fuel` cycles. */
  method FindLoop(m: array2<Rock>, fuel: nat) returns (res: Option<(nat, nat)>, cur: array2<Rock>)
    requires m.Length0 > 0 && m.Length1 > 0
    modifies m
    ensures (cur == m || fresh(cur)) && cur.Length0 == m.Length0 && cur.Length1 == m.Length1
    ensures res.Some? ==> 1 <= res.value.0 < res.value.1
    ensures res.Some? ==> CycleN(old(Cells(m)), res.value.0) == CycleN(old(Cells(m)), res.value.1)
    ensures res.Some? ==> Cells(cur) == CycleN(old(Cells(m)), res.value.1)
    ensures res.Some? ==> forall i, j | 1 <= i < j < res.value.1 ::
      CycleN(old(Cells(m)), i) != CycleN(old(Cells(m)), j)
    ensures res.None? ==> forall i, j | 1 <= i < j <= fuel ::
      CycleN(old(Cells(m)), i) != CycleN(old(Cells(m)), j)
  {
    ghost var g := Cells(m);
    var seen: map<seq<seq<Rock>>, nat> := map[];
    ghost var hist: seq<seq<seq<Rock>>> := [];
    cur := m;
    var num := 1;
    while num <= fuel
      invariant 1 <= num <= fuel + 1 && |hist| == num - 1
      invariant cur == m || fresh(cur)
      invariant cur.Length0 == m.Length0 && cur.Length1 == m.Length1
      invariant Cells(cur) == CycleN(g, num - 1)
      invariant Seen(g, hist, seen, num)
      decreases fuel + 1 - num
    {
      var key;
      cur, key := Advance(cur, g, num - 1);
      if key in seen {
        SeenHit(g, hist, seen, num, key);
        return Some((seen[key], num)), cur;
      }
      SeenAdd(g, hist, seen, num, key);
      seen := seen[key := num];
      hist := hist + [key];
      num := num + 1;
    }
    DistinctStates(g, hist, seen);
    res := None;
  }

  /** One more spin cycle from the state after n cycles; `key` is the new
      state, as `find_loop` stores it. */
  method Advance(cur: array2<Rock>, ghost g: seq<seq<Rock>>, ghost n: nat) returns (next: array2<Rock>, key: seq<seq<Rock>>)
    requires cur.Length0 > 0 && cur.Length1 > 0 && Cells(cur) == CycleN(g, n)
    modifies cur
    ensures fresh(next) && next.Length0 == cur.Length0 && next.Length1 == cur.Length1
    ensures key == Cells(next) && key == CycleN(g, n + 1)
  {
    CycleNSucc(g, n, Cells(cur));
    next := Cycle(cur);
    key := Cells(next);
  }

  /** What `find_loop` knows after num - 1 cycles: `hist` lists the states
      after cycles 1, 2, ..., and `seen` maps each to its cycle number. */
  ghost predicate Seen(g: seq<seq<Rock>>, hist: seq<seq<seq<Rock>>>, seen: map<seq<seq<Rock>>, nat>, num: nat) {
    |hist| == num - 1 &&
    (forall j | 0 <= j < |hist| :: hist[j] == CycleN(g, j + 1)) &&
    (forall k | k in seen :: 1 <= seen[k] < num && hist[seen[k] - 1] == k) &&
    (forall j | 0 <= j < |hist| :: hist[j] in seen && seen[hist[j]] == j + 1)
  }

  /** Recording a new state keeps the record. */
  lemma SeenAdd(g: seq<seq<Rock>>, hist: seq<seq<seq<Rock>>>, seen: map<seq<seq<Rock>>, nat>, num: nat, key: seq<seq<Rock>>)
    requires num >= 1 && Seen(g, hist, seen, num) && key == CycleN(g, num) && key !in seen
    ensures Seen(g, hist + [key], seen[key := num], num + 1)
  {
  }

  /** A state seen before closes the loop, and no earlier pair repeats. */
  lemma SeenHit(g: seq<seq<Rock>>, hist: seq<seq<seq<Rock>>>, seen: map<seq<seq<Rock>>, nat>, num: nat, key: seq<seq<Rock>>)
    requires num >= 1 && Seen(g, hist, seen, num) && key == CycleN(g, num) && key in seen
    ensures 1 <= seen[key] < num && CycleN(g, seen[key]) == CycleN(g, num)
    ensures forall i, j | 1 <= i < j < num :: CycleN(g, i) != CycleN(g, j)
  {
    DistinctStates(g, hist, seen);
  }

  /** The state after one more cycle. */
  lemma CycleNSucc(g: seq<seq<Rock>>, n: nat, h: seq<seq<Rock>>)
    requires Platform(h) && h == CycleN(g, n)
    ensures CycleN(g, n + 1) == CycleF(h)
  {
  }

  /** The states `find_loop` records are pairwise distinct. */
  lemma DistinctStates(g: seq<seq<Rock>>, hist: seq<seq<seq<Rock>>>, seen: map<seq<seq<Rock>>, nat>)
    requires forall j | 0 <= j < |hist| :: hist[j] == CycleN(g, j + 1)
    requires forall j | 0 <= j < |hist| :: hist[j] in seen && seen[hist[j]] == j + 1
    ensures forall i, j | 1 <= i < j <= |hist| :: CycleN(g, i) != CycleN(g, j)
  {
    forall i, j | 1 <= i < j <= |hist| ensures CycleN(g, i) != CycleN(g, j) {
      assert seen[hist[i - 1]] != seen[hist[j - 1]];
    }
  }

  /** Total load on the north beams: each round rock weighs as much as its
      distance, in rows, from the south edge plus one. */
  function Load(g: seq<seq<Rock>>): (l: nat)
    ensures l == 0 <==> forall y | 0 <= y < |g| :: Count(g[y], Round) == 0
  {
    if g == [] then 0 else Count(g[0], Round) * |g| + Load(g[1..])
  }

  /** The load summed over the round rocks cell by cell, as the puzzles do. */
  method NorthLoad(m: array2<Rock>) returns (total: int)
    ensures total == Load(Cells(m))
  {
    ghost var g := Cells(m);
    total := 0;
    for y := 0 to m.Length0
      invariant total + Load(g[y..]) == Load(g)
    {
      var row := RowLoad(m, y, m.Length0 - y);
      LoadStep(g, y);
      total := total + row;
    }
    assert g[m.Length0..] == [];
  }

  /** Row y adds its round rocks times its weight `|g| - y`. */
  lemma LoadStep(g: seq<seq<Rock>>, y: nat)
    requires y < |g|
    ensures Load(g[y..]) == Count(g[y], Round) * (|g| - y) + Load(g[y + 1..])
  {
    assert g[y..][1..] == g[y + 1..];
  }

  /** The inner loop of the load sum: `w` for each round rock of row y. */
  method RowLoad(m: array2<Rock>, y: nat, w: int) returns (total: int)
    requires y < m.Length0
    ensures total == Count(Cells(m)[y], Round) * w
  {
    ghost var row := Cells(m)[y];
    total := 0;
    for x := 0 to m.Length1
      invariant total == Count(row[..x], Round) * w
    {
      assert row[..x + 1][..x] == row[..x];
      if m[y, x] == Round {
        total := total + w;
        MulSuccLeft(Count(row[..x], Round), w);
      }
    }
    assert row[..m.Length1] == row;
  }

  lemma MulSuccLeft(c: int, w: int)
    ensures (c + 1) * w == c * w + w
  {
  }

  /** `puzzle1`: the load after rolling north once. */
  method Puzzle1(m: array2<Rock>) returns (total: int)
    modifies m
    ensures total == Load(TiltNorth(old(Cells(m))))
  {
    Roll(m);
    total := NorthLoad(m);
  }

  /** The cycle count the second puzzle asks about. */
  const Target: nat := 1000000000

  /** Skipping whole periods: after the loop closes, the state at the
      target is the one `(target - end) % (end - start)` cycles past `end`. */
  lemma SkipPeriods(g: seq<seq<Rock>>, start: nat, end: nat, rem: nat)
    requires start < end <= Target && CycleN(g, start) == CycleN(g, end)
    requires rem == (Target - end) % (end - start)
    ensures CycleN(g, end + rem) == CycleN(g, Target)
  {
    IterateSkip(Spin, g, start, end, Target);
  }

  /** The `for _ in 0..rem` loop of `puzzle2`: `rem` more spin cycles from
      the state after k0. */
  method SpinMore(cur0: array2<Rock>, rem: nat) returns (cur: array2<Rock>)
    requires cur0.Length0 > 0 && cur0.Length1 > 0
    modifies cur0
    ensures (cur == cur0 || fresh(cur)) && cur.Length0 == cur0.Length0 && cur.Length1 == cur0.Length1
    ensures Cells(cur) == CycleN(old(Cells(cur0)), rem)
  {
    ghost var g := Cells(cur0);
    cur := cur0;
    for i := 0 to rem
      invariant cur == cur0 || fresh(cur)
      invariant cur.Length0 == cur0.Length0 && cur.Length1 == cur0.Length1
      invariant Cells(cur) == CycleN(g, i)
    {
      var key;
      cur, key := Advance(cur, g, i);
    }
  }

  /** The loop `find_loop` finds: the platforms after `start` and `end`
      cycles are equal, and no two earlier cycles gave equal platforms. */
  predicate FirstRepeat(g: seq<seq<Rock>>, start: nat, end: nat) {
    1 <= start < end && CycleN(g, start) == CycleN(g, end) &&
    forall i, j | 1 <= i < j < end :: CycleN(g, i) != CycleN(g, j)
  }

  /** There is only one first repeat, so whether the loop closes before or
      after the target does not depend on how it is found. */
  lemma FirstRepeatUnique(g: seq<seq<Rock>>, s1: nat, e1: nat, s2: nat, e2: nat)
    requires FirstRepeat(g, s1, e1) && FirstRepeat(g, s2, e2)
    ensures s1 == s2 && e1 == e2
  {
  }

  /** `puzzle2`: the load after a billion spin cycles, by skipping whole
      periods of the loop `find_loop` finds. The `usize` subtraction
      `1000000000 - end` panics when the loop closes after the target. */
  method Puzzle2(m: array2<Rock>, fuel: nat) returns (out: Outcome)
    requires m.Length0 > 0 && m.Length1 > 0
    modifies m
    ensures out.Done? ==> out.value == Load(CycleN(old(Cells(m)), Target))
    ensures out.Done? ==> exists s: nat, e: nat :: FirstRepeat(old(Cells(m)), s, e) && e <= Target
    ensures out.Panic? ==> exists s: nat, e: nat :: FirstRepeat(old(Cells(m)), s, e) && Target < e
    ensures out.OutOfFuel? ==> forall i, j | 1 <= i < j <= fuel :: CycleN(old(Cells(m)), i) != CycleN(old(Cells(m)), j)
  {
    ghost var g := Cells(m);
    var res, cur := FindLoop(m, fuel);
    if res.None? {
      return OutOfFuel;
    }
    var start, end := res.value.0, res.value.1;
    assert FirstRepeat(g, start, end);
    if end > Target {
      return Panic;
    }
    var rem := (Target - end) % (end - start);
    cur := SpinMore(cur, rem);
    IterateAdd(Spin, g, end, rem);
    SkipPeriods(g, start, end, rem);
    var load := NorthLoad(cur);
    out := Done(load);
  }
}
