/** Day 17, "Clumsy Crucible": the successor rules a shortest-path search
    uses to move a crucible across a grid of heat-loss digits. A state is a
    position, the direction of the last move and how many moves in a row
    went that way; a successor comes with the heat lost entering its cell. */
module Day17 {
  import opened Wrappers
  import opened Grid

  /** `c as u8 - '0' as u8`: the char is truncated to its low byte, and a
      byte below '0' underflows, which panics. */
  function ParseCost(c: char): (r: Option<nat>)
    ensures r.Some? <==> (c as int) % 256 >= '0' as int
    ensures '0' <= c <= '9' ==> r == Some(c as int - '0' as int)
  {
    var b := (c as int) % 256;
    if b >= '0' as int then Some(b - '0' as int) else None
  }

  datatype Crucible = Crucible(pos: Pos, dir: Dir, count: nat)

  /** A successor state and the heat lost by moving into it. */
  datatype Step = Step(next: Crucible, cost: nat)

  /** The search starts in the top-left corner, as if it had just moved
      west zero times. */
  const Start: Crucible := Crucible((0, 0), W, 0)

  /** The order in which both successor functions try the directions,
      each paired with its opposite. */
  const Pairs: seq<(Dir, Dir)> := [(N, S), (S, N), (E, W), (W, E)]

  function Dirs(): seq<Dir> {
    [N, S, E, W]
  }

  lemma PairsOpposite(i: nat)
    requires i < |Pairs|
    ensures Pairs[i].0 == Dirs()[i] && Pairs[i].1 == Opposite(Pairs[i].0)
  {
  }

  /** Which rule set picks the successors: `successors1`, `successors2`, or
      the first rule set corrected so that the start state has no direction. */
  datatype Rule = Normal | Ultra | NormalFromStart

  /** Whether a move in direction d is tried from state s. */
  predicate Allowed(rule: Rule, s: Crucible, d: Dir) {
    match rule
    case Normal => Opposite(d) != s.dir && !(d == s.dir && s.count >= 3)
    case Ultra =>
      s.count == 0 ||
      (Opposite(d) != s.dir && !(d == s.dir && s.count >= 10) && !(d != s.dir && s.count < 4))
    case NormalFromStart =>
      (s.count == 0 || Opposite(d) != s.dir) && !(d == s.dir && s.count >= 3)
  }

  type Costs = seq<seq<nat>>

  predicate OnGrid(g: Costs, s: Crucible) {
    Rect(g) && InGrid(|g|, Cols(g), s.pos)
  }

  /** The successor reached by moving in direction d, if that stays on the
      grid: the run length grows when going straight and restarts at 1 on
      a turn; the cost is the digit of the cell entered. */
  function Arrive(g: Costs, s: Crucible, d: Dir): (r: seq<Step>)
    requires OnGrid(g, s)
    ensures |r| <= 1
    ensures r != [] <==> Move(|g|, Cols(g), s.pos, d).Some?
    ensures r != [] ==> OnGrid(g, r[0].next) && r[0].next.dir == d
  {
    var p := Move(|g|, Cols(g), s.pos, d);
    if p.Some? then
      [Step(Crucible(p.value, d, if d == s.dir then s.count + 1 else 1), g[p.value.0][p.value.1])]
    else []
  }

  /** The successors from trying the directions ds in order. */
  function Successors(g: Costs, rule: Rule, s: Crucible, ds: seq<Dir>): seq<Step>
    requires OnGrid(g, s)
  {
    if ds == [] then []
    else
      var d := ds[|ds| - 1];
      Successors(g, rule, s, ds[..|ds| - 1]) + (if Allowed(rule, s, d) then Arrive(g, s, d) else [])
  }

  /** Every successor moves one cell in a tried, allowed direction, and its
      run length and cost are as Arrive says. */
  lemma {:induction false} SuccessorsSound(g: Costs, rule: Rule, s: Crucible, ds: seq<Dir>)
    requires OnGrid(g, s)
    ensures forall st | st in Successors(g, rule, s, ds) ::
      st.next.dir in ds && Allowed(rule, s, st.next.dir) && Arrive(g, s, st.next.dir) == [st]
  {
    if ds != [] {
      SuccessorsSound(g, rule, s, ds[..|ds| - 1]);
      var d := ds[|ds| - 1];
      forall st | st in Successors(g, rule, s, ds)
        ensures st.next.dir in ds && Allowed(rule, s, st.next.dir) && Arrive(g, s, st.next.dir) == [st]
      {
        if st !in Successors(g, rule, s, ds[..|ds| - 1]) {
          assert Allowed(rule, s, d) && st in Arrive(g, s, d);
        }
      }
    }
  }

  /** Every tried, allowed direction that stays on the grid gives a successor. */
  lemma {:induction false} SuccessorsComplete(g: Costs, rule: Rule, s: Crucible, ds: seq<Dir>, d: Dir)
    requires OnGrid(g, s)
    requires d in ds && Allowed(rule, s, d) && Move(|g|, Cols(g), s.pos, d).Some?
    ensures Arrive(g, s, d)[0] in Successors(g, rule, s, ds)
  {
    var last := ds[|ds| - 1];
    if d != last {
      assert d in ds[..|ds| - 1];
      SuccessorsComplete(g, rule, s, ds[..|ds| - 1], d);
    }
  }

  /** The loop shared by `successors1` and `successors2`: walk the four
      (direction, opposite) pairs, skip the ones the rules forbid, and push
      the move when it stays on the grid. */
  /** One direction of the loop in `successors1`/`successors2`: the rule
      check on the (direction, opposite) pair, then the move. */
  method TryDir(g: Costs, rule: Rule, s: Crucible, d: Dir, o: Dir) returns (add: seq<Step>)
    requires OnGrid(g, s) && o == Opposite(d)
    ensures add == if Allowed(rule, s, d) then Arrive(g, s, d) else []
  {
    var allowed;
    match rule {
      case Normal =>
        allowed := o != s.dir && !(d == s.dir && s.count >= 3);
      case Ultra =>
        allowed := s.count == 0 ||
          (o != s.dir && !(d == s.dir && s.count >= 10) && !(d != s.dir && s.count < 4));
      case NormalFromStart =>
        allowed := (s.count == 0 || o != s.dir) && !(d == s.dir && s.count >= 3);
    }
    add := [];
    if allowed {
      var p := Move(|g|, Cols(g), s.pos, d);
      if p.Some? {
        var c := if d == s.dir then s.count + 1 else 1;
        add := [Step(Crucible(p.value, d, c), g[p.value.0][p.value.1])];
      }
    }
  }

  /** Trying one more direction appends its successors. */
  lemma SuccessorsPrefix(g: Costs, rule: Rule, s: Crucible, i: nat)
    requires OnGrid(g, s) && i < |Dirs()|
    ensures Successors(g, rule, s, Dirs()[..i + 1]) ==
      Successors(g, rule, s, Dirs()[..i]) +
      (if Allowed(rule, s, Dirs()[i]) then Arrive(g, s, Dirs()[i]) else [])
  {
    var ds := Dirs()[..i + 1];
    assert ds[|ds| - 1] == Dirs()[i];
    assert ds[..|ds| - 1] == Dirs()[..i];
  }

  method SuccessorsLoop(g: Costs, rule: Rule, s: Crucible) returns (ret: seq<Step>)
    requires OnGrid(g, s)
    ensures ret == Successors(g, rule, s, Dirs())
  {
    ret := [];
    for i := 0 to |Pairs|
      invariant ret == Successors(g, rule, s, Dirs()[..i])
    {
      var (d, o) := Pairs[i];
      PairsOpposite(i);
      var add := TryDir(g, rule, s, d, o);
      SuccessorsPrefix(g, rule, s, i);
      ret := ret + add;
    }
    assert Dirs()[..|Pairs|] == Dirs();
  }

  /** `successors1`. */
  method Successors1(g: Costs, s: Crucible) returns (ret: seq<Step>)
    requires OnGrid(g, s)
    ensures ret == Successors(g, Normal, s, Dirs())
  {
    ret := SuccessorsLoop(g, Normal, s);
  }

  /** `successors2`. */
  method Successors2(g: Costs, s: Crucible) returns (ret: seq<Step>)
    requires OnGrid(g, s)
    ensures ret == Successors(g, Ultra, s, Dirs())
  {
    ret := SuccessorsLoop(g, Ultra, s);
  }

  /** Every successor is one cell away on the grid in its direction, with
      its run length and the heat of the cell entered. */
  lemma SuccessorMoves(g: Costs, rule: Rule, s: Crucible, st: Step)
    requires OnGrid(g, s) && st in Successors(g, rule, s, Dirs())
    ensures OnGrid(g, st.next)
    ensures Move(|g|, Cols(g), s.pos, st.next.dir) == Some(st.next.pos)
    ensures st.next.count == if st.next.dir == s.dir then s.count + 1 else 1
    ensures st.cost == g[st.next.pos.0][st.next.pos.1]
  {
    SuccessorsSound(g, rule, s, Dirs());
  }

  /** `successors1` never reverses and never makes a fourth move in a row
      in one direction. */
  lemma NormalRules(g: Costs, s: Crucible, st: Step)
    requires OnGrid(g, s) && s.count <= 3 && st in Successors(g, Normal, s, Dirs())
    ensures st.next.dir != Opposite(s.dir)
    ensures 1 <= st.next.count <= 3
    ensures st.next.dir == s.dir ==> s.count < 3
  {
    SuccessorsSound(g, Normal, s, Dirs());
    assert Allowed(Normal, s, st.next.dir);
  }

  /** `successors1` offers every other direction that stays on the grid. */
  lemma NormalComplete(g: Costs, s: Crucible, d: Dir)
    requires OnGrid(g, s) && d != Opposite(s.dir) && !(d == s.dir && s.count >= 3)
    requires Move(|g|, Cols(g), s.pos, d).Some?
    ensures exists st :: st in Successors(g, Normal, s, Dirs()) && st.next.dir == d
  {
    SuccessorsComplete(g, Normal, s, Dirs(), d);
    assert Arrive(g, s, d)[0] in Successors(g, Normal, s, Dirs());
  }

  /** From the start state (run length 0) `successors2` offers every
      direction that stays on the grid. */
  lemma UltraFromStart(g: Costs, s: Crucible, d: Dir)
    requires OnGrid(g, s) && s.count == 0 && Move(|g|, Cols(g), s.pos, d).Some?
    ensures exists st :: st in Successors(g, Ultra, s, Dirs()) && st.next.dir == d
  {
    SuccessorsComplete(g, Ultra, s, Dirs(), d);
    assert Arrive(g, s, d)[0] in Successors(g, Ultra, s, Dirs());
  }

  /** Once moving, `successors2` never reverses, turns only after at least
      four moves in a row and goes straight only while fewer than ten. */
  lemma UltraRules(g: Costs, s: Crucible, st: Step)
    requires OnGrid(g, s) && s.count > 0 && st in Successors(g, Ultra, s, Dirs())
    ensures st.next.dir != Opposite(s.dir)
    ensures st.next.dir != s.dir ==> s.count >= 4
    ensures st.next.dir == s.dir ==> s.count < 10 && st.next.count == s.count + 1
  {
    SuccessorsSound(g, Ultra, s, Dirs());
    assert Allowed(Ultra, s, st.next.dir);
  }

  /** Once moving, `successors2` offers every direction its rules allow. */
  lemma UltraComplete(g: Costs, s: Crucible, d: Dir)
    requires OnGrid(g, s) && s.count > 0 && d != Opposite(s.dir)
    requires if d == s.dir then s.count < 10 else s.count >= 4
    requires Move(|g|, Cols(g), s.pos, d).Some?
    ensures exists st :: st in Successors(g, Ultra, s, Dirs()) && st.next.dir == d
  {
    SuccessorsComplete(g, Ultra, s, Dirs(), d);
    assert Arrive(g, s, d)[0] in Successors(g, Ultra, s, Dirs());
  }

  /** `successors1` from the start state never moves east: the start counts
      as having moved west, and east is its reverse. On a one-row grid the
      start has no successor at all, so the search finds no path. */
  lemma NormalStartSkipsEast(g: Costs, st: Step)
    requires OnGrid(g, Start) && st in Successors(g, Normal, Start, Dirs())
    ensures st.next.dir == S
  {
    SuccessorsSound(g, Normal, Start, Dirs());
    assert Allowed(Normal, Start, st.next.dir);
  }

  lemma OneRowNoPath()
    ensures Successors([[1, 1]], Normal, Start, Dirs()) == []
  {
    var g: Costs := [[1, 1]];
    var ds := Dirs();
    assert ds[..0] == [] && ds[..1][..0] == ds[..0] && ds[..2][..1] == ds[..1];
    assert ds[..3][..2] == ds[..2] && ds[..3] == ds[..|ds| - 1];
    assert Successors(g, Normal, Start, ds[..1]) == [];
    assert Successors(g, Normal, Start, ds[..2]) == [];
    assert Successors(g, Normal, Start, ds[..3]) == [];
  }

  /** With the start treated as having no direction, the first rule set
      offers every direction that stays on the grid from the start, and is
      unchanged everywhere else. */
  lemma FromStartComplete(g: Costs, d: Dir)
    requires OnGrid(g, Start) && Move(|g|, Cols(g), Start.pos, d).Some?
    ensures exists st :: st in Successors(g, NormalFromStart, Start, Dirs()) && st.next.dir == d
  {
    SuccessorsComplete(g, NormalFromStart, Start, Dirs(), d);
    assert Arrive(g, Start, d)[0] in Successors(g, NormalFromStart, Start, Dirs());
  }

  lemma {:induction false} FromStartAgrees(g: Costs, s: Crucible, ds: seq<Dir>)
    requires OnGrid(g, s) && s.count > 0
    ensures Successors(g, NormalFromStart, s, ds) == Successors(g, Normal, s, ds)
  {
    if ds != [] {
      FromStartAgrees(g, s, ds[..|ds| - 1]);
    }
  }

  /** `heuristic`: the Manhattan distance to the goal. */
  function Heuristic(pos: Pos, goal: Pos): (h: nat)
    ensures h == 0 <==> Success(pos, goal)
  {
    (if pos.0 >= goal.0 then pos.0 - goal.0 else goal.0 - pos.0) +
    (if pos.1 >= goal.1 then pos.1 - goal.1 else goal.1 - pos.1)
  }

  /** `success`. */
  predicate Success(pos: Pos, goal: Pos) {
    pos == goal
  }

  /** When every digit is at least 1 the heuristic never overestimates a
      step: it drops by at most the heat lost, so the search's answer is a
      least total heat loss. */
  lemma HeuristicConsistent(g: Costs, rule: Rule, s: Crucible, st: Step, goal: Pos)
    requires OnGrid(g, s) && st in Successors(g, rule, s, Dirs())
    requires forall y, x | 0 <= y < |g| && 0 <= x < |g[y]| :: g[y][x] >= 1
    ensures Heuristic(s.pos, goal) <= st.cost + Heuristic(st.next.pos, goal)
  {
    SuccessorMoves(g, rule, s, st);
    var p := st.next.pos;
    assert g[p.0][p.1] >= 1;
  }
}
