/** Day 10, "Pipe Maze": following the loop of pipes through the starting
    tile S, and expanding every tile to a 3x3 block so that the ground the
    loop encloses can be told from the ground outside it. */
module Day10 {
  import opened Wrappers
  import opened Grid
  import Seqs

  /** The tiles: the six pipes, ground ('.', `G` in the code), the start
      tile ('S') and the empty filler of an expanded grid (`O`), which is
      never parsed. */
  datatype Pipe = NS | EW | NE | NW | SW | SE | Ground | Start | Void

  /** `char_to_pipe`: the eight glyphs; any other character panics (None). */
  function CharToPipe(c: char): (r: Option<Pipe>)
    ensures r.Some? <==> c in "|-LJ7F.S"
    ensures r.Some? ==> r.value != Void && PipeChar(r.value) == c
  {
    match c
    case '|' => Some(NS)
    case '-' => Some(EW)
    case 'L' => Some(NE)
    case 'J' => Some(NW)
    case '7' => Some(SW)
    case 'F' => Some(SE)
    case '.' => Some(Ground)
    case 'S' => Some(Start)
    case _ => None
  }

  /** The glyph of a parsed tile. */
  function PipeChar(p: Pipe): char
    requires p != Void
  {
    match p
    case NS => '|'
    case EW => '-'
    case NE => 'L'
    case NW => 'J'
    case SW => '7'
    case SE => 'F'
    case Ground => '.'
    case Start => 'S'
  }

  lemma PipeCharRoundTrip(p: Pipe)
    requires p != Void
    ensures CharToPipe(PipeChar(p)) == Some(p)
  {
  }

  /** One line of tiles; None when some character is not a glyph. */
  function ParseLine(line: string): (r: Option<seq<Pipe>>)
    ensures r.Some? <==> forall i | 0 <= i < |line| :: CharToPipe(line[i]).Some?
    ensures r.Some? ==> |r.value| == |line| && forall i | 0 <= i < |line| :: Some(r.value[i]) == CharToPipe(line[i])
  {
    if line == [] then Some([])
    else
      match ParseLine(line[..|line| - 1])
      case None => None
      case Some(init) =>
        match CharToPipe(line[|line| - 1])
        case None => None
        case Some(p) => Some(init + [p])
  }

  /** `parse_input`: the grid of tiles; None (a panic) on a bad glyph or on
      lines of different lengths. */
  function ParseGrid(lines: seq<string>): (r: Option<seq<seq<Pipe>>>)
    ensures r.Some? <==> Rect(lines) && forall i | 0 <= i < |lines| :: ParseLine(lines[i]).Some?
    ensures r.Some? ==> |r.value| == |lines| && Rect(r.value)
    ensures r.Some? ==> forall i | 0 <= i < |lines| :: Some(r.value[i]) == ParseLine(lines[i])
  {
    if !Rect(lines) then None
    else if exists i | 0 <= i < |lines| :: ParseLine(lines[i]).None? then None
    else Some(seq(|lines|, i requires 0 <= i < |lines| => ParseLine(lines[i]).value))
  }

  /** The sides of a tile that a pipe connects; an independent description
      of the transition table below. */
  function Openings(p: Pipe): set<Dir> {
    match p
    case NS => {N, S}
    case EW => {E, W}
    case NE => {N, E}
    case NW => {N, W}
    case SW => {S, W}
    case SE => {S, E}
    case _ => {}
  }

  /** `next_pipe`: moving in direction `d` onto tile `p`, the direction in
      which the walk leaves it; None when `p` is not open towards the side
      the walk comes from (always so for ground, the start tile and the filler). */
  function NextPipe(d: Dir, p: Pipe): (r: Option<Dir>)
    ensures p == Ground || p == Start || p == Void ==> r.None?
  {
    match (d, p)
    case (N, NS) => Some(N)
    case (S, NS) => Some(S)
    case (E, EW) => Some(E)
    case (W, EW) => Some(W)
    case (S, NE) => Some(E)
    case (W, NE) => Some(N)
    case (E, NW) => Some(N)
    case (S, NW) => Some(W)
    case (N, SW) => Some(W)
    case (E, SW) => Some(S)
    case (N, SE) => Some(E)
    case (W, SE) => Some(S)
    case _ => None
  }

  /** The table is exactly "enter through an open side, leave through the
      other open side". */
  lemma NextPipeOpenings(d: Dir, p: Pipe, e: Dir)
    ensures NextPipe(d, p) == Some(e) <==>
      (Opposite(d) in Openings(p) && e in Openings(p) && e != Opposite(d))
  {
  }

  /** Every pipe can be walked both ways: leaving in direction e after
      entering in direction d, the reverse walk enters in the direction
      opposite to e and leaves opposite to d. */
  lemma NextPipeReversible(d: Dir, p: Pipe)
    requires NextPipe(d, p).Some?
    ensures NextPipe(Opposite(NextPipe(d, p).value), p) == Some(Opposite(d))
  {
  }

  /** The 3x3 block `expand_pipes` draws for a tile: the cell at offset
      (r, c) within the block. Unwritten cells are Void. */
  function Block(p: Pipe, r: int, c: int): Pipe {
    match p
    case NS => if c == 1 && 0 <= r <= 2 then NS else Void
    case EW => if r == 1 && 0 <= c <= 2 then EW else Void
    case NE => if (r, c) == (0, 1) then NS else if (r, c) == (1, 1) then NE else if (r, c) == (1, 2) then EW else Void
    case NW => if (r, c) == (0, 1) then NS else if (r, c) == (1, 1) then NW else if (r, c) == (1, 0) then EW else Void
    case SW => if (r, c) == (1, 0) then EW else if (r, c) == (1, 1) then SW else if (r, c) == (2, 1) then NS else Void
    case SE => if (r, c) == (1, 1) then SE else if (r, c) == (1, 2) then EW else if (r, c) == (2, 1) then NS else Void
    case Ground => if (r, c) == (1, 1) then Ground else Void
    case Start => if 0 <= r <= 2 && 0 <= c <= 2 then Start else Void
    case Void => Void
  }

  predicate IsPipe(p: Pipe) {
    p != Ground && p != Start && p != Void
  }

  /** The expanded block of a pipe is its centre plus one arm towards each
      open side, drawn as a straight pipe along that side's axis; corners
      stay empty. The start tile fills its whole block and ground only its centre. */
  lemma BlockShape(p: Pipe)
    ensures p != Void ==> Block(p, 1, 1) == p
    ensures IsPipe(p) ==> forall d: Dir ::
      Block(p, 1 + DRow(d), 1 + DCol(d)) == (if d !in Openings(p) then Void else if DRow(d) == 0 then EW else NS)
    ensures IsPipe(p) ==> Block(p, 0, 0) == Void && Block(p, 0, 2) == Void && Block(p, 2, 0) == Void && Block(p, 2, 2) == Void
    ensures forall r, c | 0 <= r < 3 && 0 <= c < 3 :: Block(Start, r, c) == Start
    ensures forall r, c | 0 <= r < 3 && 0 <= c < 3 && (r, c) != (1, 1) :: Block(Ground, r, c) == Void
  {
  }

  /** The tiles of `src` before (row, col) in row-major order have been
      drawn into `ret`; the cells of the other blocks are still Void. */
  ghost predicate Drawn(src: array2<Pipe>, ret: array2<Pipe>, row: int, col: int)
    reads src, ret
    requires ret.Length0 == 3 * src.Length0 && ret.Length1 == 3 * src.Length1
  {
    forall i, j | 0 <= i < ret.Length0 && 0 <= j < ret.Length1 ::
      ret[i, j] == (if i / 3 < row || (i / 3 == row && j / 3 < col) then Block(src[i / 3, j / 3], i % 3, j % 3) else Void)
  }

  /** One arm of the `match` in `expand_pipes`: draws the block of tile `p`
      whose top left cell is (y, x), writing only the cells `p` needs. */
  method DrawBlock(ret: array2<Pipe>, y: nat, x: nat, p: Pipe)
    requires y + 3 <= ret.Length0 && x + 3 <= ret.Length1
    requires forall i, j | y <= i < y + 3 && x <= j < x + 3 :: ret[i, j] == Void
    modifies ret
    ensures forall i, j | y <= i < y + 3 && x <= j < x + 3 :: ret[i, j] == Block(p, i - y, j - x)
    ensures forall i, j | 0 <= i < ret.Length0 && 0 <= j < ret.Length1 ::
      !(y <= i < y + 3 && x <= j < x + 3) ==> ret[i, j] == old(ret[i, j])
  {
    match p
    case NS =>
      ret[y + 0, x + 1] := NS;
      ret[y + 1, x + 1] := NS;
      ret[y + 2, x + 1] := NS;
    case EW =>
      ret[y + 1, x + 0] := EW;
      ret[y + 1, x + 1] := EW;
      ret[y + 1, x + 2] := EW;
    case NE =>
      ret[y + 0, x + 1] := NS;
      ret[y + 1, x + 1] := NE;
      ret[y + 1, x + 2] := EW;
    case NW =>
      ret[y + 0, x + 1] := NS;
      ret[y + 1, x + 1] := NW;
      ret[y + 1, x + 0] := EW;
    case SW =>
      ret[y + 1, x + 0] := EW;
      ret[y + 1, x + 1] := SW;
      ret[y + 2, x + 1] := NS;
    case SE =>
      ret[y + 1, x + 1] := SE;
      ret[y + 1, x + 2] := EW;
      ret[y + 2, x + 1] := NS;
    case Ground =>
      ret[y + 1, x + 1] := Ground;
    case Start =>
      for r := 0 to 3
        invariant forall i, j | y <= i < y + 3 && x <= j < x + 3 :: ret[i, j] == (if i < y + r then Start else Void)
        invariant forall i, j | 0 <= i < ret.Length0 && 0 <= j < ret.Length1 ::
          !(y <= i < y + 3 && x <= j < x + 3) ==> ret[i, j] == old(ret[i, j])
      {
        ret[y + r, x + 0] := Start;
        ret[y + r, x + 1] := Start;
        ret[y + r, x + 2] := Start;
      }
    case Void =>
  }

  /** `expand_pipes`: a grid three times as tall and as wide in which every
      tile of the input is drawn as its 3x3 block; nothing else is written. */
  method ExpandPipes(input: array2<Pipe>) returns (ret: array2<Pipe>)
    ensures fresh(ret) && ret.Length0 == 3 * input.Length0 && ret.Length1 == 3 * input.Length1
    ensures Rows(ret) == Expanded(Rows(input))
  {
    ret := new Pipe[3 * input.Length0, 3 * input.Length1]((i, j) => Void);
    for row := 0 to input.Length0
      invariant Drawn(input, ret, row, 0)
    {
      DrawRow(input, ret, row);
    }
    DrawnAll(input, ret);
  }

  lemma DrawnAll(input: array2<Pipe>, ret: array2<Pipe>)
    requires ret.Length0 == 3 * input.Length0 && ret.Length1 == 3 * input.Length1
    requires Drawn(input, ret, input.Length0, 0)
    ensures Rows(ret) == Expanded(Rows(input))
  {
    var a, b := Rows(ret), Expanded(Rows(input));
    forall i | 0 <= i < |a| ensures a[i] == b[i] {
      forall j | 0 <= j < |a[i]| ensures a[i][j] == b[i][j] {
        assert a[i][j] == ret[i, j];
      }
    }
  }

  /** Block by block: the cell at offset (r, c) of the block of tile
      (br, bc) is drawn from that tile alone. */
  lemma ExpandedBlock(g: seq<seq<Pipe>>, br: nat, bc: nat, r: nat, c: nat)
    requires Rect(g) && br < |g| && bc < Cols(g) && r < 3 && c < 3
    ensures Expanded(g)[3 * br + r][3 * bc + c] == Block(g[br][bc], r, c)
  {
    DivThree(br, r);
    DivThree(bc, c);
  }

  lemma DivThree(q: int, r: int)
    requires 0 <= r < 3
    ensures (3 * q + r) / 3 == q && (3 * q + r) % 3 == r
  {
  }

  /** The inner loop of `expand_pipes`: draws one row of tiles. */
  method DrawRow(input: array2<Pipe>, ret: array2<Pipe>, row: nat)
    requires ret != input
    requires ret.Length0 == 3 * input.Length0 && ret.Length1 == 3 * input.Length1
    requires row < input.Length0 && Drawn(input, ret, row, 0)
    modifies ret
    ensures Drawn(input, ret, row + 1, 0)
  {
    for col := 0 to input.Length1
      invariant Drawn(input, ret, row, col)
    {
      label before:
      DrawBlock(ret, 3 * row, 3 * col, input[row, col]);
      forall i, j | 0 <= i < ret.Length0 && 0 <= j < ret.Length1
        ensures ret[i, j] ==
          (if i / 3 < row || (i / 3 == row && j / 3 < col + 1) then Block(input[i / 3, j / 3], i % 3, j % 3) else Void)
      {
        if !(3 * row <= i < 3 * row + 3 && 3 * col <= j < 3 * col + 3) {
          assert ret[i, j] == old@before(ret[i, j]);
        }
      }
    }
  }

  /** The cells of a matrix, row by row. */
  ghost function Rows(e: array2<Pipe>): (rows: seq<seq<Pipe>>)
    reads e
    ensures |rows| == e.Length0 && forall i | 0 <= i < e.Length0 :: |rows[i]| == e.Length1
  {
    seq(e.Length0, i requires 0 <= i < e.Length0 reads e => seq(e.Length1, j requires 0 <= j < e.Length1 reads e => e[i, j]))
  }

  /** `expand_pipes` on rows: each tile becomes its 3x3 block. */
  function Expanded(g: seq<seq<Pipe>>): (e: seq<seq<Pipe>>)
    requires Rect(g)
    ensures |e| == 3 * |g| && forall i | 0 <= i < |e| :: |e[i]| == 3 * Cols(g)
  {
    seq(3 * |g|, i requires 0 <= i < 3 * |g| =>
      seq(3 * Cols(g), j requires 0 <= j < 3 * Cols(g) => Block(g[i / 3][j / 3], i % 3, j % 3)))
  }

  /** The tile at an in-grid position. */
  function Tile(g: seq<seq<Pipe>>, p: Pos): Pipe
    requires Rect(g) && InGrid(|g|, Cols(g), p)
  {
    g[p.0][p.1]
  }

  /** The first start tile of `row` at or after column `c`. */
  function FindInRow(row: seq<Pipe>, c: nat): (r: Option<nat>)
    ensures r.Some? ==> c <= r.value < |row| && row[r.value] == Start
    ensures r.Some? ==> forall k | c <= k < r.value :: row[k] != Start
    ensures r.None? ==> forall k | c <= k < |row| :: row[k] != Start
    decreases |row| - c
  {
    if c >= |row| then None else if row[c] == Start then Some(c) else FindInRow(row, c + 1)
  }

  /** `input.items().find(..)`: the first start tile in row-major order,
      searching from row `r`. */
  function FindStart(g: seq<seq<Pipe>>, r: nat): (s: Option<Pos>)
    requires Rect(g)
    ensures s.Some? ==> r <= s.value.0 && InGrid(|g|, Cols(g), s.value) && Tile(g, s.value) == Start
    ensures s.Some? ==> forall i, k | r <= i < s.value.0 && 0 <= k < Cols(g) :: g[i][k] != Start
    ensures s.Some? ==> forall k | 0 <= k < s.value.1 :: g[s.value.0][k] != Start
    ensures s.None? ==> forall i, k | r <= i < |g| && 0 <= k < Cols(g) :: g[i][k] != Start
    decreases |g| - r
  {
    if r >= |g| then None
    else
      match FindInRow(g[r], 0)
      case Some(c) => Some((r, c))
      case None => FindStart(g, r + 1)
  }

  /** Leaving the start tile in direction `d` is possible: the neighbour
      exists and accepts a walk entering it in direction `d`. */
  predicate Opens(g: seq<seq<Pipe>>, s: Pos, d: Dir)
    requires Rect(g)
  {
    var m := Move(|g|, Cols(g), s, d);
    m.Some? && NextPipe(d, Tile(g, m.value)).Some?
  }

  /** The first direction of `Directions4`, from index `k` on, in which the
      walk can leave the start tile. */
  function FirstExit(g: seq<seq<Pipe>>, s: Pos, k: nat): (r: Option<nat>)
    requires Rect(g) && k <= 4
    ensures r.Some? ==> k <= r.value < 4 && Opens(g, s, Directions4[r.value])
    ensures r.Some? ==> forall j | k <= j < r.value :: !Opens(g, s, Directions4[j])
    ensures r.None? ==> forall j | k <= j < 4 :: !Opens(g, s, Directions4[j])
    decreases 4 - k
  {
    if k == 4 then None else if Opens(g, s, Directions4[k]) then Some(k) else FirstExit(g, s, k + 1)
  }

  /** A walker: the tile it stands on and the direction it moved in. */
  type Walker = (Pos, Dir)

  /** The first walker on the loop: one step from the start tile in its
      first open direction; None when no direction is open. */
  function FirstMove(g: seq<seq<Pipe>>, s: Pos): (w: Option<Walker>)
    requires Rect(g)
    ensures w.Some? ==> InGrid(|g|, Cols(g), w.value.0)
  {
    match FirstExit(g, s, 0)
    case None => None
    case Some(k) => Some((Move(|g|, Cols(g), s, Directions4[k]).value, Directions4[k]))
  }

  /** One step of the loop walk: leave the current tile the way its pipe
      leads. None is a panic: the pipe does not accept the walk, or the
      walk would leave the grid. */
  function Step(g: seq<seq<Pipe>>, w: Walker): (r: Option<Walker>)
    requires Rect(g) && InGrid(|g|, Cols(g), w.0)
    ensures r.Some? ==> InGrid(|g|, Cols(g), r.value.0)
    ensures r.Some? ==> NextPipe(w.1, Tile(g, w.0)) == Some(r.value.1)
    ensures r.Some? ==> Move(|g|, Cols(g), w.0, r.value.1) == Some(r.value.0)
  {
    match NextPipe(w.1, Tile(g, w.0))
    case None => None
    case Some(d) =>
      match Move(|g|, Cols(g), w.0, d)
      case None => None
      case Some(q) => Some((q, d))
  }

  /** The walker after `k` steps from `w0`. */
  function Trace(g: seq<seq<Pipe>>, w0: Walker, k: nat): (r: Option<Walker>)
    requires Rect(g) && InGrid(|g|, Cols(g), w0.0)
    ensures r.Some? ==> InGrid(|g|, Cols(g), r.value.0)
  {
    if k == 0 then Some(w0)
    else
      match Trace(g, w0, k - 1)
      case None => None
      case Some(w) => Step(g, w)
  }

  /** The first `n` walkers exist and none of them is back on the start tile. */
  predicate Away(g: seq<seq<Pipe>>, s: Pos, w0: Walker, n: nat)
    requires Rect(g) && InGrid(|g|, Cols(g), w0.0)
  {
    forall m | 0 <= m < n :: Trace(g, w0, m).Some? && Trace(g, w0, m).value.0 != s
  }

  /** The walk returns to the start tile after exactly `n` steps. */
  predicate Closes(g: seq<seq<Pipe>>, s: Pos, w0: Walker, n: nat)
    requires Rect(g) && InGrid(|g|, Cols(g), w0.0)
  {
    Away(g, s, w0, n) && Trace(g, w0, n).Some? && Trace(g, w0, n).value.0 == s
  }

  /** The tiles of the first `n` walkers. */
  function Visited(g: seq<seq<Pipe>>, w0: Walker, n: nat): (v: set<Pos>)
    requires Rect(g) && InGrid(|g|, Cols(g), w0.0)
    ensures forall p | p in v :: InGrid(|g|, Cols(g), p)
  {
    if n == 0 then {}
    else
      Visited(g, w0, n - 1) + match Trace(g, w0, n - 1) case Some(w) => {w.0} case None => {}
  }

  /** The choice of the first direction in both puzzles: the loop over
      `DIRECTIONS_4` that breaks at the first open direction. */
  method ChooseExit(g: seq<seq<Pipe>>, s: Pos) returns (w: Option<Walker>)
    requires Rect(g)
    ensures w == FirstMove(g, s)
  {
    w := None;
    var k := 0;
    while k < 4
      invariant 0 <= k <= 4
      invariant FirstExit(g, s, 0) == FirstExit(g, s, k)
      invariant w.None?
    {
      var d := Directions4[k];
      var m := Move(|g|, Cols(g), s, d);
      if m.Some? && NextPipe(d, Tile(g, m.value)).Some? {
        return Some((m.value, d));
      }
      k := k + 1;
    }
  }

  /** One more walker that is away from the start keeps the walk away. */
  lemma AwaySnoc(g: seq<seq<Pipe>>, s: Pos, w0: Walker, n: nat, w: Walker)
    requires Rect(g) && InGrid(|g|, Cols(g), w0.0)
    requires Away(g, s, w0, n) && Trace(g, w0, n) == Some(w) && w.0 != s
    ensures Away(g, s, w0, n + 1)
    ensures Visited(g, w0, n + 1) == Visited(g, w0, n) + {w.0}
    ensures Trace(g, w0, n + 1) == Step(g, w)
  {
  }

  /** The `while curpos != startpos` loop of both puzzles, which also
      collects the loop's tiles (`looppipes`). Done(n) is the number of
      steps `count` after which the walk is back on the start tile. */
  method WalkLoop(g: seq<seq<Pipe>>, s: Pos, w0: Walker, fuel: nat) returns (r: Outcome, tiles: set<Pos>)
    requires Rect(g) && InGrid(|g|, Cols(g), w0.0)
    ensures r.Done? ==> 0 <= r.value <= fuel && Closes(g, s, w0, r.value)
    ensures r.Done? ==> tiles == {s} + Visited(g, w0, r.value)
    ensures r.Panic? ==> exists n | 1 <= n <= fuel :: Trace(g, w0, n).None? && Away(g, s, w0, n)
    ensures r.OutOfFuel? ==> Away(g, s, w0, fuel + 1)
  {
    var w := w0;
    var count := 0;
    tiles := {s};
    while w.0 != s
      invariant count <= fuel
      invariant Trace(g, w0, count) == Some(w)
      invariant Away(g, s, w0, count)
      invariant tiles == {s} + Visited(g, w0, count)
      decreases fuel - count
    {
      if count == fuel {
        return OutOfFuel, tiles;
      }
      AwaySnoc(g, s, w0, count, w);
      tiles := tiles + {w.0};
      count := count + 1;
      var next := Step(g, w);
      if next.None? {
        assert 1 <= count <= fuel && Trace(g, w0, count).None? && Away(g, s, w0, count);
        return Panic, tiles;
      }
      w := next.value;
    }
    return Done(count), tiles;
  }

  /** How a walk from `w0` that may take `fuel` steps ends: with the
      answer `answer(n)` for a walk that closes after `n` steps, with a
      panic at a step that cannot be taken, or still away from the start. */
  predicate WalkEnds(g: seq<seq<Pipe>>, s: Pos, w0: Walker, fuel: nat, r: Outcome, answer: nat -> int)
    requires Rect(g) && InGrid(|g|, Cols(g), w0.0)
  {
    && (r.Done? ==> exists n | 0 <= n <= fuel :: Closes(g, s, w0, n) && r.value == answer(n))
    && (r.Panic? ==> exists n | 1 <= n <= fuel :: Trace(g, w0, n).None? && Away(g, s, w0, n))
    && (r.OutOfFuel? ==> Away(g, s, w0, fuel + 1))
  }

  /** `puzzle1`: half the length of the loop through the start tile,
      `(count + 1) / 2`; 0 when no direction leaves the start tile, and a
      panic when there is no start tile. */
  method Puzzle1(g: seq<seq<Pipe>>, fuel: nat) returns (r: Outcome)
    requires Rect(g)
    ensures FindStart(g, 0).None? ==> r == Panic
    ensures FindStart(g, 0).Some? && FirstMove(g, FindStart(g, 0).value).None? ==> r == Done(0)
    ensures FindStart(g, 0).Some? && FirstMove(g, FindStart(g, 0).value).Some? ==>
      WalkEnds(g, FindStart(g, 0).value, FirstMove(g, FindStart(g, 0).value).value, fuel, r, n => (n + 1) / 2)
  {
    var start := FindStart(g, 0);
    if start.None? {
      return Panic;
    }
    var w0 := ChooseExit(g, start.value);
    if w0.None? {
      return Done(0);
    }
    var walk, _ := WalkLoop(g, start.value, w0.value, fuel);
    if walk.Done? {
      r := Done((walk.value + 1) / 2);
      assert Closes(g, start.value, w0.value, walk.value);
    } else {
      r := walk;
    }

  }

  /** `looppipes` cleared: every tile off the loop becomes ground. */
  function Cleared(g: seq<seq<Pipe>>, tiles: set<Pos>): (h: seq<seq<Pipe>>)
    ensures |h| == |g| && forall i | 0 <= i < |g| :: |h[i]| == |g[i]|
    ensures Rect(g) ==> Rect(h) && Cols(h) == Cols(g)
    ensures forall i, j | 0 <= i < |g| && 0 <= j < |g[i]| :: h[i][j] == (if (i, j) in tiles then g[i][j] else Ground)
  {
    seq(|g|, i requires 0 <= i < |g| =>
      seq(|g[i]|, j requires 0 <= j < |g[i]| => if (i, j) in tiles then g[i][j] else Ground))
  }

  /** The cells of `outer` overwritten with Void. */
  function Marked(e: seq<seq<Pipe>>, outer: set<Pos>): (h: seq<seq<Pipe>>)
    ensures |h| == |e| && forall i | 0 <= i < |e| :: |h[i]| == |e[i]|
    ensures forall i, j | 0 <= i < |e| && 0 <= j < |e[i]| :: h[i][j] == (if (i, j) in outer then Void else e[i][j])
  {
    seq(|e|, i requires 0 <= i < |e| =>
      seq(|e[i]|, j requires 0 <= j < |e[i]| => if (i, j) in outer then Void else e[i][j]))
  }

  /** The number of ground cells, row by row. */
  function GroundCount(rows: seq<seq<Pipe>>): nat {
    if rows == [] then 0 else GroundCount(rows[..|rows| - 1]) + Seqs.Count(rows[|rows| - 1], Ground)
  }

  /** Row `r` (0, 1 or 2) of the blocks of one row of tiles. */
  function ExpandRow(row: seq<Pipe>, r: int): (e: seq<Pipe>)
    ensures |e| == 3 * |row|
  {
    seq(3 * |row|, j requires 0 <= j < 3 * |row| => Block(row[j / 3], r, j % 3))
  }

  lemma ExpandRowSnoc(row: seq<Pipe>, p: Pipe, r: int)
    ensures ExpandRow(row + [p], r) == ExpandRow(row, r) + [Block(p, r, 0), Block(p, r, 1), Block(p, r, 2)]
  {
    var a, b := ExpandRow(row + [p], r), ExpandRow(row, r) + [Block(p, r, 0), Block(p, r, 1), Block(p, r, 2)];
    forall j | 0 <= j < |a| ensures a[j] == b[j] {
      if j < 3 * |row| {
        assert (row + [p])[j / 3] == row[j / 3];
      } else {
        DivThree(|row|, j - 3 * |row|);
      }
    }
  }

  lemma CountBlockRow(p: Pipe, r: int)
    ensures Seqs.Count([Block(p, r, 0), Block(p, r, 1), Block(p, r, 2)], Ground) == if r == 1 && p == Ground then 1 else 0
  {
    var t := [Block(p, r, 0), Block(p, r, 1), Block(p, r, 2)];
    assert t[..2] == [Block(p, r, 0), Block(p, r, 1)];
    assert t[..2][..1] == [Block(p, r, 0)];
    assert [Block(p, r, 0)][..0] == [];
    var c0 := if Block(p, r, 0) == Ground then 1 else 0;
    var c1 := if Block(p, r, 1) == Ground then 1 else 0;
    var c2 := if Block(p, r, 2) == Ground then 1 else 0;
    assert Seqs.Count([Block(p, r, 0)], Ground) == c0;
    assert Seqs.Count(t[..2], Ground) == c0 + c1;
    assert Seqs.Count(t, Ground) == c0 + c1 + c2;
    assert c0 == 0 && c2 == 0;
    assert c1 == if r == 1 && p == Ground then 1 else 0;
  }

  /** Only the middle row of a block can hold ground, one cell per ground
      tile. */
  lemma {:induction false} ExpandRowGround(row: seq<Pipe>, r: int)
    requires 0 <= r < 3
    ensures Seqs.Count(ExpandRow(row, r), Ground) == if r == 1 then Seqs.Count(row, Ground) else 0
    decreases |row|
  {
    if row != [] {
      var init, p := row[..|row| - 1], row[|row| - 1];
      assert row == init + [p];
      ExpandRowSnoc(init, p, r);
      ExpandRowGround(init, r);
      Seqs.CountAppend(ExpandRow(init, r), [Block(p, r, 0), Block(p, r, 1), Block(p, r, 2)], Ground);
      CountBlockRow(p, r);
    }
  }

  lemma ExpandedPrefix(h: seq<seq<Pipe>>)
    requires Rect(h) && |h| > 0
    ensures Rect(h[..|h| - 1])
    ensures Expanded(h)[..3 * |h| - 3] == Expanded(h[..|h| - 1])
  {
    var n := |h|;
    var init := h[..n - 1];
    var e, ei := Expanded(h), Expanded(init);
    if n > 1 {
      assert Cols(init) == Cols(h);
    }
    forall i | 0 <= i < 3 * n - 3 ensures e[i] == ei[i] {
      assert init[i / 3] == h[i / 3];
    }
  }

  lemma ExpandedLast(h: seq<seq<Pipe>>, r: nat)
    requires Rect(h) && |h| > 0 && r < 3
    ensures Expanded(h)[3 * (|h| - 1) + r] == ExpandRow(h[|h| - 1], r)
  {
    DivThree(|h| - 1, r);
    var a, b := Expanded(h)[3 * (|h| - 1) + r], ExpandRow(h[|h| - 1], r);
    assert |a| == |b|;
  }

  lemma GroundCountSnoc(rows: seq<seq<Pipe>>, x: seq<Pipe>)
    ensures GroundCount(rows + [x]) == GroundCount(rows) + Seqs.Count(x, Ground)
  {
    assert (rows + [x])[..|rows|] == rows;
  }

  lemma GroundCountThree(a: seq<seq<Pipe>>, r0: seq<Pipe>, r1: seq<Pipe>, r2: seq<Pipe>)
    ensures GroundCount(a + [r0, r1, r2]) ==
      GroundCount(a) + Seqs.Count(r0, Ground) + Seqs.Count(r1, Ground) + Seqs.Count(r2, Ground)
  {
    var a1 := a + [r0];
    var a2 := a1 + [r1];
    var a3 := a2 + [r2];
    GroundCountSnoc(a, r0);
    GroundCountSnoc(a1, r1);
    GroundCountSnoc(a2, r2);
    assert a3 == a + [r0, r1, r2];
  }

  lemma ExpandedSplit(h: seq<seq<Pipe>>)
    requires Rect(h) && |h| > 0
    ensures Rect(h[..|h| - 1])
    ensures Expanded(h) == Expanded(h[..|h| - 1]) + [ExpandRow(h[|h| - 1], 0), ExpandRow(h[|h| - 1], 1), ExpandRow(h[|h| - 1], 2)]
  {
    var n := |h|;
    var e := Expanded(h);
    ExpandedPrefix(h);
    ExpandedLast(h, 0);
    ExpandedLast(h, 1);
    ExpandedLast(h, 2);
    assert e == e[..3 * n - 3] + [e[3 * n - 3], e[3 * n - 2], e[3 * n - 1]];
  }

  /** The three expanded rows of the last row of tiles hold as much ground
      as that row. */
  lemma ExpandedLastGround(h: seq<seq<Pipe>>)
    requires Rect(h) && |h| > 0
    ensures Rect(h[..|h| - 1])
    ensures GroundCount(Expanded(h)) == GroundCount(Expanded(h[..|h| - 1])) + Seqs.Count(h[|h| - 1], Ground)
  {
    var row := h[|h| - 1];
    ExpandedSplit(h);
    var e0, e1, e2 := ExpandRow(row, 0), ExpandRow(row, 1), ExpandRow(row, 2);
    ExpandRowGround(row, 0);
    ExpandRowGround(row, 1);
    ExpandRowGround(row, 2);
    GroundCountThree(Expanded(h[..|h| - 1]), e0, e1, e2);
  }

  /** Expansion keeps the number of ground cells: the ground of the
      expanded grid is exactly the centres of the ground tiles. */
  lemma {:induction false} ExpandedGroundCount(h: seq<seq<Pipe>>)
    requires Rect(h)
    ensures GroundCount(Expanded(h)) == GroundCount(h)
    decreases |h|
  {
    if h != [] {
      ExpandedLastGround(h);
      ExpandedGroundCount(h[..|h| - 1]);
    }
  }

  /** The answer of `puzzle2` for a loop made of `tiles` and a flood fill
      `outer` of the expanded grid: the ground cells left after clearing,
      expanding and marking. */
  function Enclosed(g: seq<seq<Pipe>>, tiles: set<Pos>, outer: set<Pos>): int
    requires Rect(g)
  {
    GroundCount(Marked(Expanded(Cleared(g, tiles)), outer))
  }

  /** Without a flood fill the answer would count every tile that is off
      the loop or ground: expansion adds no ground of its own. */
  lemma EnclosedWithoutFill(g: seq<seq<Pipe>>, tiles: set<Pos>)
    requires Rect(g)
    ensures Enclosed(g, tiles, {}) == GroundCount(Cleared(g, tiles))
  {
    MarkedNothing(Expanded(Cleared(g, tiles)));
    ExpandedGroundCount(Cleared(g, tiles));
  }

  lemma MarkedNothing(e: seq<seq<Pipe>>)
    ensures Marked(e, {}) == e
  {
    var m := Marked(e, {});
    forall i | 0 <= i < |e| ensures m[i] == e[i] {
    }
  }

  /** The parsed grid as a matrix. */
  method ToMatrix(g: seq<seq<Pipe>>) returns (a: array2<Pipe>)
    requires Rect(g)
    ensures fresh(a) && a.Length0 == |g| && a.Length1 == Cols(g) && Rows(a) == g
  {
    a := new Pipe[|g|, Cols(g)]((i, j) requires 0 <= i < |g| && 0 <= j < Cols(g) => g[i][j]);
    assert Rows(a) == g by {
      forall i | 0 <= i < |g| ensures Rows(a)[i] == g[i] {
      }
    }
  }

  /** The "delete everything else except loop" loop: every cell not in
      `tiles` becomes ground. */
  method ClearOffLoop(a: array2<Pipe>, tiles: set<Pos>)
    modifies a
    ensures Rows(a) == Cleared(old(Rows(a)), tiles)
  {
    ghost var g0 := Rows(a);
    for i := 0 to a.Length0
      invariant forall y, x | 0 <= y < a.Length0 && 0 <= x < a.Length1 ::
        a[y, x] == (if y < i && (y, x) !in tiles then Ground else g0[y][x])
    {
      for j := 0 to a.Length1
        invariant forall y, x | 0 <= y < a.Length0 && 0 <= x < a.Length1 ::
          a[y, x] == (if (y < i || (y == i && x < j)) && (y, x) !in tiles then Ground else g0[y][x])
      {
        if (i, j) !in tiles {
          a[i, j] := Ground;
        }
      }
    }
    assert Rows(a) == Cleared(g0, tiles) by {
      forall y | 0 <= y < a.Length0 ensures Rows(a)[y] == Cleared(g0, tiles)[y] {
      }
    }
  }

  /** `for o in outer { expanded[o] = Pipe::O }`, in any order. */
  method MarkOuter(e: array2<Pipe>, outer: set<Pos>)
    requires forall p | p in outer :: InGrid(e.Length0, e.Length1, p)
    modifies e
    ensures Rows(e) == Marked(old(Rows(e)), outer)
  {
    ghost var e0 := Rows(e);
    var rest := outer;
    while rest != {}
      invariant rest <= outer
      invariant forall y, x | 0 <= y < e.Length0 && 0 <= x < e.Length1 ::
        e[y, x] == (if (y, x) in outer && (y, x) !in rest then Void else e0[y][x])
      decreases rest
    {
      var o :| o in rest;
      e[o.0, o.1] := Void;
      rest := rest - {o};
    }
    assert Rows(e) == Marked(e0, outer) by {
      forall y | 0 <= y < e.Length0 ensures Rows(e)[y] == Marked(e0, outer)[y] {
      }
    }
  }

  /** `values().filter(G).count()`: the ground cells of the matrix. */
  method CountGround(e: array2<Pipe>) returns (n: nat)
    ensures n == GroundCount(Rows(e))
  {
    ghost var rows := Rows(e);
    n := 0;
    for i := 0 to e.Length0
      invariant n == GroundCount(rows[..i])
    {
      var m := 0;
      for j := 0 to e.Length1
        invariant m == Seqs.Count(rows[i][..j], Ground)
      {
        assert rows[i][..j + 1][..j] == rows[i][..j];
        if e[i, j] == Ground {
          m := m + 1;
        }
      }
      assert rows[i][..e.Length1] == rows[i];
      assert rows[..i + 1][..i] == rows[..i];
      n := n + m;
    }
    assert rows[..e.Length0] == rows;
  }

  /** `puzzle2`: walk the loop collecting its tiles, turn every other tile
      into ground, expand, remove the cells the flood fill from the corner
      reaches (`outer`, the result of the library's `bfs_reachable`) and
      count the ground that is left. */
  method Puzzle2(g: seq<seq<Pipe>>, fuel: nat, outer: set<Pos>) returns (r: Outcome)
    requires Rect(g)
    requires forall p | p in outer :: InGrid(3 * |g|, 3 * Cols(g), p)
    ensures FindStart(g, 0).None? ==> r == Panic
    ensures FindStart(g, 0).Some? && FirstMove(g, FindStart(g, 0).value).None? ==>
      r == Done(Enclosed(g, {FindStart(g, 0).value}, outer))
    ensures FindStart(g, 0).Some? && FirstMove(g, FindStart(g, 0).value).Some? ==>
      var s := FindStart(g, 0).value;
      var w0 := FirstMove(g, s).value;
      WalkEnds(g, s, w0, fuel, r, (n: nat) => Enclosed(g, {s} + Visited(g, w0, n), outer))
  {
    var start := FindStart(g, 0);
    if start.None? {
      return Panic;
    }
    r := EncloseFrom(g, start.value, fuel, outer);
  }

  /** `puzzle2` once the start tile is found. */
  method EncloseFrom(g: seq<seq<Pipe>>, s: Pos, fuel: nat, outer: set<Pos>) returns (r: Outcome)
    requires Rect(g) && InGrid(|g|, Cols(g), s)
    requires forall p | p in outer :: InGrid(3 * |g|, 3 * Cols(g), p)
    ensures FirstMove(g, s).None? ==> r == Done(Enclosed(g, {s}, outer))
    ensures FirstMove(g, s).Some? ==>
      var w0 := FirstMove(g, s).value;
      WalkEnds(g, s, w0, fuel, r, (n: nat) => Enclosed(g, {s} + Visited(g, w0, n), outer))
  {
    var w0 := ChooseExit(g, s);
    var tiles := {s};
    if w0.Some? {
      var walk, loopTiles := WalkLoop(g, s, w0.value, fuel);
      if !walk.Done? {
        return walk;
      }
      tiles := loopTiles;
    }
    var count := Enclose(g, tiles, outer);
    r := Done(count);
  }

  /** The part of `puzzle2` after the loop walk. */
  method Enclose(g: seq<seq<Pipe>>, tiles: set<Pos>, outer: set<Pos>) returns (count: nat)
    requires Rect(g)
    requires forall p | p in outer :: InGrid(3 * |g|, 3 * Cols(g), p)
    ensures count == Enclosed(g, tiles, outer)
  {
    var input := ToMatrix(g);
    ClearOffLoop(input, tiles);
    var expanded := ExpandPipes(input);
    MarkOuter(expanded, outer);
    count := CountGround(expanded);
  }
}
