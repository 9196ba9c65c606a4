/** Day 13, "Point of Incidence": finding the line of reflection in each
    pattern of ash and rocks, exactly (part one) or with one smudge (part
    two). */
module Day13 {
  import opened Wrappers
  import opened Grid

  /** A pattern: true for a rock '#'. */
  type Pattern = seq<seq<bool>>

  function ParseCell(c: char): (r: Option<bool>)
    ensures r.Some? <==> c == '.' || c == '#'
    ensures r.Some? ==> (r.value <==> c == '#')
  {
    if c == '.' then Some(false) else if c == '#' then Some(true) else None
  }

  function ParseRow(line: string): (r: Option<seq<bool>>)
    ensures r.Some? <==> forall i | 0 <= i < |line| :: line[i] == '.' || line[i] == '#'
    ensures r.Some? ==> |r.value| == |line| && forall i | 0 <= i < |line| :: (r.value[i] <==> line[i] == '#')
  {
    if line == [] then Some([])
    else
      match (ParseRow(line[..|line| - 1]), ParseCell(line[|line| - 1]))
      case (Some(init), Some(b)) => Some(init + [b])
      case _ => None
  }

  /** One block of lines as a matrix; `Matrix::from_rows` fails (and the
      `unwrap` panics) on rows of different lengths. */
  function ParsePattern(lines: seq<string>): (r: Option<Pattern>)
    ensures r.Some? <==> Rect(lines) && forall i, j | 0 <= i < |lines| && 0 <= j < |lines[i]| :: lines[i][j] == '.' || lines[i][j] == '#'
    ensures r.Some? ==> Rect(r.value) && |r.value| == |lines|
    ensures r.Some? ==>
              forall i, j | 0 <= i < |lines| && 0 <= j < |lines[i]| :: |r.value[i]| == |lines[i]| && (r.value[i][j] <==> lines[i][j] == '#')
  {
    if lines == [] then Some([])
    else
      var n := |lines|;
      match ParsePattern(lines[..n - 1])
      case None =>
        assert !(Rect(lines) && forall i, j | 0 <= i < n && 0 <= j < |lines[i]| :: lines[i][j] == '.' || lines[i][j] == '#') by {
          if Rect(lines) {
            var prefix := lines[..n - 1];
            assert Rect(prefix) by {
              forall r | 0 <= r < n - 1 ensures prefix[r] == lines[r] {
              }
            }
          }
        }
        None
      case Some(init) =>
        match ParseRow(lines[n - 1])
        case None => None
        case Some(row) => if n > 1 && |row| != |init[0]| then None else Some(init + [row])
  }

  /** The number of columns below `n` where two rows differ. */
  function RowDiff(a: seq<bool>, b: seq<bool>, n: nat): (d: nat)
    requires n <= |a| && n <= |b|
    ensures d == 0 <==> a[..n] == b[..n]
    ensures d <= n
  {
    if n == 0 then 0
    else
      var d := RowDiff(a, b, n - 1) + (if a[n - 1] != b[n - 1] then 1 else 0);
      assert a[..n] == a[..n - 1] + [a[n - 1]] && b[..n] == b[..n - 1] + [b[n - 1]];
      d
  }

  function Min(a: int, b: int): int {
    if a <= b then a else b
  }

  /** The number of row pairs mirrored across the line above row `y`. */
  function Span(rows: int, y: int): int {
    Min(y, rows - y)
  }

  /** The differences summed over the first `d` mirrored pairs: rows y-1
      and y, y-2 and y+1, and so on. */
  function TotalDiff(g: Pattern, y: int, d: nat): nat
    requires Rect(g) && 1 <= y < |g| && d <= Span(|g|, y)
  {
    if d == 0 then 0 else TotalDiff(g, y, d - 1) + RowDiff(g[y + d - 1], g[y - d], Cols(g))
  }

  /** The intended acceptance: the line above row `y` reflects the pattern
      with exactly `smudges` differing cells. */
  predicate Reflects(g: Pattern, y: int, smudges: nat) {
    Rect(g) && 1 <= y < |g| && TotalDiff(g, y, Span(|g|, y)) == smudges
  }

  /** What the loops accept: a reflection whose exit test is reached, which
      needs the first `diff` past the mirrored pairs to be below `rows`. */
  predicate Accepts(g: Pattern, y: int, smudges: nat) {
    Reflects(g, y, smudges) && Span(|g|, y) + 1 <= |g| - 1
  }

  lemma {:induction false} TotalDiffMonotone(g: Pattern, y: int, d: nat, e: nat)
    requires Rect(g) && 1 <= y < |g| && d <= e <= Span(|g|, y)
    ensures TotalDiff(g, y, d) <= TotalDiff(g, y, e)
    decreases e
  {
    if d < e {
      TotalDiffMonotone(g, y, d, e - 1);
    }
  }

  predicate MirrorPair(g: Pattern, y: int, k: int)
    requires 1 <= k <= y && y + k <= |g|
  {
    g[y + k - 1] == g[y - k]
  }

  lemma RowDiffZero(g: Pattern, a: nat, b: nat)
    requires Rect(g) && a < |g| && b < |g|
    ensures RowDiff(g[a], g[b], Cols(g)) == 0 <==> g[a] == g[b]
  {
    assert g[a][..Cols(g)] == g[a] && g[b][..Cols(g)] == g[b];
  }

  /** A perfect reflection: every mirrored pair of rows is equal. */
  lemma {:induction false} PerfectMirror(g: Pattern, y: int, d: nat)
    requires Rect(g) && 1 <= y < |g| && d <= Span(|g|, y)
    ensures TotalDiff(g, y, d) == 0 <==> forall k | 1 <= k <= d :: MirrorPair(g, y, k)
    decreases d
  {
    if d > 0 {
      PerfectMirror(g, y, d - 1);
      RowDiffZero(g, y + d - 1, y - d);
      if forall k | 1 <= k <= d :: MirrorPair(g, y, k) {
        assert MirrorPair(g, y, d);
        assert forall k | 1 <= k <= d - 1 :: MirrorPair(g, y, k);
      }
    }
  }

  /** What the loops return: the first line from `from` on, top to bottom,
      that they accept. */
  function Found(g: Pattern, smudges: nat, from: nat): (r: Option<nat>)
    requires Rect(g)
    ensures r.Some? ==> from <= r.value && Accepts(g, r.value, smudges)
    ensures r.Some? ==> forall y | from <= y < r.value :: !Accepts(g, y, smudges)
    ensures r.None? ==> forall y | from <= y < |g| :: !Accepts(g, y, smudges)
    decreases |g| - from
  {
    if from >= |g| then None
    else if Accepts(g, from, smudges) then Some(from)
    else Found(g, smudges, from + 1)
  }

  /** The first accepted line is determined by which lines are accepted. */
  lemma {:induction false} FoundFrom(g: Pattern, smudges: nat, from: nat, r: Option<nat>)
    requires Rect(g)
    requires r.Some? ==> from <= r.value && Accepts(g, r.value, smudges)
    requires r.Some? ==> forall y | from <= y < r.value :: !Accepts(g, y, smudges)
    requires r.None? ==> forall y | from <= y < |g| :: !Accepts(g, y, smudges)
    ensures r == Found(g, smudges, from)
    decreases |g| - from
  {
    if from < |g| && !(r.Some? && r.value == from) {
      FoundFrom(g, smudges, from + 1, r);
    }
  }

  /** `find_mirror`: the first line, top to bottom, with a perfect
      reflection that the loops accept. */
  method FindMirror(g: Pattern) returns (r: Option<nat>)
    requires Rect(g)
    ensures r.Some? ==> Accepts(g, r.value, 0) && forall y | 1 <= y < r.value :: !Accepts(g, y, 0)
    ensures r.None? ==> forall y | 1 <= y < |g| :: !Accepts(g, y, 0)
    ensures r == Found(g, 0, 1)
  {
    var rows := |g|;
    var y := 1;
    while y < rows
      invariant 1 <= y && forall y' | 1 <= y' < y :: !Accepts(g, y', 0)
    {
      var diff := 1;
      while diff < rows
        invariant 1 <= diff <= Span(rows, y) + 1
        invariant TotalDiff(g, y, diff - 1) == 0
      {
        if diff > y || y + diff > rows {
          FoundFrom(g, 0, 1, Some(y));
          return Some(y);
        }
        if RowDiff(g[y + diff - 1], g[y - diff], Cols(g)) > 0 {
          TotalDiffMonotone(g, y, diff, Span(rows, y));
          break;
        }
        diff := diff + 1;
      }
      y := y + 1;
    }
    FoundFrom(g, 0, 1, None);
    return None;
  }

  /** `find_mirror_smudged`: the first accepted line whose mirrored pairs
      differ in exactly one cell altogether. */
  method FindMirrorSmudged(g: Pattern) returns (r: Option<nat>)
    requires Rect(g)
    ensures r.Some? ==> Accepts(g, r.value, 1) && forall y | 1 <= y < r.value :: !Accepts(g, y, 1)
    ensures r.None? ==> forall y | 1 <= y < |g| :: !Accepts(g, y, 1)
    ensures r == Found(g, 1, 1)
  {
    var rows := |g|;
    var y := 1;
    while y < rows
      invariant 1 <= y && forall y' | 1 <= y' < y :: !Accepts(g, y', 1)
    {
      var found := SmudgedAt(g, y);
      if found {
        FoundFrom(g, 1, 1, Some(y));
        return Some(y);
      }
      y := y + 1;
    }
    FoundFrom(g, 1, 1, None);
    return None;
  }

  /** The inner loop of `find_mirror_smudged` for line y: whether it
      returns y, having met exactly one differing cell. */
  method SmudgedAt(g: Pattern, y: nat) returns (found: bool)
    requires Rect(g) && 1 <= y < |g|
    ensures found <==> Accepts(g, y, 1)
  {
    var rows := |g|;
    var smudged := false;
    var diff := 1;
    while diff < rows
      invariant 1 <= diff <= Span(rows, y) + 1
      invariant TotalDiff(g, y, diff - 1) == if smudged then 1 else 0
    {
      if diff > y || y + diff > rows {
        return smudged;
      }
      var count := RowDiff(g[y + diff - 1], g[y - diff], Cols(g));
      if count == 0 {
      } else if count == 1 && smudged {
        TotalDiffMonotone(g, y, diff, Span(rows, y));
        return false;
      } else if count == 1 {
        smudged := true;
      } else {
        TotalDiffMonotone(g, y, diff, Span(rows, y));
        return false;
      }
      diff := diff + 1;
    }
    return false;
  }

  /** A two-row pattern with equal rows reflects across its middle, but
      the loops never reach the exit test for it. */
  lemma TwoRowsMissed()
    ensures Reflects([[true], [true]], 1, 0) && !Accepts([[true], [true]], 1, 0)
  {
    var g := [[true], [true]];
    assert TotalDiff(g, 1, 1) == TotalDiff(g, 1, 0) + RowDiff(g[1], g[0], 1);
  }

  /** Only two-row patterns are affected: otherwise the exit test is
      always reached. */
  lemma AcceptsUnlessTwoRows(g: Pattern, y: int, smudges: nat)
    requires |g| != 2
    ensures Accepts(g, y, smudges) <==> Reflects(g, y, smudges)
  {
  }

  /** The intended search: the first line, top to bottom, reflecting with
      exactly `smudges` differences, also in a two-row pattern. */
  function Reflection(g: Pattern, smudges: nat, from: nat): (r: Option<nat>)
    requires Rect(g)
    ensures r.Some? ==> from <= r.value && Reflects(g, r.value, smudges)
    ensures r.Some? ==> forall y | from <= y < r.value :: !Reflects(g, y, smudges)
    ensures r.None? ==> forall y | from <= y < |g| :: !Reflects(g, y, smudges)
    decreases |g| - from
  {
    if from >= |g| then None
    else if Reflects(g, from, smudges) then Some(from)
    else Reflection(g, smudges, from + 1)
  }

  /** On any pattern that does not have two rows, the loops find what the
      intended search finds. */
  lemma FindMirrorAgrees(g: Pattern, smudges: nat)
    requires Rect(g) && |g| != 2
    ensures Found(g, smudges, 1) == Reflection(g, smudges, 1)
  {
    forall y ensures Accepts(g, y, smudges) <==> Reflects(g, y, smudges) {
      AcceptsUnlessTwoRows(g, y, smudges);
    }
    FoundFrom(g, smudges, 1, Reflection(g, smudges, 1));
  }

  /** A pattern's summary as the code computes it: 100 per row above the
      horizontal line the loops accept plus the columns left of the
      vertical one, 0 where they accept none. */
  function Score(g: Pattern, smudges: nat): (s: nat)
    requires Rect(g)
    ensures s == 0 <==> Found(g, smudges, 1).None? && Found(RotateCW(g), smudges, 1).None?
  {
    100 * Found(g, smudges, 1).GetOr(0) + Found(RotateCW(g), smudges, 1).GetOr(0)
  }

  /** The same summary with the intended search. */
  function CorrectedScore(g: Pattern, smudges: nat): (s: nat)
    requires Rect(g)
    ensures s == 0 <==> Reflection(g, smudges, 1).None? && Reflection(RotateCW(g), smudges, 1).None?
  {
    100 * Reflection(g, smudges, 1).GetOr(0) + Reflection(RotateCW(g), smudges, 1).GetOr(0)
  }

  /** The two summaries differ only on patterns of two rows or two
      columns. */
  lemma ScoreAgrees(g: Pattern, smudges: nat)
    requires Rect(g) && |g| != 2 && Cols(g) != 2
    ensures Score(g, smudges) == CorrectedScore(g, smudges)
  {
    FindMirrorAgrees(g, smudges);
    FindMirrorAgrees(RotateCW(g), smudges);
  }

  predicate AllRect(ps: seq<Pattern>) {
    forall i | 0 <= i < |ps| :: Rect(ps[i])
  }

  /** No pattern has two rows or two columns. */
  predicate NoPairs(ps: seq<Pattern>)
    requires AllRect(ps)
  {
    forall i | 0 <= i < |ps| :: |ps[i]| != 2 && Cols(ps[i]) != 2
  }

  /** The summed summaries as the code computes them. */
  function Total(ps: seq<Pattern>, smudges: nat): (t: nat)
    requires AllRect(ps)
    ensures t == 0 <==> forall i | 0 <= i < |ps| :: Score(ps[i], smudges) == 0
  {
    if ps == [] then 0
    else
      var init := ps[..|ps| - 1];
      assert forall i | 0 <= i < |init| :: init[i] == ps[i];
      Total(init, smudges) + Score(ps[|ps| - 1], smudges)
  }

  /** The summed summaries with the intended search. */
  function CorrectedTotal(ps: seq<Pattern>, smudges: nat): (t: nat)
    requires AllRect(ps)
    ensures t == 0 <==> forall i | 0 <= i < |ps| :: CorrectedScore(ps[i], smudges) == 0
  {
    if ps == [] then 0
    else
      var init := ps[..|ps| - 1];
      assert forall i | 0 <= i < |init| :: init[i] == ps[i];
      CorrectedTotal(init, smudges) + CorrectedScore(ps[|ps| - 1], smudges)
  }

  /** Without two-row or two-column patterns the code's total is the
      intended one. */
  lemma {:induction false} TotalAgrees(ps: seq<Pattern>, smudges: nat)
    requires AllRect(ps) && NoPairs(ps)
    ensures Total(ps, smudges) == CorrectedTotal(ps, smudges)
  {
    if ps != [] {
      var init := ps[..|ps| - 1];
      assert AllRect(init) && NoPairs(init);
      TotalAgrees(init, smudges);
      ScoreAgrees(ps[|ps| - 1], smudges);
    }
  }

  /** The pattern `#` over `#` has a horizontal mirror between its rows,
      worth 100, but the code's total for it is 0. */
  lemma TwoRowsTotal()
    ensures Total([[[true], [true]]], 0) == 0
    ensures CorrectedTotal([[[true], [true]]], 0) == 100
  {
    var g := [[true], [true]];
    TwoRowsMissed();
    assert Found(g, 0, 1) == None;
    assert Reflection(g, 0, 1) == Some(1);
    assert [[[true], [true]]][..0] == [];
  }

  /** One search of a pattern, as `puzzle1` (smudges 0) or `puzzle2`
      (smudges 1) calls it. */
  method Search(g: Pattern, smudges: nat) returns (r: Option<nat>)
    requires Rect(g) && smudges <= 1
    ensures r == Found(g, smudges, 1)
  {
    if smudges == 0 {
      r := FindMirror(g);
    } else {
      r := FindMirrorSmudged(g);
    }
  }

  /** `puzzle1` (smudges 0) and `puzzle2` (smudges 1): the summed scores of
      the loops' answers, which are the intended ones unless a pattern has
      two rows or two columns. */
  method Puzzle(ps: seq<Pattern>, smudges: nat) returns (total: int)
    requires AllRect(ps) && smudges <= 1
    ensures total == Total(ps, smudges)
    ensures NoPairs(ps) ==> total == CorrectedTotal(ps, smudges)
  {
    total := 0;
    for i := 0 to |ps|
      invariant total == Total(ps[..i], smudges)
    {
      assert ps[..i + 1][..i] == ps[..i];
      var h := Search(ps[i], smudges);
      var v := Search(RotateCW(ps[i]), smudges);
      total := total + (h.GetOr(0) * 100 + v.GetOr(0));
    }
    assert ps[..|ps|] == ps;
    if NoPairs(ps) {
      TotalAgrees(ps, smudges);
    }
  }
}
