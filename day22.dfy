/** Day 22, "Sand Slabs": bricks, each an axis-aligned box between two
    corners, fall until they rest on the ground (z = 0) or on a brick
    below; the answers count the bricks whose removal lets nothing fall,
    and sum over all bricks how many others would fall with it. */
module Day22 {
  import opened Wrappers
  import opened Seqs
  import opened Sorting
  import opened Text
  import opened Numbers

  type Point = (int, int, int)

  /** Two corners, lower first on every axis. */
  type Block = (Point, Point)

  /** The range of `i64`. */
  const I64: nat := 0x8000_0000_0000_0000

  predicate Ordered(b: Block) {
    b.0.0 <= b.1.0 && b.0.1 <= b.1.1 && b.0.2 <= b.1.2
  }

  /** "x,y,z": the last coordinate is everything after the second comma. */
  function ParsePoint(s: string): (r: Option<Point>)
  {
    var xs := SplitOnce(s, ',');
    if xs.None? then None
    else
      var yz := SplitOnce(xs.value.1, ',');
      if yz.None? then None
      else
        var x, y, z := ParseSigned(xs.value.0, I64), ParseSigned(yz.value.0, I64), ParseSigned(yz.value.1, I64);
        if x.None? || y.None? || z.None? then None else Some((x.value, y.value, z.value))
  }

  /** A line "x1,y1,z1~x2,y2,z2"; a missing separator, a bad number or
      corners out of order panic. */
  function ParseBlock(l: string): (r: Option<Block>)
    ensures r.Some? ==> Ordered(r.value)
  {
    var be := SplitOnce(l, '~');
    if be.None? then None
    else
      var beg, end := ParsePoint(be.value.0), ParsePoint(be.value.1);
      if beg.None? || end.None? || !Ordered((beg.value, end.value)) then None
      else Some((beg.value, end.value))
  }

  function PointText(p: Point): string {
    SignedDigits(p.0) + [','] + SignedDigits(p.1) + [','] + SignedDigits(p.2)
  }

  function BlockText(b: Block): string {
    PointText(b.0) + ['~'] + PointText(b.1)
  }

  predicate InI64(v: int) {
    -(I64 as int) <= v < I64
  }

  predicate PointInI64(p: Point) {
    InI64(p.0) && InI64(p.1) && InI64(p.2)
  }

  lemma SignedDigitsNoSeparator(v: int)
    ensures ',' !in SignedDigits(v) && '~' !in SignedDigits(v)
  {
    SignedDigitsChars(v);
  }

  lemma ParsePointText(p: Point)
    requires PointInI64(p)
    ensures ParsePoint(PointText(p)) == Some(p)
    ensures '~' !in PointText(p)
  {
    var x, y, z := SignedDigits(p.0), SignedDigits(p.1), SignedDigits(p.2);
    SignedDigitsNoSeparator(p.0);
    SignedDigitsNoSeparator(p.1);
    SignedDigitsNoSeparator(p.2);
    assert PointText(p) == x + [','] + (y + [','] + z);
    SplitOnceAt(x, ',', y + [','] + z);
    SplitOnceAt(y, ',', z);
    ParseSignedDigits(p.0, I64);
    ParseSignedDigits(p.1, I64);
    ParseSignedDigits(p.2, I64);
  }

  /** An ordered brick within `i64` reads back from its line. */
  lemma ParseBlockText(b: Block)
    requires Ordered(b) && PointInI64(b.0) && PointInI64(b.1)
    ensures ParseBlock(BlockText(b)) == Some(b)
  {
    ParsePointText(b.0);
    ParsePointText(b.1);
    SplitOnceAt(PointText(b.0), '~', PointText(b.1));
  }

  /** `parse_input` after reading the file: every non-empty line. */
  function ParseBlocks(lines: seq<string>): (r: Option<seq<Block>>)
    ensures r.Some? ==> forall i | 0 <= i < |r.value| :: Ordered(r.value[i])
  {
    if lines == [] then Some([])
    else
      var init := ParseBlocks(lines[..|lines| - 1]);
      var l := lines[|lines| - 1];
      if init.None? then None
      else if l == [] then init
      else
        var b := ParseBlock(l);
        if b.None? then None else Some(init.value + [b.value])
  }

  function Z1(b: Block): int {
    b.0.2
  }

  /** The brick one unit lower. */
  function Lower(b: Block): Block {
    ((b.0.0, b.0.1, b.0.2 - 1), (b.1.0, b.1.1, b.1.2 - 1))
  }

  /** `one_down`: none on the ground, else one unit lower. */
  function OneDown(b: Block): (r: Option<Block>)
    ensures r.None? <==> b.0.2 == 0
    ensures r.Some? ==> r.value.0.2 == b.0.2 - 1 && r.value.1.2 == b.1.2 - 1
    ensures r.Some? ==> r.value.0.0 == b.0.0 && r.value.0.1 == b.0.1 && r.value.1.0 == b.1.0 && r.value.1.1 == b.1.1
  {
    if b.0.2 == 0 then None else Some(Lower(b))
  }

  /** `intersects`: the boxes overlap on every axis, ends included. */
  predicate Intersects(a: Block, b: Block) {
    a.0.0 <= b.1.0 && a.1.0 >= b.0.0 && a.0.1 <= b.1.1 && a.1.1 >= b.0.1 && a.0.2 <= b.1.2 && a.1.2 >= b.0.2
  }

  lemma IntersectsSymmetric(a: Block, b: Block)
    ensures Intersects(a, b) <==> Intersects(b, a)
  {
  }

  predicate Inside(p: Point, b: Block) {
    b.0.0 <= p.0 <= b.1.0 && b.0.1 <= p.1 <= b.1.1 && b.0.2 <= p.2 <= b.1.2
  }

  function Max(a: int, b: int): int {
    if a < b then b else a
  }

  /** Ordered bricks intersect exactly when some point lies in both. */
  lemma IntersectsCommonPoint(a: Block, b: Block)
    requires Ordered(a) && Ordered(b)
    ensures Intersects(a, b) <==> exists p :: Inside(p, a) && Inside(p, b)
  {
    if Intersects(a, b) {
      var p := (Max(a.0.0, b.0.0), Max(a.0.1, b.0.1), Max(a.0.2, b.0.2));
      assert Inside(p, a) && Inside(p, b);
    }
  }

  /** Some brick of `below` is in the way. */
  predicate Blocked(below: seq<Block>, b: Block) {
    exists j | 0 <= j < |below| :: Intersects(b, below[j])
  }

  /** The inner loop of `fall_blocks`: lower the brick while it is off the
      ground and its lowered copy meets none of the bricks before it. */
  function Drop(below: seq<Block>, cur: Block): (r: Block)
    requires cur.0.2 >= 0
    ensures r.0.2 >= 0 && r.0.2 <= cur.0.2 && r.1.2 - r.0.2 == cur.1.2 - cur.0.2
    ensures r.0.0 == cur.0.0 && r.0.1 == cur.0.1 && r.1.0 == cur.1.0 && r.1.1 == cur.1.1
    ensures r.0.2 == 0 || Blocked(below, Lower(r))
    decreases cur.0.2
  {
    var d := OneDown(cur);
    if d.None? || Blocked(below, d.value) then cur else Drop(below, d.value)
  }

  predicate AboveGround(s: seq<Block>) {
    forall i | 0 <= i < |s| :: s[i].0.2 >= 0
  }

  /** `fall_blocks`: each brick in turn dropped onto the ones already
      dropped before it. */
  function Fallen(s: seq<Block>): (r: seq<Block>)
    requires AboveGround(s)
    ensures |r| == |s| && AboveGround(r)
  {
    if s == [] then []
    else
      var f := Fallen(s[..|s| - 1]);
      f + [Drop(f, s[|s| - 1])]
  }

  lemma {:induction false} FallenPrefix(s: seq<Block>, k: nat)
    requires AboveGround(s) && k <= |s|
    ensures Fallen(s[..k]) == Fallen(s)[..k]
  {
    if k < |s| {
      var init := s[..|s| - 1];
      assert AboveGround(init);
      FallenPrefix(init, k);
      assert init[..k] == s[..k];
    } else {
      assert s[..k] == s;
    }
  }

  /** Falling only lowers a brick: same x and y extents, same height, a
      lower or equal bottom. */
  lemma FallenShape(s: seq<Block>, i: nat)
    requires AboveGround(s) && i < |s|
    ensures var r := Fallen(s)[i];
      && r.0.0 == s[i].0.0 && r.0.1 == s[i].0.1 && r.1.0 == s[i].1.0 && r.1.1 == s[i].1.1
      && r.1.2 - r.0.2 == s[i].1.2 - s[i].0.2 && 0 <= r.0.2 <= s[i].0.2
  {
    FallenPrefix(s, i + 1);
    assert s[..i + 1][..i] == s[..i];
  }

  /** After falling every brick rests on the ground or on a brick before
      it. */
  lemma FallenSettled(s: seq<Block>, i: nat)
    requires AboveGround(s) && i < |s|
    ensures var r := Fallen(s);
      r[i].0.2 == 0 || exists j | 0 <= j < i :: Intersects(Lower(r[i]), r[j])
  {
    FallenPrefix(s, i + 1);
    FallenPrefix(s, i);
    assert s[..i + 1][..i] == s[..i];
    var r := Fallen(s);
    if r[i].0.2 != 0 {
      assert Blocked(r[..i], Lower(r[i]));
      var j :| 0 <= j < i && Intersects(Lower(r[i]), r[..i][j]);
      assert r[..i][j] == r[j];
    }
  }

  /** `(0..i).rev().any(|j| intersects(b, a[j]))`. */
  method AnyBelow(a: array<Block>, i: nat, b: Block) returns (hit: bool)
    requires i <= a.Length
    ensures hit <==> Blocked(a[..i], b)
  {
    var j := i;
    while j > 0
      invariant 0 <= j <= i
      invariant forall k | j <= k < i :: !Intersects(b, a[k])
    {
      j := j - 1;
      if Intersects(b, a[j]) {
        assert a[..i][j] == a[j];
        return true;
      }
    }
    return false;
  }

  /** The inner loop of `fall_blocks` for brick i. */
  method DropAt(a: array<Block>, i: nat, b: Block) returns (cur: Block)
    requires i <= a.Length && b.0.2 >= 0
    ensures cur == Drop(a[..i], b)
  {
    cur := b;
    while true
      invariant cur.0.2 >= 0 && Drop(a[..i], cur) == Drop(a[..i], b)
      decreases cur.0.2
    {
      var f := OneDown(cur);
      if f.None? {
        return;
      }
      var hit := AnyBelow(a, i, f.value);
      if hit {
        return;
      }
      cur := f.value;
    }
  }

  /** `fall_blocks`, in place. */
  method FallBlocks(a: array<Block>)
    requires AboveGround(a[..])
    modifies a
    ensures a[..] == Fallen(old(a[..]))
  {
    ghost var s := a[..];
    for i := 0 to a.Length
      invariant forall k | i <= k < a.Length :: a[k] == s[k]
      invariant a[..i] == Fallen(s[..i])
    {
      assert s[..i + 1][..i] == s[..i];
      var cur := DropAt(a, i, a[i]);
      a[i] := cur;
      assert a[..i + 1] == a[..i] + [cur];
    }
    assert s[..a.Length] == s;
    assert a[..a.Length] == a[..];
  }

  /** `would_fall(skip)`: some brick off the ground meets, lowered, no
      brick before it except possibly the skipped one. */
  predicate WouldFallSpec(s: seq<Block>, skip: nat) {
    exists i | 0 <= i < |s| :: s[i].0.2 != 0 && forall j | 0 <= j < i && j != skip :: !Intersects(Lower(s[i]), s[j])
  }

  method WouldFall(s: seq<Block>, skip: nat) returns (r: bool)
    ensures r <==> WouldFallSpec(s, skip)
  {
    for i := 0 to |s|
      invariant forall k | 0 <= k < i :: !(s[k].0.2 != 0 && forall j | 0 <= j < k && j != skip :: !Intersects(Lower(s[k]), s[j]))
    {
      var f := OneDown(s[i]);
      if f.Some? {
        var all := true;
        var j := i;
        while j > 0
          invariant 0 <= j <= i
          invariant all <==> forall k | j <= k < i && k != skip :: !Intersects(f.value, s[k])
        {
          j := j - 1;
          all := all && (j == skip || !Intersects(f.value, s[j]));
        }
        if all {
          return true;
        }
      }
    }
    return false;
  }

  /** Sorting by bottom keeps every brick above ground. */
  lemma SortAboveGround(s: seq<Block>)
    requires AboveGround(s)
    ensures AboveGround(SortByKey(s, Z1))
  {
    var sorted := SortByKey(s, Z1);
    forall i | 0 <= i < |sorted| ensures sorted[i].0.2 >= 0 {
      assert sorted[i] in multiset(s);
    }
  }

  /** The bricks after the puzzles' preparation: sorted by bottom, fallen,
      sorted by bottom again. */
  function Settle(s: seq<Block>): (r: seq<Block>)
    requires AboveGround(s)
    ensures |r| == |s| && SortedByKey(r, Z1)
  {
    SortAboveGround(s);
    SortByKey(Fallen(SortByKey(s, Z1)), Z1)
  }

  method Prepare(blocks: seq<Block>) returns (settled: seq<Block>)
    requires AboveGround(blocks)
    ensures settled == Settle(blocks)
  {
    var sorted := SortByKey(blocks, Z1);
    SortAboveGround(blocks);
    var a := new Block[|sorted|];
    forall i | 0 <= i < |sorted| {
      a[i] := sorted[i];
    }
    assert a[..] == sorted;
    FallBlocks(a);
    settled := SortByKey(a[..], Z1);
  }

  /** The number of bricks below k whose removal lets nothing fall. */
  function SafeCount(s: seq<Block>, k: nat): (r: nat)
    requires k <= |s|
    ensures r <= k
  {
    if k == 0 then 0 else SafeCount(s, k - 1) + (if WouldFallSpec(s, k - 1) then 0 else 1)
  }

  /** `puzzle1` on parsed bricks. */
  method Puzzle1(blocks: seq<Block>) returns (count: nat)
    requires AboveGround(blocks)
    ensures count == SafeCount(Settle(blocks), |blocks|)
  {
    var settled := Prepare(blocks);
    count := 0;
    for i := 0 to |settled|
      invariant count == SafeCount(settled, i)
    {
      var falls := WouldFall(settled, i);
      if !falls {
        count := count + 1;
      }
    }
  }

  /** The supports of brick i among the first k bricks: those its lowered
      copy meets, from the highest index down. */
  function SupportsOf(s: seq<Block>, i: nat, k: nat): (r: seq<nat>)
    requires i < |s| && k <= i
    ensures forall m | 0 <= m < |r| :: r[m] < k
    ensures forall m, n | 0 <= m < n < |r| :: r[m] > r[n]
  {
    if k == 0 then []
    else
      var rest := SupportsOf(s, i, k - 1);
      if Intersects(Lower(s[i]), s[k - 1]) then [k - 1] + rest else rest
  }

  lemma {:induction false} SupportsOfMembers(s: seq<Block>, i: nat, k: nat, j: nat)
    requires i < |s| && k <= i
    ensures j in SupportsOf(s, i, k) <==> j < k && Intersects(Lower(s[i]), s[j])
  {
    if k > 0 {
      SupportsOfMembers(s, i, k - 1, j);
    }
  }

  /** `map_supports`: no supports for a brick on the ground. */
  function SupportRow(s: seq<Block>, i: nat): seq<nat>
    requires i < |s|
  {
    if s[i].0.2 == 0 then [] else SupportsOf(s, i, i)
  }

  function Supports(s: seq<Block>): (r: seq<seq<nat>>)
    ensures |r| == |s|
  {
    seq(|s|, i requires 0 <= i < |s| => SupportRow(s, i))
  }

  /** A brick's supports are exactly the earlier bricks that its lowered
      copy meets, and none for a brick on the ground. */
  lemma SupportsMembers(s: seq<Block>, i: nat, j: nat)
    requires i < |s|
    ensures j in Supports(s)[i] <==> s[i].0.2 != 0 && j < i && Intersects(Lower(s[i]), s[j])
  {
    SupportsOfMembers(s, i, i, j);
  }

  method SupportsRow(s: seq<Block>, i: nat) returns (row: seq<nat>)
    requires i < |s|
    ensures row == SupportRow(s, i)
  {
    var f := OneDown(s[i]);
    if f.None? {
      return [];
    }
    assert f.value == Lower(s[i]);
    row := [];
    var j := i;
    while j > 0
      invariant 0 <= j <= i
      invariant row + SupportsOf(s, i, j) == SupportsOf(s, i, i)
    {
      j := j - 1;
      if Intersects(f.value, s[j]) {
        assert SupportsOf(s, i, j + 1) == [j] + SupportsOf(s, i, j);
        assert (row + [j]) + SupportsOf(s, i, j) == row + ([j] + SupportsOf(s, i, j));
        row := row + [j];
      }
    }
    assert SupportsOf(s, i, 0) == [];
  }

  method MapSupports(s: seq<Block>) returns (ret: seq<seq<nat>>)
    ensures ret == Supports(s)
  {
    ret := [];
    for i := 0 to |s|
      invariant |ret| == i && forall k | 0 <= k < i :: ret[k] == SupportRow(s, k)
    {
      var row := SupportsRow(s, i);
      ret := ret + [row];
    }
  }

  /** Supports point backwards: every support of i is below i. */
  predicate Backward(supports: seq<seq<nat>>) {
    forall i, m | 0 <= i < |supports| && 0 <= m < |supports[i]| :: supports[i][m] < i
  }

  predicate AllIn(xs: seq<nat>, d: set<nat>) {
    forall n | 0 <= n < |xs| :: xs[n] in d
  }

  /** The bricks marked in `count_fall` after the first k: the skipped one,
      and each brick with supports that are all marked. */
  function Marked(supports: seq<seq<nat>>, skip: nat, k: nat): (d: set<nat>)
    requires k <= |supports|
    ensures skip in d && forall i | i in d :: i == skip || i < k
  {
    if k == 0 then {skip}
    else
      var d := Marked(supports, skip, k - 1);
      if supports[k - 1] != [] && AllIn(supports[k - 1], d) then d + {k - 1} else d
  }

  /** A brick falls with the skipped one when it has supports and every
      support is the skipped brick or falls itself. */
  predicate Falls(supports: seq<seq<nat>>, skip: nat, i: nat)
    requires i < |supports| && Backward(supports)
    decreases i
  {
    supports[i] != [] && forall m | 0 <= m < |supports[i]| :: supports[i][m] == skip || Falls(supports, skip, supports[i][m])
  }

  /** A brick is marked exactly when it is the skipped one or falls. */
  lemma {:induction false} MarkedFalls(supports: seq<seq<nat>>, skip: nat, k: nat, i: nat)
    requires k <= |supports| && Backward(supports)
    ensures i in Marked(supports, skip, k) <==> i == skip || (i < k && Falls(supports, skip, i))
  {
    if k > 0 {
      MarkedFalls(supports, skip, k - 1, i);
      var d := Marked(supports, skip, k - 1);
      var xs := supports[k - 1];
      forall n | 0 <= n < |xs| ensures xs[n] in d <==> xs[n] == skip || Falls(supports, skip, xs[n]) {
        MarkedFalls(supports, skip, k - 1, xs[n]);
      }
    }
  }

  /** `count_fall`: how many bricks are marked besides the skipped one. */
  function CountFallSpec(supports: seq<seq<nat>>, skip: nat): nat {
    |Marked(supports, skip, |supports|) - {skip}|
  }

  method CountFall(supports: seq<seq<nat>>, skip: nat) returns (r: nat)
    ensures r == CountFallSpec(supports, skip)
  {
    var dis: set<nat> := {skip};
    for i := 0 to |supports|
      invariant dis == Marked(supports, skip, i)
    {
      var all := true;
      for m := 0 to |supports[i]|
        invariant all <==> forall n | 0 <= n < m :: supports[i][n] in dis
      {
        all := all && supports[i][m] in dis;
      }
      if supports[i] != [] && all {
        dis := dis + {i};
      }
    }
    assert dis == (dis - {skip}) + {skip};
    r := |dis| - 1;
  }

  function FallSum(supports: seq<seq<nat>>, k: nat): nat
    requires k <= |supports|
  {
    if k == 0 then 0 else FallSum(supports, k - 1) + CountFallSpec(supports, k - 1)
  }

  /** `puzzle2` on parsed bricks. */
  method Puzzle2(blocks: seq<Block>) returns (total: nat)
    requires AboveGround(blocks)
    ensures total == FallSum(Supports(Settle(blocks)), |blocks|)
  {
    var settled := Prepare(blocks);
    var supports := MapSupports(settled);
    total := 0;
    for i := 0 to |settled|
      invariant total == FallSum(supports, i)
    {
      var c := CountFall(supports, i);
      total := total + c;
    }
  }

  /** Every brick off the ground rests on a brick before it. */
  predicate Settled(s: seq<Block>) {
    forall i | 0 <= i < |s| && s[i].0.2 != 0 :: exists j | 0 <= j < i :: Intersects(Lower(s[i]), s[j])
  }

  lemma FallenIsSettled(s: seq<Block>)
    requires AboveGround(s)
    ensures Settled(Fallen(s))
  {
    forall i | 0 <= i < |s| && Fallen(s)[i].0.2 != 0
      ensures exists j | 0 <= j < i :: Intersects(Lower(Fallen(s)[i]), Fallen(s)[j])
    {
      FallenSettled(s, i);
    }
  }

  lemma SupportsBackward(s: seq<Block>)
    ensures Backward(Supports(s))
  {
    var sup := Supports(s);
    forall i, m | 0 <= i < |sup| && 0 <= m < |sup[i]| ensures sup[i][m] < i {
      SupportsMembers(s, i, sup[i][m]);
    }
  }

  /** On settled bricks, a brick whose removal lets something fall takes
      at least one other brick with it. */
  lemma WouldFallCounts(s: seq<Block>, skip: nat)
    requires Settled(s) && WouldFallSpec(s, skip)
    ensures CountFallSpec(Supports(s), skip) > 0
  {
    var sup := Supports(s);
    SupportsBackward(s);
    var i :| 0 <= i < |s| && s[i].0.2 != 0 && forall j | 0 <= j < i && j != skip :: !Intersects(Lower(s[i]), s[j]);
    var j :| 0 <= j < i && Intersects(Lower(s[i]), s[j]);
    SupportsMembers(s, i, j);
    forall m | 0 <= m < |sup[i]| ensures sup[i][m] == skip {
      SupportsMembers(s, i, sup[i][m]);
    }
    MarkedFalls(sup, skip, |sup|, i);
    assert i in Marked(sup, skip, |sup|) - {skip};
  }

  /** Conversely, when some other brick falls with a removed one, some
      brick rests on the removed one alone. */
  lemma CountedWouldFall(s: seq<Block>, skip: nat)
    requires CountFallSpec(Supports(s), skip) > 0
    ensures WouldFallSpec(s, skip)
  {
    var sup := Supports(s);
    SupportsBackward(s);
    var i := FirstFalling(sup, skip, Marked(sup, skip, |sup|));
    SupportsMembers(s, i, sup[i][0]);
    forall j | 0 <= j < i && j != skip ensures !Intersects(Lower(s[i]), s[j]) {
      assert j !in sup[i];
      SupportsMembers(s, i, j);
    }
  }

  /** On settled bricks the puzzles agree: removing a brick lets something
      fall (puzzle 1) exactly when at least one other brick falls with it
      (puzzle 2). */
  lemma WouldFallIffCount(s: seq<Block>, skip: nat)
    requires Settled(s)
    ensures WouldFallSpec(s, skip) <==> CountFallSpec(Supports(s), skip) > 0
  {
    if WouldFallSpec(s, skip) {
      WouldFallCounts(s, skip);
    } else if CountFallSpec(Supports(s), skip) > 0 {
      CountedWouldFall(s, skip);
    }
  }

  /** The lowest brick that falls: all its supports are the skipped one. */
  lemma FirstFalling(sup: seq<seq<nat>>, skip: nat, d: set<nat>) returns (i: nat)
    requires Backward(sup) && d == Marked(sup, skip, |sup|) && |d - {skip}| > 0
    ensures i < |sup| && i != skip && sup[i] != []
    ensures forall m | 0 <= m < |sup[i]| :: sup[i][m] == skip
  {
    var x :| x in d - {skip};
    MarkedFalls(sup, skip, |sup|, x);
    i := LeastFalling(sup, skip, x);
  }

  lemma {:induction false} LeastFalling(sup: seq<seq<nat>>, skip: nat, x: nat) returns (i: nat)
    requires Backward(sup) && x < |sup| && x != skip && Falls(sup, skip, x)
    ensures i < |sup| && i != skip && sup[i] != []
    ensures forall m | 0 <= m < |sup[i]| :: sup[i][m] == skip
    decreases x
  {
    if m :| 0 <= m < |sup[x]| && sup[x][m] != skip {
      i := LeastFalling(sup, skip, sup[x][m]);
    } else {
      i := x;
    }
  }
}
