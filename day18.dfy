/** Day 18, "Lavaduct Lagoon": a dig plan of straight trenches; the lagoon
    holds the cells inside the trench loop and the trench itself, computed
    from the shoelace area of the loop's corners and the trench length
    (Pick's theorem). */
module Day18 {
  import opened Wrappers
  import opened Grid
  import opened Seqs
  import opened Text
  import opened Numbers

  /** One line of the dig plan: a direction, a length and the colour code. */
  datatype Instr = Instr(dir: Dir, count: nat, color: nat)

  const U32: nat := 0x1_0000_0000
  const U64: nat := 0x1_0000_0000_0000_0000

  function ParseDir(s: string): (r: Option<Dir>)
    ensures r.Some? <==> s == "U" || s == "D" || s == "L" || s == "R"
  {
    if s == "U" then Some(N)
    else if s == "D" then Some(S)
    else if s == "L" then Some(W)
    else if s == "R" then Some(E)
    else None
  }

  function DirLetter(d: Dir): (s: string)
    ensures ParseDir(s) == Some(d)
  {
    match d
    case N => "U"
    case S => "D"
    case W => "L"
    case E => "R"
  }

  /** The colour code: the text between the first two characters and the
      last, read as hexadecimal into a u32; slicing a text shorter than
      three characters panics. */
  function ParseColor(s: string): (r: Option<nat>)
    ensures r.Some? ==> |s| >= 3 && r.value < U32
  {
    if |s| < 3 then None else ParseUnsigned(s[2..|s| - 1], 16, U32)
  }

  /** One line "D n (#rrggbb)"; every failure is an `unwrap` panic or
      `unreachable!`. */
  function ParseLine(l: string): (r: Option<Instr>)
    ensures r.Some? ==> r.value.count < U64 && r.value.color < U32
  {
    var first := SplitOnce(l, ' ');
    if first.None? then None
    else
      var (dir, rest) := first.value;
      var second := SplitOnce(rest, ' ');
      if second.None? then None
      else
        var (count, color) := second.value;
        var d, n, c := ParseDir(dir), ParseUnsigned(count, 10, U64), ParseColor(color);
        if d.None? || n.None? || c.None? then None
        else Some(Instr(d.value, n.value, c.value))
  }

  /** Every line parsed, or a panic at the first that does not parse. */
  function ParseInput(lines: seq<string>): Option<seq<Instr>> {
    Collect(lines, ParseLine)
  }

  /** A dig plan line as the puzzle writes it. */
  function Render(i: Instr): string
  {
    DirLetter(i.dir) + " " + ToDigits(i.count, 10) + " (#" + ToDigits(i.color, 16) + ")"
  }

  /** A rendered line splits at its two spaces into the direction, the
      count and the bracketed colour. */
  lemma RenderSplits(i: Instr)
    ensures var count, color := ToDigits(i.count, 10), "(#" + ToDigits(i.color, 16) + ")";
      SplitOnce(Render(i), ' ') == Some((DirLetter(i.dir), count + [' '] + color)) &&
      SplitOnce(count + [' '] + color, ' ') == Some((count, color))
  {
    var dir, count := DirLetter(i.dir), ToDigits(i.count, 10);
    var color := "(#" + ToDigits(i.color, 16) + ")";
    assert Render(i) == dir + [' '] + (count + [' '] + color);
    assert ' ' !in dir;
    SplitOnceAt(dir, ' ', count + [' '] + color);
    assert ' ' !in count;
    SplitOnceAt(count, ' ', color);
  }

  /** Reading a rendered line gives the instruction back. */
  lemma ParseRender(i: Instr)
    requires i.count < U64 && i.color < U32
    ensures ParseLine(Render(i)) == Some(i)
  {
    var hex := ToDigits(i.color, 16);
    var color := "(#" + hex + ")";
    RenderSplits(i);
    assert color[2..|color| - 1] == hex;
    ParseToDigits(i.count, 10, U64);
    ParseToDigits(i.color, 16, U32);
  }

  /** `fix_input`: the low hex digit of the colour is the direction (0 east,
      1 south, 2 west, 3 north; any other digit panics) and the rest of it
      the length. */
  function FixInstr(i: Instr): (r: Option<Instr>)
    ensures r.Some? <==> i.color % 16 < 4
    ensures r.Some? ==> r.value.count == i.color / 16 && r.value.color == i.color
  {
    var d := match i.color % 16
      case 0 => Some(E)
      case 1 => Some(S)
      case 2 => Some(W)
      case 3 => Some(N)
      case _ => None;
    if d.None? then None else Some(Instr(d.value, i.color / 16, i.color))
  }

  function DirCode(d: Dir): nat {
    match d
    case E => 0
    case S => 1
    case W => 2
    case N => 3
  }

  /** A colour written as a length and a direction digit decodes to that
      length and direction. */
  lemma FixEncoded(i: Instr, d: Dir, n: nat)
    requires i.color == n * 16 + DirCode(d)
    ensures FixInstr(i) == Some(Instr(d, n, i.color))
  {
  }

  function FixInput(plan: seq<Instr>): (r: Option<seq<Instr>>)
    ensures r.Some? ==> |r.value| == |plan|
    ensures r.Some? <==> forall k | 0 <= k < |plan| :: FixInstr(plan[k]).Some?
    ensures r.Some? ==> forall k | 0 <= k < |plan| :: r.value[k] == FixInstr(plan[k]).value
  {
    if plan == [] then Some([])
    else
      var init := FixInput(plan[..|plan| - 1]);
      var last := FixInstr(plan[|plan| - 1]);
      if init.Some? && last.Some? then Some(init.value + [last.value]) else None
  }

  /** The trench corners: start at (0, 0) and move `count` cells in `dir`
      for each instruction. */
  function Vertices(plan: seq<Instr>): (vs: seq<Pos>)
    ensures |vs| == |plan| + 1 && vs[0] == (0, 0)
  {
    if plan == [] then [(0, 0)]
    else
      var vs := Vertices(plan[..|plan| - 1]);
      var p, i := vs[|vs| - 1], plan[|plan| - 1];
      vs + [(p.0 + DRow(i.dir) * i.count, p.1 + DCol(i.dir) * i.count)]
  }

  /** Consecutive corners are `count` cells apart in the instruction's direction. */
  lemma {:induction false} VerticesStep(plan: seq<Instr>, k: nat)
    requires k < |plan|
    ensures var vs := Vertices(plan);
      vs[k + 1] == (vs[k].0 + DRow(plan[k].dir) * plan[k].count, vs[k].1 + DCol(plan[k].dir) * plan[k].count)
  {
    if k < |plan| - 1 {
      VerticesStep(plan[..|plan| - 1], k);
      assert plan[..|plan| - 1][k] == plan[k];
    }
  }

  /** The trench length. */
  function Border(plan: seq<Instr>): (b: nat) {
    if plan == [] then 0 else Border(plan[..|plan| - 1]) + plan[|plan| - 1].count
  }

  function Cross(p: Pos, q: Pos): int {
    p.0 * q.1 - q.0 * p.1
  }

  /** The sum over consecutive corner pairs (`windows(2)`) of their cross products. */
  function Shoelace(vs: seq<Pos>): int {
    if |vs| < 2 then 0 else Shoelace(vs[..|vs| - 1]) + Cross(vs[|vs| - 2], vs[|vs| - 1])
  }

  function Abs(x: int): nat {
    if x < 0 then -x else x
  }

  /** `calc_area`: half the absolute shoelace sum, never negative. */
  function CalcArea(vs: seq<Pos>): (a: nat)
    ensures 2 * a <= Abs(Shoelace(vs)) <= 2 * a + 1
  {
    Abs(Shoelace(vs)) / 2
  }

  function Reverse(vs: seq<Pos>): (r: seq<Pos>)
    ensures |r| == |vs| && forall k | 0 <= k < |vs| :: r[k] == vs[|vs| - 1 - k]
  {
    if vs == [] then [] else [vs[|vs| - 1]] + Reverse(vs[..|vs| - 1])
  }

  function ShoelaceFront(vs: seq<Pos>): int {
    if |vs| < 2 then 0 else Cross(vs[0], vs[1]) + ShoelaceFront(vs[1..])
  }

  lemma {:induction false} ShoelaceBothEnds(vs: seq<Pos>)
    ensures Shoelace(vs) == ShoelaceFront(vs)
    decreases |vs|
  {
    if |vs| >= 3 {
      var init := vs[..|vs| - 1];
      ShoelaceBothEnds(init);
      ShoelaceBothEnds(vs[1..]);
      ShoelaceBothEnds(init[1..]);
      assert init[1..] == vs[1..][..|vs| - 2];
    }
  }

  /** Walking the loop the other way negates the shoelace sum, so the
      area does not depend on the orientation. */
  lemma {:induction false} ShoelaceReverse(vs: seq<Pos>)
    ensures Shoelace(Reverse(vs)) == -Shoelace(vs)
    ensures CalcArea(Reverse(vs)) == CalcArea(vs)
    decreases |vs|
  {
    if |vs| >= 2 {
      var init := vs[..|vs| - 1];
      var r := Reverse(vs);
      ShoelaceReverse(init);
      ShoelaceBothEnds(r);
      assert r[1..] == Reverse(init);
      ShoelaceBothEnds(Reverse(init));
      assert r[0] == vs[|vs| - 1] && r[1] == vs[|vs| - 2];
    }
  }

  /** Lagoon size: the interior (the area less half the trench) plus the
      trench, which is area + border / 2 + 1. */
  function Lagoon(plan: seq<Instr>): int {
    CalcArea(Vertices(plan)) + Border(plan) / 2 + 1
  }

  /** The loop of `puzzle1`/`puzzle2`: track the position, push each corner
      and add up the trench length. */
  method Dig(plan: seq<Instr>) returns (ret: int)
    ensures ret == Lagoon(plan)
    ensures ret >= 1
  {
    var pos: Pos := (0, 0);
    var lines: seq<Pos> := [(0, 0)];
    var border := 0;
    for k := 0 to |plan|
      invariant lines == Vertices(plan[..k]) && pos == lines[|lines| - 1]
      invariant border == Border(plan[..k])
    {
      var i := plan[k];
      assert plan[..k + 1][..k] == plan[..k];
      border := border + i.count;
      pos := (pos.0 + DRow(i.dir) * i.count, pos.1 + DCol(i.dir) * i.count);
      lines := lines + [pos];
    }
    assert plan[..|plan|] == plan;
    ret := CalcArea(lines) + border / 2 + 1;
  }

  /** One more instruction adds one corner, `count` cells on from the last. */
  lemma VerticesSnoc(plan: seq<Instr>, i: Instr)
    ensures var vs := Vertices(plan); var p := vs[|vs| - 1];
      Vertices(plan + [i]) == vs + [(p.0 + DRow(i.dir) * i.count, p.1 + DCol(i.dir) * i.count)]
  {
    var s := plan + [i];
    assert s[..|s| - 1] == plan && s[|s| - 1] == i;
  }

  lemma BorderPrefix(plan: seq<Instr>, k: nat)
    requires k < |plan|
    ensures Border(plan[..k + 1]) == Border(plan[..k]) + plan[k].count
  {
    assert plan[..k + 1][..k] == plan[..k];
  }

  lemma ShoelaceSnoc(vs: seq<Pos>, p: Pos)
    requires vs != []
    ensures Shoelace(vs + [p]) == Shoelace(vs) + Cross(vs[|vs| - 1], p)
  {
    assert (vs + [p])[..|vs|] == vs;
  }

  function Rectangle(w: nat, h: nat): seq<Instr> {
    [Instr(E, w, 0), Instr(S, h, 0), Instr(W, w, 0), Instr(N, h, 0)]
  }

  lemma RectangleVertices(w: nat, h: nat)
    ensures Vertices(Rectangle(w, h)) == [(0, 0), (0, w), (h, w), (h, 0), (0, 0)]
  {
    var plan := Rectangle(w, h);
    var a, b, c, d := plan[0], plan[1], plan[2], plan[3];
    VerticesSnoc([], a);
    assert [] + [a] == [a];
    VerticesSnoc([a], b);
    assert [a] + [b] == [a, b];
    VerticesSnoc([a, b], c);
    assert [a, b] + [c] == [a, b, c];
    VerticesSnoc([a, b, c], d);
    assert [a, b, c] + [d] == plan;
  }

  lemma RectangleShoelace(w: nat, h: nat)
    ensures Shoelace([(0, 0), (0, w), (h, w), (h, 0), (0, 0)]) == -2 * (h * w)
  {
    var v1: seq<Pos> := [(0, 0), (0, w)];
    var v2 := v1 + [(h, w)];
    var v3 := v2 + [(h, 0)];
    ShoelaceSnoc([(0, 0)], (0, w));
    assert [(0, 0)] + [(0, w)] == v1;
    ShoelaceSnoc(v1, (h, w));
    ShoelaceSnoc(v2, (h, 0));
    ShoelaceSnoc(v3, (0, 0));
    assert v3 + [(0, 0)] == [(0, 0), (0, w), (h, w), (h, 0), (0, 0)];
  }

  lemma RectangleBorder(w: nat, h: nat)
    ensures Border(Rectangle(w, h)) == 2 * w + 2 * h
  {
    var plan := Rectangle(w, h);
    assert plan[..0] == [];
    BorderPrefix(plan, 0);
    BorderPrefix(plan, 1);
    BorderPrefix(plan, 2);
    BorderPrefix(plan, 3);
    assert plan[..4] == plan;
  }

  /** A w x h rectangle dug clockwise from its top-left corner holds
      (w + 1) x (h + 1) cells: the formula counts the trench cells too. */
  lemma RectangleLagoon(w: nat, h: nat)
    ensures Lagoon(Rectangle(w, h)) == (w + 1) * (h + 1)
  {
    RectangleVertices(w, h);
    RectangleShoelace(w, h);
    RectangleBorder(w, h);
    var area: nat := h * w;
    assert CalcArea(Vertices(Rectangle(w, h))) == area;
    assert (w + 1) * (h + 1) == area + w + h + 1;
  }

  method Puzzle1(lines: seq<string>) returns (r: Option<int>)
    ensures r.None? <==> ParseInput(lines).None?
    ensures r.Some? ==> r.value == Lagoon(ParseInput(lines).value)
  {
    var plan := ParseInput(lines);
    if plan.None? {
      return None;
    }
    var n := Dig(plan.value);
    r := Some(n);
  }

  method Puzzle2(lines: seq<string>) returns (r: Option<int>)
    ensures r.Some? <==> ParseInput(lines).Some? && FixInput(ParseInput(lines).value).Some?
    ensures r.Some? ==> r.value == Lagoon(FixInput(ParseInput(lines).value).value)
  {
    var plan := ParseInput(lines);
    if plan.None? {
      return None;
    }
    var fixed := FixInput(plan.value);
    if fixed.None? {
      return None;
    }
    var n := Dig(fixed.value);
    r := Some(n);
  }
}
