/** Day 15, "Lens Library": the HASH algorithm over bytes, and the HASHMAP
    procedure that keeps labelled lenses in 256 ordered boxes. */
module Day15 {
  import opened Wrappers
  import opened Seqs

  newtype byte = x: int | 0 <= x < 256

  const Comma: byte := 44
  const Dash: byte := 45
  const Plus: byte := 43
  const Equals: byte := 61

  /** One step of `calc_hash`: `wrapping_add` then `wrapping_mul(17)` on a `u8`. */
  function HashStep(a: byte, v: byte): byte {
    ((((a as int + v as int) % 256) * 17) % 256) as byte
  }

  /** `calc_hash`: the left fold of HashStep from 0. */
  function Hash(s: seq<byte>): byte {
    if s == [] then 0 else HashStep(Hash(s[..|s| - 1]), s[|s| - 1])
  }

  /** The same fold on unbounded integers, without wrapping. */
  function Poly(s: seq<byte>): nat {
    if s == [] then 0 else (Poly(s[..|s| - 1]) + s[|s| - 1] as int) * 17
  }

  lemma ModShift(z: int, k: int)
    ensures (z + 256 * k) % 256 == z % 256
  {
  }

  lemma ModStep(x: int, v: int)
    ensures (((x % 256 + v) % 256) * 17) % 256 == ((x + v) * 17) % 256
  {
    var q := x / 256;
    var y := x % 256 + v;
    var r := y / 256;
    var b := y % 256;
    assert x + v == 256 * (q + r) + b;
    assert (x + v) * 17 == 17 * b + 256 * (17 * (q + r));
    ModShift(17 * b, 17 * (q + r));
  }

  /** Wrapping at every step is reducing the unwrapped fold once at the end. */
  lemma {:induction false} HashIsPolyMod(s: seq<byte>)
    ensures Hash(s) as int == Poly(s) % 256
    decreases |s|
  {
    if s != [] {
      HashIsPolyMod(s[..|s| - 1]);
      ModStep(Poly(s[..|s| - 1]), s[|s| - 1] as int);
    }
  }

  /** The hash of a concatenation continues the fold from the first part's hash. */
  function HashFrom(a: byte, s: seq<byte>): byte {
    if s == [] then a else HashStep(HashFrom(a, s[..|s| - 1]), s[|s| - 1])
  }

  lemma {:induction false} HashAppend(s: seq<byte>, t: seq<byte>)
    ensures Hash(s + t) == HashFrom(Hash(s), t)
    decreases |t|
  {
    if t == [] {
      assert s + t == s;
    } else {
      HashAppend(s, t[..|t| - 1]);
      assert (s + t)[..|s + t| - 1] == s + t[..|t| - 1];
    }
  }

  /** The worked example of the puzzle text: "HASH" hashes to 52. */
  lemma ExampleHash()
    ensures Hash([72, 65, 83, 72]) == 52
  {
    var s: seq<byte> := [72, 65, 83, 72];
    assert s[..1][..0] == [];
    assert s[..2][..1] == s[..1];
    assert s[..3][..2] == s[..2];
    assert s[..|s| - 1] == s[..3];
    assert Hash(s[..1]) == 200;
    assert Hash(s[..2]) == 153;
    assert Hash(s[..3]) == 172;
  }

  function SumHashes(parts: seq<seq<byte>>): (n: nat)
    ensures n <= 255 * |parts|
  {
    if parts == [] then 0 else SumHashes(parts[..|parts| - 1]) + Hash(parts[|parts| - 1]) as int
  }

  /** `puzzle1`: drop the final byte (`split_last().unwrap()`, which panics
      on an empty input) and sum the hashes of the comma-separated steps. */
  function Puzzle1(input: seq<byte>): (r: Option<nat>)
    ensures r.Some? <==> input != []
  {
    if input == [] then None else Some(SumHashes(Split(input[..|input| - 1], Comma)))
  }

  /** Steps written out with commas and one trailing byte give back the sum
      of their hashes. */
  lemma Puzzle1Steps(steps: seq<seq<byte>>, last: byte)
    requires steps != [] && forall i | 0 <= i < |steps| :: Comma !in steps[i]
    ensures Puzzle1(Join(steps, Comma) + [last]) == Some(SumHashes(steps))
  {
    var input := Join(steps, Comma) + [last];
    assert input[..|input| - 1] == Join(steps, Comma);
    SplitJoin(steps, Comma);
  }

  predicate IsDigit(b: byte) {
    48 <= b <= 57
  }

  function DigitValue(b: byte): (d: nat)
    requires IsDigit(b)
    ensures d < 10
  {
    b as int - 48
  }

  /** The decimal value of a run of digits. */
  function DigitsValue(s: seq<byte>): nat
    requires forall i | 0 <= i < |s| :: IsDigit(s[i])
  {
    if s == [] then 0 else 10 * DigitsValue(s[..|s| - 1]) + DigitValue(s[|s| - 1])
  }

  /** `str::parse::<u8>`: an optional '+' then at least one decimal digit,
      with a value below 256; anything else is an error. */
  function ParseU8(s: seq<byte>): (r: Option<nat>)
    ensures r.Some? ==> r.value < 256
  {
    var t := if |s| > 0 && s[0] == Plus then s[1..] else s;
    if t == [] || exists i | 0 <= i < |t| :: !IsDigit(t[i]) then None
    else if DigitsValue(t) < 256 then Some(DigitsValue(t))
    else None
  }

  /** The decimal rendering of a number, most significant digit first. */
  function Decimal(n: nat): (s: seq<byte>)
    ensures s != [] && forall i | 0 <= i < |s| :: IsDigit(s[i])
  {
    if n < 10 then [(48 + n) as byte] else Decimal(n / 10) + [(48 + n % 10) as byte]
  }

  lemma {:induction false} DecimalValue(n: nat)
    ensures DigitsValue(Decimal(n)) == n
    decreases n
  {
    if n < 10 {
      assert Decimal(n)[..0] == [];
    } else {
      DecimalValue(n / 10);
      var d := Decimal(n);
      assert d[..|d| - 1] == Decimal(n / 10);
    }
  }

  /** Every `u8` parses back from its decimal rendering. */
  lemma ParseDecimal(n: nat)
    requires n < 256
    ensures ParseU8(Decimal(n)) == Some(n)
  {
    DecimalValue(n);
  }

  /** A step of the second puzzle: remove the lens with a label from its
      box, or put a lens with a focal length there. Each carries the hash
      of its label, computed once by `parse_instr`. */
  datatype Instr = Rem(hash: byte, name: seq<byte>) | Set(hash: byte, name: seq<byte>, focal: nat)

  /** `split_once`: the parts before and after the first separator. */
  function SplitOnce(s: seq<byte>, sep: byte): (r: Option<(seq<byte>, seq<byte>)>)
    ensures r.Some? <==> sep in s
    ensures r.Some? ==> s == r.value.0 + [sep] + r.value.1 && sep !in r.value.0
  {
    if s == [] then None
    else if s[0] == sep then Some(([], s[1..]))
    else match SplitOnce(s[1..], sep)
      case None => None
      case Some((a, b)) => Some(([s[0]] + a, b))
  }

  /** `parse_instr`: a step ending in '-' removes; otherwise it must be
      `label=focal` with a `u8` focal length, or the code panics (None). */
  function ParseInstr(part: seq<byte>): (r: Option<Instr>)
    ensures r.Some? ==> r.value.hash == Hash(r.value.name)
    ensures r.Some? && r.value.Set? ==> r.value.focal < 256 && Equals !in r.value.name
  {
    if |part| > 0 && part[|part| - 1] == Dash then
      var name := part[..|part| - 1];
      Some(Rem(Hash(name), name))
    else match SplitOnce(part, Equals)
      case None => None
      case Some((name, lens)) =>
        match ParseU8(lens)
        case None => None
        case Some(f) => Some(Set(Hash(name), name, f))
  }

  /** How a step is written in the input. */
  function Render(i: Instr): seq<byte> {
    match i
    case Rem(_, name) => name + [Dash]
    case Set(_, name, f) => name + [Equals] + Decimal(f)
  }

  /** Parsing a written step gives the step back. */
  lemma ParseRender(i: Instr)
    requires i.hash == Hash(i.name)
    requires i.Set? ==> i.focal < 256 && Equals !in i.name
    ensures ParseInstr(Render(i)) == Some(i)
  {
    var r := Render(i);
    match i
    case Rem(_, name) =>
      assert r[..|r| - 1] == name;
    case Set(_, name, f) =>
      var d := Decimal(f);
      assert r[|r| - 1] == d[|d| - 1];
      assert r == name + [Equals] + d;
      ParseDecimal(f);
      SplitOnceAt(name, d, Equals);
  }

  lemma {:induction false} SplitOnceAt(a: seq<byte>, b: seq<byte>, sep: byte)
    requires sep !in a
    ensures SplitOnce(a + [sep] + b, sep) == Some((a, b))
    decreases |a|
  {
    var s := a + [sep] + b;
    if a == [] {
      assert s[1..] == b;
    } else {
      assert s[1..] == a[1..] + [sep] + b;
      SplitOnceAt(a[1..], b, sep);
      assert [a[0]] + a[1..] == a;
    }
  }

  /** A lens in a box: its label and focal length. */
  datatype Lens = Lens(name: seq<byte>, focal: nat)

  function Labels(b: seq<Lens>): (ls: seq<seq<byte>>)
    ensures |ls| == |b| && forall j | 0 <= j < |b| :: ls[j] == b[j].name
  {
    seq(|b|, j requires 0 <= j < |b| => b[j].name)
  }

  /** `retain(|(p, _)| p != &part)`: the lenses with other labels, in order. */
  function Without(b: seq<Lens>, name: seq<byte>): (r: seq<Lens>)
    ensures name !in Labels(r)
    ensures |r| <= |b|
    ensures name !in Labels(b) ==> r == b
  {
    if b == [] then []
    else if b[|b| - 1].name == name then Without(b[..|b| - 1], name)
    else Without(b[..|b| - 1], name) + [b[|b| - 1]]
  }

  /** The lenses Without keeps are exactly the other-labelled ones: it
      keeps their multiset. */
  lemma {:induction false} WithoutKeeps(b: seq<Lens>, name: seq<byte>, x: Lens)
    requires x.name != name
    ensures multiset(Without(b, name))[x] == multiset(b)[x]
    decreases |b|
  {
    if b != [] {
      var init, last := b[..|b| - 1], b[|b| - 1];
      WithoutKeeps(init, name, x);
      assert b == init + [last];
      assert multiset(b) == multiset(init) + multiset{last};
      if last.name != name {
        assert multiset(Without(b, name)) == multiset(Without(init, name)) + multiset{last};
      }
    }
  }

  /** Set on a box: the focal length of every lens with the label is
      replaced in place, or the lens goes at the end when there is none. */
  function Replace(b: seq<Lens>, name: seq<byte>, f: nat): (r: seq<Lens>)
    ensures |r| == |b| && Labels(r) == Labels(b)
    ensures forall j | 0 <= j < |b| :: r[j].focal == if b[j].name == name then f else b[j].focal
  {
    seq(|b|, j requires 0 <= j < |b| => if b[j].name == name then Lens(name, f) else b[j])
  }

  function Upsert(b: seq<Lens>, name: seq<byte>, f: nat): (r: seq<Lens>)
    ensures name in Labels(b) ==> r == Replace(b, name, f)
    ensures name !in Labels(b) ==> r == b + [Lens(name, f)]
  {
    if name in Labels(b) then Replace(b, name, f) else b + [Lens(name, f)]
  }

  /** One step on the 256 boxes: only the box of the label's hash changes. */
  function Apply(boxes: seq<seq<Lens>>, i: Instr): (r: seq<seq<Lens>>)
    requires |boxes| == 256
    ensures |r| == 256
    ensures forall k | 0 <= k < 256 && k != i.hash as int :: r[k] == boxes[k]
  {
    match i
    case Rem(h, name) => boxes[h := Without(boxes[h], name)]
    case Set(h, name, f) => boxes[h := Upsert(boxes[h], name, f)]
  }

  /** What the table keeps: every lens sits in the box of its label's hash,
      and no box holds two lenses with the same label. */
  predicate Valid(boxes: seq<seq<Lens>>) {
    |boxes| == 256 &&
    (forall k, j | 0 <= k < 256 && 0 <= j < |boxes[k]| :: Hash(boxes[k][j].name) as int == k) &&
    (forall k, j, j' | 0 <= k < 256 && 0 <= j < j' < |boxes[k]| :: boxes[k][j].name != boxes[k][j'].name)
  }

  lemma {:induction false} WithoutSub(b: seq<Lens>, name: seq<byte>, j: nat)
    requires j < |Without(b, name)|
    ensures exists j' | 0 <= j' < |b| :: Without(b, name)[j] == b[j']
    decreases |b|
  {
    var r := Without(b, name);
    var init := b[..|b| - 1];
    if b[|b| - 1].name == name {
      WithoutSub(init, name, j);
      var j' :| 0 <= j' < |init| && r[j] == init[j'];
      assert r[j] == b[j'];
    } else if j < |Without(init, name)| {
      WithoutSub(init, name, j);
      var j' :| 0 <= j' < |init| && r[j] == init[j'];
      assert r[j] == b[j'];
    } else {
      assert r[j] == b[|b| - 1];
    }
  }

  /** The lenses Without keeps keep their relative order: it picks an
      increasing run of positions. */
  lemma {:induction false} WithoutOrder(b: seq<Lens>, name: seq<byte>, j: nat, j2: nat)
    requires j < j2 < |Without(b, name)|
    ensures exists p, p2 | 0 <= p < p2 < |b| :: Without(b, name)[j] == b[p] && Without(b, name)[j2] == b[p2]
    decreases |b|
  {
    var r := Without(b, name);
    var init := b[..|b| - 1];
    var ri := Without(init, name);
    if j2 < |ri| {
      WithoutOrder(init, name, j, j2);
      var p, p2 :| 0 <= p < p2 < |init| && ri[j] == init[p] && ri[j2] == init[p2];
      assert r[j] == b[p] && r[j2] == b[p2];
    } else {
      WithoutSub(init, name, j);
      var p :| 0 <= p < |init| && ri[j] == init[p];
      assert r[j] == b[p] && r[j2] == b[|b| - 1];
    }
  }

  /** Every step keeps the table valid. */
  lemma ApplyValid(boxes: seq<seq<Lens>>, i: Instr)
    requires Valid(boxes) && i.hash == Hash(i.name)
    ensures Valid(Apply(boxes, i))
  {
    var h := i.hash as int;
    var b := boxes[h];
    var r := Apply(boxes, i)[h];
    match i
    case Rem(_, name) =>
      forall j | 0 <= j < |r| ensures Hash(r[j].name) as int == h {
        WithoutSub(b, name, j);
      }
      forall j, j' | 0 <= j < j' < |r| ensures r[j].name != r[j'].name {
        WithoutOrder(b, name, j, j');
      }
    case Set(_, name, f) =>
      if name !in Labels(b) {
        assert r == b + [Lens(name, f)];
        forall j, j' | 0 <= j < j' < |r| ensures r[j].name != r[j'].name {
          if j' == |b| {
            assert Labels(b)[j] == b[j].name;
          }
        }
      } else {
        assert Labels(r) == Labels(b);
        forall j | 0 <= j < |r| ensures Hash(r[j].name) as int == h {
          assert Labels(r)[j] == Labels(b)[j];
        }
        forall j, j' | 0 <= j < j' < |r| ensures r[j].name != r[j'].name {
          assert Labels(r)[j] == Labels(b)[j] && Labels(r)[j'] == Labels(b)[j'];
        }
      }
  }

  /** The state of the boxes after a run of steps. */
  function ApplyAll(boxes: seq<seq<Lens>>, instrs: seq<Instr>): (r: seq<seq<Lens>>)
    requires |boxes| == 256
    ensures |r| == 256
  {
    if instrs == [] then boxes else Apply(ApplyAll(boxes, instrs[..|instrs| - 1]), instrs[|instrs| - 1])
  }

  /** The `retain` of a Rem step on the box array. */
  method RemoveLens(boxes: array<seq<Lens>>, h: byte, name: seq<byte>)
    requires boxes.Length == 256
    modifies boxes
    ensures boxes[..] == old(boxes[..])[h := Without(old(boxes[h]), name)]
  {
    var b := boxes[h];
    var kept: seq<Lens> := [];
    for j := 0 to |b|
      invariant kept == Without(b[..j], name)
    {
      assert b[..j + 1][..j] == b[..j];
      if b[j].name != name {
        kept := kept + [b[j]];
      }
    }
    assert b[..|b|] == b;
    boxes[h] := kept;
  }

  /** The `iter_mut` loop and the `push` of a Set step on the box array. */
  method SetLens(boxes: array<seq<Lens>>, h: byte, name: seq<byte>, f: nat)
    requires boxes.Length == 256
    modifies boxes
    ensures boxes[..] == old(boxes[..])[h := Upsert(old(boxes[h]), name, f)]
  {
    var b := boxes[h];
    var found := false;
    var updated := b;
    for j := 0 to |b|
      invariant |updated| == |b|
      invariant found <==> name in Labels(b[..j])
      invariant forall k | 0 <= k < |b| ::
        updated[k] == if k < j && b[k].name == name then Lens(name, f) else b[k]
    {
      assert Labels(b[..j + 1]) == Labels(b[..j]) + [b[j].name];
      if b[j].name == name {
        found := true;
        updated := updated[j := Lens(name, f)];
      }
    }
    assert b[..|b|] == b;
    if !found {
      forall k | 0 <= k < |b| ensures updated[k] == b[k] {
        assert Labels(b)[k] == b[k].name;
      }
      assert updated == b;
      updated := updated + [Lens(name, f)];
    } else {
      assert updated == Replace(b, name, f);
    }
    boxes[h] := updated;
  }

  /** The sum of (slot + 1) times the focal length over one box. */
  function BoxPower(b: seq<Lens>): nat {
    if b == [] then 0 else BoxPower(b[..|b| - 1]) + |b| * b[|b| - 1].focal
  }

  /** The focusing power: the sum of (box + 1) times each box's BoxPower. */
  function Power(boxes: seq<seq<Lens>>): nat {
    if boxes == [] then 0 else Power(boxes[..|boxes| - 1]) + |boxes| * BoxPower(boxes[|boxes| - 1])
  }

  /** The inner loop of `calc_power`: one box's slots weighted by the box
      number w. */
  method BoxTotal(b: seq<Lens>, w: int) returns (ret: int)
    ensures ret == w * BoxPower(b)
  {
    ret := 0;
    for j := 0 to |b|
      invariant ret == w * BoxPower(b[..j])
    {
      assert b[..j + 1][..j] == b[..j];
      ret := ret + w * (j + 1) * b[j].focal;
      assert w * BoxPower(b[..j + 1]) == w * BoxPower(b[..j]) + w * ((j + 1) * b[j].focal);
    }
    assert b[..|b|] == b;
  }

  /** `calc_power`: the nested accumulator loop over boxes and slots. */
  method CalcPower(boxes: array<seq<Lens>>) returns (ret: int)
    ensures ret == Power(boxes[..])
  {
    ret := 0;
    for i := 0 to boxes.Length
      invariant ret == Power(boxes[..i])
    {
      var t := BoxTotal(boxes[i], i + 1);
      ret := ret + t;
      assert boxes[..i + 1][..i] == boxes[..i];
    }
    assert boxes[..boxes.Length] == boxes[..];
  }

  /** Replacing one focal length changes the power by the weight of its
      slot times the change. */
  lemma {:induction false} BoxPowerUpdate(b: seq<Lens>, j: nat, x: Lens)
    requires j < |b|
    ensures BoxPower(b[j := x]) == BoxPower(b) + (j + 1) * (x.focal - b[j].focal)
    decreases |b|
  {
    var n := |b| - 1;
    if j < n {
      BoxPowerUpdate(b[..n], j, x);
      assert b[j := x][..n] == b[..n][j := x];
    } else {
      assert b[j := x][..n] == b[..n];
    }
  }

  /** The UTF-8 encodings of the characters with the Unicode White_Space
      property, which `str::trim` removes: U+0009 to U+000D and U+0020 in
      one byte, */
  predicate Space1(a: byte) {
    a == 0x20 || 0x09 <= a <= 0x0D
  }

  /** U+0085 and U+00A0 in two bytes, */
  predicate Space2(a: byte, b: byte) {
    a == 0xC2 && (b == 0x85 || b == 0xA0)
  }

  /** and U+1680, U+2000 to U+200A, U+2028, U+2029, U+202F, U+205F and
      U+3000 in three bytes. */
  predicate Space3(a: byte, b: byte, c: byte) {
    || (a == 0xE1 && b == 0x9A && c == 0x80)
    || (a == 0xE2 && b == 0x80 && (0x80 <= c <= 0x8A || c == 0xA8 || c == 0xA9 || c == 0xAF))
    || (a == 0xE2 && b == 0x81 && c == 0x9F)
    || (a == 0xE3 && b == 0x80 && c == 0x80)
  }

  /** The length of the whitespace character that starts s, or 0. The
      lead bytes of the three lengths differ, so at most one matches. */
  function LeadSpace(s: seq<byte>): (n: nat)
    ensures n <= 3 && n <= |s|
    ensures n == 1 <==> |s| >= 1 && Space1(s[0])
    ensures n == 2 <==> |s| >= 2 && Space2(s[0], s[1])
    ensures n == 3 <==> |s| >= 3 && Space3(s[0], s[1], s[2])
  {
    if |s| >= 1 && Space1(s[0]) then 1
    else if |s| >= 2 && Space2(s[0], s[1]) then 2
    else if |s| >= 3 && Space3(s[0], s[1], s[2]) then 3
    else 0
  }

  /** The length of the whitespace character that ends s, or 0. In valid
      UTF-8 no continuation byte is a lead byte, so a matching suffix is a
      whole character. */
  function TrailSpace(s: seq<byte>): (n: nat)
    ensures n <= 3 && n <= |s|
    ensures n == 1 <==> |s| >= 1 && Space1(s[|s| - 1])
    ensures n == 2 <==> |s| >= 2 && Space2(s[|s| - 2], s[|s| - 1])
    ensures n == 3 <==> |s| >= 3 && Space3(s[|s| - 3], s[|s| - 2], s[|s| - 1])
  {
    if |s| >= 1 && Space1(s[|s| - 1]) then 1
    else if |s| >= 2 && Space2(s[|s| - 2], s[|s| - 1]) then 2
    else if |s| >= 3 && Space3(s[|s| - 3], s[|s| - 2], s[|s| - 1]) then 3
    else 0
  }

  /** w is a run of whitespace characters, read from the front. */
  predicate SpaceRun(w: seq<byte>)
    decreases |w|
  {
    w == [] || var n := LeadSpace(w); n > 0 && SpaceRun(w[n..])
  }

  /** w is a run of whitespace characters, read from the back. */
  predicate SpaceRunBack(w: seq<byte>)
    decreases |w|
  {
    w == [] || var n := TrailSpace(w); n > 0 && SpaceRunBack(w[..|w| - n])
  }

  /** The number of leading bytes that are whitespace characters. */
  function LeadRun(s: seq<byte>): (k: nat)
    ensures k <= |s| && SpaceRun(s[..k])
    ensures LeadSpace(s[k..]) == 0
    decreases |s|
  {
    var n := LeadSpace(s);
    if n == 0 then
      assert s[..0] == [] && s[0..] == s;
      0
    else
      var k := LeadRun(s[n..]);
      LeadRunStep(s, n, k);
      n + k
  }

  lemma LeadRunStep(s: seq<byte>, n: nat, k: nat)
    requires n == LeadSpace(s) > 0
    requires k <= |s[n..]| && SpaceRun(s[n..][..k]) && LeadSpace(s[n..][k..]) == 0
    ensures n + k <= |s| && SpaceRun(s[..n + k]) && LeadSpace(s[n + k..]) == 0
  {
    var w := s[..n + k];
    assert w[n..] == s[n..][..k];
    assert s[n + k..] == s[n..][k..];
    assert LeadSpace(w) == n;
  }

  /** The number of trailing bytes that are whitespace characters. */
  function TrailRun(s: seq<byte>): (k: nat)
    ensures k <= |s| && SpaceRunBack(s[|s| - k..])
    ensures TrailSpace(s[..|s| - k]) == 0
    decreases |s|
  {
    var n := TrailSpace(s);
    if n == 0 then
      assert s[|s|..] == [] && s[..|s|] == s;
      0
    else
      var t := s[..|s| - n];
      var k := TrailRun(t);
      TrailRunStep(s, t, n, k);
      n + k
  }

  lemma TrailRunStep(s: seq<byte>, t: seq<byte>, n: nat, k: nat)
    requires n == TrailSpace(s) > 0 && t == s[..|s| - n]
    requires k <= |t| && SpaceRunBack(t[|t| - k..]) && TrailSpace(t[..|t| - k]) == 0
    ensures n + k <= |s| && SpaceRunBack(s[|s| - (n + k)..]) && TrailSpace(s[..|s| - (n + k)]) == 0
  {
    var m := |s| - (n + k);
    var w := s[m..];
    assert s[..m] == t[..|t| - k];
    TrailSpaceSuffix(s, w);
    assert w[..|w| - n] == s[m..m + k] == t[|t| - k..];
    SpaceRunBackSnoc(w, n);
  }

  /** A suffix at least as long as the trailing whitespace character ends
      with the same one. */
  lemma TrailSpaceSuffix(s: seq<byte>, w: seq<byte>)
    requires |w| <= |s| && w == s[|s| - |w|..] && TrailSpace(s) <= |w|
    ensures TrailSpace(w) == TrailSpace(s)
  {
    var m := |s| - |w|;
    if |w| >= 1 {
      assert w[|w| - 1] == s[|s| - 1];
    }
    if |w| >= 2 {
      assert w[|w| - 2] == s[|s| - 2];
    }
    if |w| >= 3 {
      assert w[|w| - 3] == s[|s| - 3];
    }
  }

  lemma SpaceRunBackSnoc(w: seq<byte>, n: nat)
    requires n == TrailSpace(w) > 0 && SpaceRunBack(w[..|w| - n])
    ensures SpaceRunBack(w)
  {
  }

  /** `trim_start`: the leading whitespace characters are removed, and what
      is left does not start with one. */
  function TrimStart(s: seq<byte>): (r: seq<byte>)
    ensures |r| <= |s| && r == s[|s| - |r|..]
    ensures SpaceRun(s[..|s| - |r|])
    ensures LeadSpace(r) == 0
  {
    s[LeadRun(s)..]
  }

  /** `trim_end`: the trailing whitespace characters are removed, and what
      is left does not end with one. */
  function TrimEnd(s: seq<byte>): (r: seq<byte>)
    ensures |r| <= |s| && r == s[..|r|]
    ensures SpaceRunBack(s[|r|..])
    ensures TrailSpace(r) == 0
  {
    s[..|s| - TrailRun(s)]
  }

  /** `str::trim`. */
  function Trim(s: seq<byte>): seq<byte> {
    TrimEnd(TrimStart(s))
  }

  /** A step followed by a no-break space (U+00A0) and a newline trims to
      the step, so the steps still parse. */
  lemma TrimNoBreakSpace()
    ensures Trim([0x72, 0x6E, 0x3D, 0x31, 0xC2, 0xA0, 0x0A]) == [0x72, 0x6E, 0x3D, 0x31]
  {
    var s: seq<byte> := [0x72, 0x6E, 0x3D, 0x31, 0xC2, 0xA0, 0x0A];
    assert LeadSpace(s) == 0 && LeadRun(s) == 0;
    var t := s[..6];
    var u := t[..4];
    assert TrailSpace(u) == 0 && TrailRun(u) == 0;
    assert TrailSpace(t) == 2 && t[..|t| - 2] == u;
    assert TrailSpace(s) == 1 && s[..|s| - 1] == t;
    assert TrailRun(s) == 3;
  }

  /** The steps of the input, or None when one of them does not parse. */
  function ParseAll(parts: seq<seq<byte>>): (r: Option<seq<Instr>>)
    ensures r.Some? ==> |r.value| == |parts| && forall k | 0 <= k < |parts| :: ParseInstr(parts[k]) == Some(r.value[k])
    ensures r.None? ==> exists k | 0 <= k < |parts| :: ParseInstr(parts[k]).None?
  {
    if parts == [] then Some([])
    else
      match ParseAll(parts[..|parts| - 1])
      case None => None
      case Some(init) =>
        match ParseInstr(parts[|parts| - 1])
        case None => None
        case Some(i) => Some(init + [i])
  }

  /** One step of the HASHMAP procedure on the box array. */
  method ApplyStep(boxes: array<seq<Lens>>, i: Instr)
    requires boxes.Length == 256
    modifies boxes
    ensures boxes[..] == Apply(old(boxes[..]), i)
  {
    match i
    case Rem(h, name) =>
      RemoveLens(boxes, h, name);
    case Set(h, name, f) =>
      SetLens(boxes, h, name, f);
  }

  lemma ApplyAllSnoc(instrs: seq<Instr>, k: nat)
    requires k < |instrs|
    ensures ApplyAll(EmptyBoxes, instrs[..k + 1]) == Apply(ApplyAll(EmptyBoxes, instrs[..k]), instrs[k])
  {
    assert instrs[..k + 1][..k] == instrs[..k];
  }

  /** 256 empty boxes. */
  const EmptyBoxes: seq<seq<Lens>> := seq(256, _ => [])

  /** A fresh array of 256 empty boxes. */
  method NewBoxes() returns (boxes: array<seq<Lens>>)
    ensures fresh(boxes) && boxes[..] == EmptyBoxes
  {
    boxes := new seq<Lens>[256](_ => []);
  }

  /** `puzzle2`: trim, split on commas, parse every step, run them on 256
      empty boxes and report the focusing power; None when a step does not
      parse. */
  method Puzzle2(input: seq<byte>) returns (power: Option<int>)
    ensures power.None? <==> ParseAll(Split(Trim(input), Comma)).None?
    ensures power.Some? ==> power.value == Power(ApplyAll(EmptyBoxes, ParseAll(Split(Trim(input), Comma)).value))
  {
    var parsed := ParseAll(Split(Trim(input), Comma));
    if parsed.None? {
      return None;
    }
    var p := RunSteps(parsed.value);
    power := Some(p);
  }

  /** Runs the parsed steps on 256 fresh empty boxes and reports the
      focusing power. */
  method RunSteps(instrs: seq<Instr>) returns (p: int)
    ensures p == Power(ApplyAll(EmptyBoxes, instrs))
  {
    var boxes := NewBoxes();
    for k := 0 to |instrs|
      invariant boxes[..] == ApplyAll(EmptyBoxes, instrs[..k])
    {
      ApplyAllSnoc(instrs, k);
      ApplyStep(boxes, instrs[k]);
    }
    assert instrs[..|instrs|] == instrs;
    p := CalcPower(boxes);
  }

  /** The table stays valid through any run of parsed steps. */
  lemma {:induction false} ApplyAllValid(instrs: seq<Instr>)
    requires forall k | 0 <= k < |instrs| :: instrs[k].hash == Hash(instrs[k].name)
    ensures Valid(ApplyAll(EmptyBoxes, instrs))
    decreases |instrs|
  {
    if instrs != [] {
      ApplyAllValid(instrs[..|instrs| - 1]);
      ApplyValid(ApplyAll(EmptyBoxes, instrs[..|instrs| - 1]), instrs[|instrs| - 1]);
    }
  }
}
