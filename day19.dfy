/** Day 19, "Aplenty": parts with four ratings are sent through named
    workflows of comparison rules until accepted or rejected; the second
    puzzle pushes whole boxes of ratings through the same rules and counts
    the accepted combinations. */
module Day19 {
  import opened Wrappers
  import opened Seqs
  import opened Text
  import opened Numbers

  /** The four rating categories; the number is the index into a part. */
  datatype Cat = X | M | A | S

  function Index(c: Cat): (i: nat)
    ensures i < 4
  {
    match c
    case X => 0
    case M => 1
    case A => 2
    case S => 3
  }

  function CatName(c: Cat): string {
    match c
    case X => "x"
    case M => "m"
    case A => "a"
    case S => "s"
  }

  /** `parse_cat`: any other name is `unreachable!`. */
  function ParseCat(s: string): (r: Option<Cat>)
    ensures r.Some? <==> s == "x" || s == "m" || s == "a" || s == "s"
    ensures r.Some? ==> CatName(r.value) == s
  {
    if s == "x" then Some(X)
    else if s == "m" then Some(M)
    else if s == "a" then Some(A)
    else if s == "s" then Some(S)
    else None
  }

  const U32: nat := 0x1_0000_0000
  const I64: nat := 0x8000_0000_0000_0000

  /** `parse_id`: the bytes of the name folded big-endian into a u32; bytes
      shifted out of the top are lost. */
  function ParseId(s: string): (id: nat)
    ensures id < U32
  {
    if s == [] then 0 else (ParseId(s[..|s| - 1]) * 256 + (s[|s| - 1] as int) % 256) % U32
  }

  /** The names of the start workflow and of the accept and reject states. */
  function InId(): nat { ParseId("in") }
  function AcceptId(): nat { ParseId("A") }
  function RejectId(): nat { ParseId("R") }

  lemma KnownIds()
    ensures InId() == 0x696e && AcceptId() == 0x41 && RejectId() == 0x52
  {
    assert "in"[..1] == "i";
    assert "i"[..0] == "" && "A"[..0] == "" && "R"[..0] == "";
  }

  /** The name an id prints as: its non-zero-led bytes, most significant first. */
  function IdText(id: nat): string
    decreases id
  {
    if id == 0 then [] else IdText(id / 256) + [(id % 256) as char]
  }

  function Reversed(s: string): (r: string)
    ensures |r| == |s|
  {
    if s == [] then [] else [s[|s| - 1]] + Reversed(s[..|s| - 1])
  }

  /** `print_id`: peel the low byte off until nothing is left, then reverse. */
  method PrintId(id: nat) returns (ret: string)
    ensures ret == IdText(id)
  {
    var acc: string := [];
    var v := id;
    while v != 0
      invariant IdText(id) == IdText(v) + Reversed(acc)
      decreases v
    {
      var c := (v % 256) as char;
      assert (acc + [c])[..|acc|] == acc;
      acc := acc + [c];
      v := v / 256;
    }
    ret := Reversed(acc);
  }

  /** Names of one to four non-zero bytes fit a u32 unchanged, and print back. */
  predicate ShortName(s: string) {
    1 <= |s| <= 4 && forall i | 0 <= i < |s| :: 0 < s[i] as int < 256
  }

  function Pow256(n: nat): nat {
    if n == 0 then 1 else 256 * Pow256(n - 1)
  }

  lemma {:induction false} ParseIdExact(s: string)
    requires |s| <= 4 && forall i | 0 <= i < |s| :: s[i] as int < 256
    ensures ParseId(s) < Pow256(|s|)
    ensures s != [] ==> ParseId(s) == ParseId(s[..|s| - 1]) * 256 + s[|s| - 1] as int
  {
    if s != [] {
      var init := s[..|s| - 1];
      ParseIdExact(init);
      assert Pow256(|s|) == 256 * Pow256(|init|);
      assert Pow256(|s|) <= U32 by {
        assert Pow256(4) == U32;
        PowMono(|s|, 4);
      }
    }
  }

  lemma {:induction false} PowMono(a: nat, b: nat)
    requires a <= b
    ensures Pow256(a) <= Pow256(b)
  {
    if a < b {
      PowMono(a, b - 1);
    }
  }

  lemma {:induction false} IdRoundTrip(s: string)
    requires ShortName(s)
    ensures IdText(ParseId(s)) == s
  {
    var init, c := s[..|s| - 1], s[|s| - 1];
    ParseIdExact(s);
    var v := ParseId(init);
    assert ParseId(s) == v * 256 + c as int;
    assert (v * 256 + c as int) / 256 == v && (v * 256 + c as int) % 256 == c as int;
    if init != [] {
      IdRoundTrip(init);
    }
    assert s == init + [c];
  }

  /** Distinct short names get distinct ids. */
  lemma IdInjective(s: string, t: string)
    requires ShortName(s) && ShortName(t) && s != t
    ensures ParseId(s) != ParseId(t)
  {
    IdRoundTrip(s);
    IdRoundTrip(t);
  }

  datatype Rule =
    | Lt(cat: Cat, val: int, dst: nat)
    | Gt(cat: Cat, val: int, dst: nat)
    | Al(dst: nat)

  /** The "c<v:d" or "c>v:d" after the comparison character; a missing ':',
      a bad category or a bad number panics. */
  function ParseCond(cat: string, rest: string, less: bool): (r: Option<Rule>)
  {
    var vd := SplitOnce(rest, ':');
    if vd.None? then None
    else
      var c, v := ParseCat(cat), ParseSigned(vd.value.0, I64);
      if c.None? || v.None? then None
      else if less then Some(Lt(c.value, v.value, ParseId(vd.value.1)))
      else Some(Gt(c.value, v.value, ParseId(vd.value.1)))
  }

  /** `parse_rule`: a '<' makes an Lt rule, else a '>' a Gt rule, else the
      whole text names the destination. */
  function ParseRule(s: string): (r: Option<Rule>)
    ensures '<' !in s && '>' !in s ==> r == Some(Al(ParseId(s)))
  {
    var lt := SplitOnce(s, '<');
    if lt.Some? then ParseCond(lt.value.0, lt.value.1, true)
    else
      var gt := SplitOnce(s, '>');
      if gt.Some? then ParseCond(gt.value.0, gt.value.1, false)
      else Some(Al(ParseId(s)))
  }

  /** A signed numeral holds none of the separators of the input syntax. */
  lemma NoSeparators(v: int)
    ensures ':' !in SignedDigits(v) && '<' !in SignedDigits(v) && '>' !in SignedDigits(v)
    ensures '=' !in SignedDigits(v) && ',' !in SignedDigits(v) && '}' !in SignedDigits(v)
  {
    SignedDigitsChars(v);
  }

  lemma ParseCondText(c: Cat, v: int, name: string, less: bool)
    requires -(I64 as int) <= v < I64
    ensures ParseCond(CatName(c), SignedDigits(v) + [':'] + name, less) ==
      Some(if less then Lt(c, v, ParseId(name)) else Gt(c, v, ParseId(name)))
  {
    NoSeparators(v);
    SplitOnceAt(SignedDigits(v), ':', name);
    ParseSignedDigits(v, I64);
  }

  /** The text of a comparison rule: category, operator, value, ':' and
      destination. */
  function CondText(c: Cat, op: char, v: int, name: string): string {
    CatName(c) + [op] + (SignedDigits(v) + [':'] + name)
  }

  /** "c<v:d" reads back as the Lt rule it spells. */
  lemma ParseLtText(c: Cat, v: int, name: string)
    requires -(I64 as int) <= v < I64
    ensures ParseRule(CondText(c, '<', v, name)) == Some(Lt(c, v, ParseId(name)))
  {
    SplitOnceAt(CatName(c), '<', SignedDigits(v) + [':'] + name);
    ParseCondText(c, v, name, true);
  }

  /** "c>v:d" reads back as the Gt rule it spells, unless the destination
      holds a '<', which the code looks for first. */
  lemma ParseGtText(c: Cat, v: int, name: string)
    requires -(I64 as int) <= v < I64 && '<' !in name
    ensures ParseRule(CondText(c, '>', v, name)) == Some(Gt(c, v, ParseId(name)))
  {
    NoSeparators(v);
    var s := CondText(c, '>', v, name);
    assert '<' !in s;
    SplitOnceAt(CatName(c), '>', SignedDigits(v) + [':'] + name);
    ParseCondText(c, v, name, false);
  }

  /** A part: the x, m, a and s ratings. */
  type Part = p: seq<int> | |p| == 4 witness [0, 0, 0, 0]

  /** One "k=v" field of a part line sets rating k; a missing '=', a bad
      category or a bad number panics. */
  function SetField(part: Part, field: string): (r: Option<Part>)
    ensures r.Some? ==> exists c :: forall i | 0 <= i < 4 && i != Index(c) :: r.value[i] == part[i]
  {
    var kv := SplitOnce(field, '=');
    if kv.None? then None
    else
      var c, v := ParseCat(kv.value.0), ParseSigned(kv.value.1, I64);
      if c.None? || v.None? then None
      else Some(part[Index(c.value) := v.value])
  }

  /** The fields in order, each applied to what the earlier ones left. */
  function SetFields(part: Part, fields: seq<string>): Option<Part>
    decreases |fields|
  {
    if fields == [] then Some(part)
    else
      var p := SetField(part, fields[0]);
      if p.None? then None else SetFields(p.value, fields[1..])
  }

  /** A part line "{x=..,m=..,a=..,s=..}": ratings start at 0 and each
      field sets one, later ones winning. */
  function ParsePart(l: string): Option<Part>
  {
    if |l| < 2 then None else SetFields([0, 0, 0, 0], Split(l[1..|l| - 1], ','))
  }

  /** The text of one field, "k=v". */
  function FieldText(c: Cat, v: int): string {
    CatName(c) + ['='] + SignedDigits(v)
  }

  lemma ParseFieldText(p: Part, c: Cat, v: int)
    requires -(I64 as int) <= v < I64
    ensures SetField(p, FieldText(c, v)) == Some(p[Index(c) := v])
  {
    NoSeparators(v);
    SplitOnceAt(CatName(c), '=', SignedDigits(v));
    ParseSignedDigits(v, I64);
  }

  predicate InI64(p: Part) {
    forall i | 0 <= i < 4 :: -(I64 as int) <= p[i] < I64
  }

  /** The line a part is written as: "{x=..,m=..,a=..,s=..}". */
  function PartText(p: Part): string
    requires InI64(p)
  {
    ['{'] + Join(PartFields(p), ',') + ['}']
  }

  function PartFields(p: Part): (fields: seq<string>)
    ensures |fields| == 4
  {
    seq(4, i requires 0 <= i < 4 => FieldText(CatAt(i), p[i]))
  }

  /** The category with the given index. */
  function CatAt(i: nat): (c: Cat)
    requires i < 4
    ensures Index(c) == i
  {
    [X, M, A, S][i]
  }

  lemma SetFieldsStep(part: Part, c: Cat, v: int, rest: seq<string>)
    requires -(I64 as int) <= v < I64
    ensures SetFields(part, [FieldText(c, v)] + rest) == SetFields(part[Index(c) := v], rest)
  {
    ParseFieldText(part, c, v);
    assert ([FieldText(c, v)] + rest)[1..] == rest;
  }

  /** The ratings of `part` below index k and those of `p` from k on. */
  function Merge(part: Part, p: Part, k: nat): Part {
    seq(4, i requires 0 <= i < 4 => if i < k then part[i] else p[i])
  }

  lemma SetFieldsTail(part: Part, p: Part, k: nat)
    requires InI64(p) && k < 4
    ensures SetFields(part, PartFields(p)[k..]) == SetFields(part[k := p[k]], PartFields(p)[k + 1..])
  {
    var fields := PartFields(p);
    assert fields[k..] == [FieldText(CatAt(k), p[k])] + fields[k + 1..];
    SetFieldsStep(part, CatAt(k), p[k], fields[k + 1..]);
  }

  lemma MergeStep(part: Part, p: Part, k: nat)
    requires k < 4
    ensures Merge(part[k := p[k]], p, k + 1) == Merge(part, p, k)
  {
  }

  /** The fields of p from index k on set those ratings and keep the rest. */
  lemma {:induction false} SetFieldsFrom(part: Part, p: Part, k: nat)
    requires InI64(p) && k <= 4
    ensures SetFields(part, PartFields(p)[k..]) == Some(Merge(part, p, k))
    decreases 4 - k
  {
    if k < 4 {
      SetFieldsTail(part, p, k);
      SetFieldsFrom(part[k := p[k]], p, k + 1);
      MergeStep(part, p, k);
    } else {
      assert Merge(part, p, k) == part;
    }
  }

  lemma PartFieldsPlain(p: Part)
    requires InI64(p)
    ensures forall i | 0 <= i < 4 :: ',' !in PartFields(p)[i]
  {
    forall i | 0 <= i < 4 ensures ',' !in PartFields(p)[i] {
      NoSeparators(p[i]);
    }
  }

  /** A part's line reads back as the part. */
  lemma ParsePartText(p: Part)
    requires InI64(p)
    ensures ParsePart(PartText(p)) == Some(p)
  {
    var fields := PartFields(p);
    PartFieldsPlain(p);
    var l := PartText(p);
    assert l[1..|l| - 1] == Join(fields, ',');
    SplitJoin(fields, ',');
    SetFieldsFrom([0, 0, 0, 0], p, 0);
    assert Merge([0, 0, 0, 0], p, 0) == p;
  }

  /** A workflow line "name{rule,rule,...}"; a missing '{' panics, and so
      does a bad rule. */
  function ParseWorkflow(l: string): (r: Option<(nat, seq<Rule>)>)
  {
    var br := SplitOnce(l, '{');
    if br.None? || br.value.1 == [] then None
    else
      var rest := br.value.1;
      var rules := ParseRules(Split(rest[..|rest| - 1], ','));
      if rules.None? then None else Some((ParseId(br.value.0), rules.value))
  }

  function ParseRules(texts: seq<string>): (r: Option<seq<Rule>>)
    ensures r.Some? ==> |r.value| == |texts|
  {
    if texts == [] then Some([])
    else
      var init, last := ParseRules(texts[..|texts| - 1]), ParseRule(texts[|texts| - 1]);
      if init.None? || last.None? then None else Some(init.value + [last.value])
  }

  type Workflows = map<nat, seq<Rule>>

  /** The workflows by id; a later line with the same name replaces an
      earlier one, as collecting into a map does. */
  function ParseWorkflows(lines: seq<string>): (r: Option<Workflows>)
  {
    if lines == [] then Some(map[])
    else
      var init, last := ParseWorkflows(lines[..|lines| - 1]), ParseWorkflow(lines[|lines| - 1]);
      if init.None? || last.None? then None else Some(init.value[last.value.0 := last.value.1])
  }

  predicate Matches(r: Rule, part: Part) {
    match r
    case Lt(c, v, _) => part[Index(c)] < v
    case Gt(c, v, _) => part[Index(c)] > v
    case Al(_) => true
  }

  /** Where a workflow sends a part: the destination of its first matching
      rule, or nowhere new (the same id) if none matches. */
  function Next(rules: seq<Rule>, part: Part, id: nat): nat {
    if rules == [] then id
    else if Matches(rules[0], part) then rules[0].dst
    else Next(rules[1..], part, id)
  }

  lemma {:induction false} NextIsFirstMatch(rules: seq<Rule>, part: Part, id: nat)
    ensures (forall k | 0 <= k < |rules| :: !Matches(rules[k], part)) ==> Next(rules, part, id) == id
    ensures forall k | 0 <= k < |rules| && Matches(rules[k], part) && (forall j | 0 <= j < k :: !Matches(rules[j], part)) ::
      Next(rules, part, id) == rules[k].dst
  {
    if rules != [] {
      NextIsFirstMatch(rules[1..], part, id);
      forall k | 0 < k < |rules| ensures rules[1..][k - 1] == rules[k] {
      }
    }
  }

  /** The rule loop of `puzzle1`: stop at the first matching rule. */
  method FirstMatch(rules: seq<Rule>, part: Part, id: nat) returns (next: nat)
    ensures next == Next(rules, part, id)
  {
    next := id;
    var k := 0;
    while k < |rules|
      invariant 0 <= k <= |rules|
      invariant Next(rules, part, id) == Next(rules[k..], part, id)
    {
      assert rules[k..][1..] == rules[k + 1..];
      if Matches(rules[k], part) {
        next := rules[k].dst;
        return;
      }
      k := k + 1;
    }
  }

  function Rating(part: Part): int {
    part[0] + part[1] + part[2] + part[3]
  }

  /** Following one part from workflow id for at most `fuel` workflows: an
      accepted part is worth its rating sum, a rejected one 0, and a
      missing workflow panics. */
  function Eval(w: Workflows, part: Part, id: nat, fuel: nat): (r: Outcome)
    ensures r.Done? ==> r.value == Rating(part) || r.value == 0
    decreases fuel
  {
    if fuel == 0 then OutOfFuel
    else if id !in w then Panic
    else
      var next := Next(w[id], part, id);
      if next == AcceptId() then Done(Rating(part))
      else if next == RejectId() then Done(0)
      else Eval(w, part, next, fuel - 1)
  }

  /** More fuel never changes a result that was reached. */
  lemma {:induction false} EvalFuel(w: Workflows, part: Part, id: nat, fuel: nat, more: nat)
    requires fuel <= more && !Eval(w, part, id, fuel).OutOfFuel?
    ensures Eval(w, part, id, more) == Eval(w, part, id, fuel)
    decreases fuel
  {
    if id in w {
      var next := Next(w[id], part, id);
      if next != AcceptId() && next != RejectId() {
        EvalFuel(w, part, next, fuel - 1, more - 1);
      }
    }
  }

  /** The workflow loop of `puzzle1` for one part. */
  method Evaluate(w: Workflows, part: Part, fuel: nat) returns (r: Outcome)
    ensures r == Eval(w, part, InId(), fuel)
  {
    var id := ParseId("in");
    var f := fuel;
    while true
      invariant Eval(w, part, InId(), fuel) == Eval(w, part, id, f)
      decreases f
    {
      if f == 0 {
        return OutOfFuel;
      }
      if id !in w {
        return Panic;
      }
      id := FirstMatch(w[id], part, id);
      if id == ParseId("A") {
        return Done(Rating(part));
      } else if id == ParseId("R") {
        return Done(0);
      }
      f := f - 1;
    }
  }

  /** The `puzzle1` total over a list of parts; the first failure aborts it. */
  function Total(w: Workflows, parts: seq<Part>, fuel: nat): Outcome {
    if parts == [] then Done(0)
    else
      var t, e := Total(w, parts[..|parts| - 1], fuel), Eval(w, parts[|parts| - 1], InId(), fuel);
      if t.Done? && e.Done? then Done(t.value + e.value)
      else if t.Done? then e
      else t
  }

  /** Every part counts with its rating sum when accepted and 0 when rejected. */
  lemma {:induction false} TotalAccepted(w: Workflows, parts: seq<Part>, fuel: nat)
    requires Total(w, parts, fuel).Done?
    ensures forall k | 0 <= k < |parts| :: Eval(w, parts[k], InId(), fuel).Done?
    ensures Total(w, parts, fuel).value ==
      Sum(seq(|parts|, k requires 0 <= k < |parts| => Eval(w, parts[k], InId(), fuel).value))
  {
    if parts != [] {
      var init := parts[..|parts| - 1];
      TotalAccepted(w, init, fuel);
      var vs := seq(|parts|, k requires 0 <= k < |parts| => Eval(w, parts[k], InId(), fuel).value);
      assert vs[..|vs| - 1] == seq(|init|, k requires 0 <= k < |init| => Eval(w, init[k], InId(), fuel).value);
    }
  }

  method Puzzle1(w: Workflows, parts: seq<Part>, fuel: nat) returns (r: Outcome)
    ensures r == Total(w, parts, fuel)
  {
    var sum := 0;
    for k := 0 to |parts|
      invariant Total(w, parts[..k], fuel) == Done(sum)
    {
      assert parts[..k + 1][..k] == parts[..k];
      var e := Evaluate(w, parts[k], fuel);
      if !e.Done? {
        r := e;
        assert Total(w, parts[..k + 1], fuel) == e;
        TotalFails(w, parts, k + 1, fuel);
        return;
      }
      sum := sum + e.value;
    }
    assert parts[..|parts|] == parts;
    r := Done(sum);
  }

  /** Once the total fails it stays failed. */
  lemma {:induction false} TotalFails(w: Workflows, parts: seq<Part>, k: nat, fuel: nat)
    requires k <= |parts| && !Total(w, parts[..k], fuel).Done?
    ensures Total(w, parts, fuel) == Total(w, parts[..k], fuel)
    decreases |parts| - k
  {
    if k < |parts| {
      assert parts[..k + 1][..k] == parts[..k];
      TotalFails(w, parts, k + 1, fuel);
    } else {
      assert parts[..k] == parts;
    }
  }

  /** A box of ratings: an inclusive range per category. */
  type Range = (int, int)
  type Box = b: seq<Range> | |b| == 4 witness [(0, 0), (0, 0), (0, 0), (0, 0)]

  function Min(a: int, b: int): int { if a <= b then a else b }
  function Max(a: int, b: int): int { if a >= b then a else b }

  /** The split `traverse_rules` makes for a comparison rule: the range sent
      to the destination and the range kept for the next rules. Both are
      clamped at the rule's value from both ends, so a range the rule does
      not cut in two shrinks to a single value rather than vanishing. */
  function CutAsWritten(r: Range, rule: Rule): (Range, Range)
    requires !rule.Al?
  {
    if rule.Lt? then
      ((Min(r.0, rule.val - 1), Min(r.1, rule.val - 1)), (Max(r.0, rule.val), Max(r.1, rule.val)))
    else
      ((Max(r.0, rule.val + 1), Max(r.1, rule.val + 1)), (Min(r.0, rule.val), Min(r.1, rule.val)))
  }

  /** The split cutting the range at the rule's value, either side possibly empty. */
  function Cut(r: Range, rule: Rule): (Range, Range)
    requires !rule.Al?
  {
    if rule.Lt? then ((r.0, Min(r.1, rule.val - 1)), (Max(r.0, rule.val), r.1))
    else ((Max(r.0, rule.val + 1), r.1), (r.0, Min(r.1, rule.val)))
  }

  /** Where the rule really cuts the range, the code's split is the cut. */
  lemma CutAgrees(r: Range, rule: Rule)
    requires !rule.Al?
    requires rule.Lt? ==> r.0 < rule.val <= r.1
    requires rule.Gt? ==> r.0 <= rule.val < r.1
    ensures CutAsWritten(r, rule) == Cut(r, rule)
  {
  }

  /** The number of values in a range, 0 when empty. */
  function Width(r: Range): nat {
    if r.1 < r.0 then 0 else r.1 - r.0 + 1
  }

  /** The cut splits the values of the range between the two sides. */
  lemma CutPartition(r: Range, rule: Rule, v: int)
    requires !rule.Al?
    ensures var (sent, kept) := Cut(r, rule);
      (r.0 <= v <= r.1 && Matches(rule, [v, v, v, v])) <==> sent.0 <= v <= sent.1
    ensures var (sent, kept) := Cut(r, rule);
      (r.0 <= v <= r.1 && !Matches(rule, [v, v, v, v])) <==> kept.0 <= v <= kept.1
    ensures var (sent, kept) := Cut(r, rule);
      Width(sent) + Width(kept) == Width(r)
  {
  }

  /** The code's split of the box [2000, 4000] of x by "x<1000" sends the
      single value 999, which the box does not hold, to the destination;
      the cut sends nothing. */
  lemma DegenerateSplit()
    ensures CutAsWritten((2000, 4000), Lt(X, 1000, 0)) == ((999, 999), (2000, 4000))
    ensures Width(CutAsWritten((2000, 4000), Lt(X, 1000, 0)).0) == 1
    ensures Width(Cut((2000, 4000), Lt(X, 1000, 0)).0) == 0
  {
  }

  /** The product of the range widths (`b - a + 1` each), folded from 1. */
  function Volume(b: Box): int {
    1 * (b[0].1 - b[0].0 + 1) * (b[1].1 - b[1].0 + 1) * (b[2].1 - b[2].0 + 1) * (b[3].1 - b[3].0 + 1)
  }

  /** The number of rating combinations in a box, counting an empty range as 0. */
  function Size(b: Box): nat {
    Width(b[0]) * Width(b[1]) * Width(b[2]) * Width(b[3])
  }

  /** The product of the widths other than the i-th. */
  function Others(b: Box, i: nat): nat
    requires i < 4
  {
    if i == 0 then Width(b[1]) * Width(b[2]) * Width(b[3])
    else if i == 1 then Width(b[0]) * Width(b[2]) * Width(b[3])
    else if i == 2 then Width(b[0]) * Width(b[1]) * Width(b[3])
    else Width(b[0]) * Width(b[1]) * Width(b[2])
  }

  lemma SizeFactor(b: Box, i: nat)
    requires i < 4
    ensures Size(b) == Width(b[i]) * Others(b, i)
  {
    var w0, w1, w2, w3 := Width(b[0]), Width(b[1]), Width(b[2]), Width(b[3]);
    assert Size(b) == w0 * w1 * w2 * w3;
    if i == 0 {
      MulFront(w0, w1, w2, w3);
    } else if i == 1 {
      MulFront(w1, w0, w2, w3);
      MulSwap(w0, w1);
    } else if i == 2 {
      MulFront(w2, w0, w1, w3);
      MulMiddle(w0, w1, w2);
    } else {
      MulFront(w3, w0, w1, w2);
      MulBack(w0, w1, w2, w3);
    }
  }

  lemma MulFront(a: int, b: int, c: int, d: int)
    ensures a * b * c * d == a * (b * c * d)
  {
  }

  lemma MulSwap(a: int, b: int)
    ensures a * b == b * a
  {
  }

  lemma MulMiddle(a: int, b: int, c: int)
    ensures a * b * c == c * a * b
  {
  }

  lemma MulBack(a: int, b: int, c: int, d: int)
    ensures a * b * c * d == d * a * b * c
  {
  }

  lemma MulDistrib(a: int, b: int, c: int)
    ensures (a + b) * c == a * c + b * c
  {
  }

  /** On a non-empty box the code's volume is the size. */
  lemma VolumeSize(b: Box)
    requires NonEmpty(b)
    ensures Volume(b) == Size(b)
  {
  }

  /** The cut of a box at a comparison rule splits its combinations between
      the destination and the next rule, none lost and none counted twice. */
  lemma CutSize(b: Box, rule: Rule)
    requires !rule.Al?
    ensures var i := Index(rule.cat);
      var (sent, kept) := Cut(b[i], rule);
      Size(b[i := sent]) + Size(b[i := kept]) == Size(b)
  {
    var i := Index(rule.cat);
    var (sent, kept) := Cut(b[i], rule);
    var o := Others(b, i);
    CutPartition(b[i], rule, 0);
    SizeFactor(b, i);
    SizeFactor(b[i := sent], i);
    SizeFactor(b[i := kept], i);
    assert Others(b[i := sent], i) == o && Others(b[i := kept], i) == o;
    MulDistrib(Width(sent), Width(kept), o);
  }

  /** The code's split of a box the rule does not cut counts combinations
      twice: [2000, 4000] of x by "x<1000" leaves the whole box for the next
      rule and still sends 1 * 4000^3 combinations on. */
  lemma DegenerateSize()
    ensures var b: Box := [(2000, 4000), (1, 4000), (1, 4000), (1, 4000)];
      var (sent, kept) := RuleBoxes(b, Lt(X, 1000, 0));
      Volume(sent) + Volume(kept) == Volume(b) + 64000000000
  {
  }

  /** One rule of the `traverse_rules` loop, as written: the box sent on and
      the box kept. */
  function RuleBoxes(b: Box, rule: Rule): (Box, Box)
  {
    if rule.Al? then (b, b)
    else
      var i := Index(rule.cat);
      var (sent, kept) := CutAsWritten(b[i], rule);
      (b[i := sent], b[i := kept])
  }

  /** The code never produces an empty range: every range it builds from a
      non-empty one is non-empty again. */
  predicate NonEmpty(b: Box) {
    forall i | 0 <= i < 4 :: b[i].0 <= b[i].1
  }

  lemma RuleBoxesNonEmpty(b: Box, rule: Rule)
    requires NonEmpty(b)
    ensures NonEmpty(RuleBoxes(b, rule).0) && NonEmpty(RuleBoxes(b, rule).1)
  {
  }

  /** `traverse_rules` for at most `fuel` nested workflows: A counts the
      box's volume, R counts 0, anything else runs the workflow's rules. */
  function Traverse(w: Workflows, id: nat, b: Box, fuel: nat): Outcome
    decreases fuel, 0
  {
    if id == AcceptId() then Done(Volume(b))
    else if id == RejectId() then Done(0)
    else if fuel == 0 then OutOfFuel
    else if id !in w then Panic
    else RunRules(w, w[id], b, fuel - 1).0
  }

  /** The rule loop: the running total and the box left for the next rule. */
  function RunRules(w: Workflows, rules: seq<Rule>, b: Box, fuel: nat): (Outcome, Box)
    decreases fuel, 1, |rules|
  {
    if rules == [] then (Done(0), b)
    else
      var (acc, rest) := RunRules(w, rules[..|rules| - 1], b, fuel);
      if !acc.Done? then (acc, rest)
      else
        var (sent, kept) := RuleBoxes(rest, rules[|rules| - 1]);
        var sub := Traverse(w, rules[|rules| - 1].dst, sent, fuel);
        if sub.Done? then (Done(acc.value + sub.value), kept) else (sub, kept)
  }

  /** `traverse_rules`. */
  method TraverseRules(w: Workflows, id: nat, inputs0: Box, fuel: nat) returns (r: Outcome)
    ensures r == Traverse(w, id, inputs0, fuel)
    decreases fuel, 0
  {
    if id == ParseId("A") {
      return Done(Volume(inputs0));
    } else if id == ParseId("R") {
      return Done(0);
    }
    if fuel == 0 {
      return OutOfFuel;
    }
    if id !in w {
      return Panic;
    }
    var rules := w[id];
    var inputs := inputs0;
    var ret := 0;
    for k := 0 to |rules|
      invariant RunRules(w, rules[..k], inputs0, fuel - 1) == (Done(ret), inputs)
    {
      var rule := rules[k];
      ghost var prev := inputs;
      var sent;
      sent, inputs := RuleInputs(inputs, rule);
      var sub := TraverseRules(w, rule.dst, sent, fuel - 1);
      RunRulesStep(w, rules, k, inputs0, fuel - 1, ret, prev, sent, inputs, sub);
      if !sub.Done? {
        RunRulesFails(w, rules, k + 1, inputs0, fuel - 1);
        return sub;
      }
      ret := ret + sub.value;
    }
    assert rules[..|rules|] == rules;
    r := Done(ret);
  }

  /** The `match` of the `traverse_rules` loop: the inputs for the rule's
      destination and the inputs left for the next rule. */
  method RuleInputs(inputs0: Box, rule: Rule) returns (sent: Box, inputs: Box)
    ensures (sent, inputs) == RuleBoxes(inputs0, rule)
  {
    inputs := inputs0;
    match rule {
      case Lt(cat, val, dst) =>
        var i := Index(cat);
        sent := inputs[i := (Min(inputs[i].0, val - 1), Min(inputs[i].1, val - 1))];
        inputs := inputs[i := (Max(inputs[i].0, val), Max(inputs[i].1, val))];
      case Gt(cat, val, dst) =>
        var i := Index(cat);
        sent := inputs[i := (Max(inputs[i].0, val + 1), Max(inputs[i].1, val + 1))];
        inputs := inputs[i := (Min(inputs[i].0, val), Min(inputs[i].1, val))];
      case Al(dst) =>
        sent := inputs;
    }
  }

  /** One more rule of the loop: its destination's count is added, and the
      kept box goes on to the next rule. */
  lemma RunRulesStep(w: Workflows, rules: seq<Rule>, k: nat, b: Box, fuel: nat, ret: int, rest: Box, sent: Box, kept: Box, sub: Outcome)
    requires k < |rules| && RunRules(w, rules[..k], b, fuel) == (Done(ret), rest)
    requires (sent, kept) == RuleBoxes(rest, rules[k]) && sub == Traverse(w, rules[k].dst, sent, fuel)
    ensures RunRules(w, rules[..k + 1], b, fuel) == if sub.Done? then (Done(ret + sub.value), kept) else (sub, kept)
  {
    assert rules[..k + 1][..k] == rules[..k];
  }

  /** Once the rule loop fails it stays failed. */
  lemma {:induction false} RunRulesFails(w: Workflows, rules: seq<Rule>, k: nat, b: Box, fuel: nat)
    requires k <= |rules| && !RunRules(w, rules[..k], b, fuel).0.Done?
    ensures RunRules(w, rules, b, fuel).0 == RunRules(w, rules[..k], b, fuel).0
    decreases |rules| - k
  {
    if k < |rules| {
      assert rules[..k + 1][..k] == rules[..k];
      RunRulesFails(w, rules, k + 1, b, fuel);
    } else {
      assert rules[..k] == rules;
    }
  }

  const Full: Box := [(1, 4000), (1, 4000), (1, 4000), (1, 4000)]

  /** `puzzle2`: every rating from 1 to 4000, starting at "in". */
  method Puzzle2(w: Workflows, fuel: nat) returns (r: Outcome)
    ensures r == Traverse(w, InId(), Full, fuel)
  {
    r := TraverseRules(w, ParseId("in"), Full, fuel);
  }

  /** The accepting box of the full ranges counts all 4000^4 combinations. */
  lemma FullVolume()
    ensures Volume(Full) == 256000000000000
  {
  }
}
