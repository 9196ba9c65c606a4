/** Reading the Day 20 module configuration: one line per module, sorted
    by name, destinations that no line declares appended as broadcast
    modules without destinations, and every name replaced by its
    position. */
module Day20Input {
  import opened Wrappers
  import opened Seqs
  import opened Text
  import opened Sorting
  import opened Day20

  /** A line before numbering: the module's name, its kind and the names
      of its destinations. */
  datatype Decl = Decl(name: string, kind: Kind, dst: seq<string>)

  const Arrow: string := " -> "
  const Comma: string := ", "

  /** The source part of a line: "broadcaster" is the broadcast module,
      named "", and a '%' or '&' in front of the name makes a flip-flop or
      a conjunction; anything else is `unreachable!`. */
  function ParseSource(src: string): (r: Option<(string, Kind)>)
    ensures r.Some? ==> SourceText(r.value.0, r.value.1) == src
  {
    if src == "broadcaster" then Some(("", Broadcast))
    else if src != [] && src[0] == '%' then
      assert src == ['%'] + src[1..];
      Some((src[1..], FlipFlop))
    else if src != [] && src[0] == '&' then
      assert src == ['&'] + src[1..];
      Some((src[1..], Conjunction))
    else None
  }

  /** How a module's name and kind are written at the start of its line. */
  function SourceText(name: string, kind: Kind): string {
    match kind
    case Broadcast => "broadcaster"
    case FlipFlop => ['%'] + name
    case Conjunction => ['&'] + name
  }

  /** A line "src -> a, b, c"; a line without " -> " panics. */
  function ParseLine(l: string): (r: Option<Decl>)
    ensures r.Some? ==> r.value.dst != [] && l == SourceText(r.value.name, r.value.kind) + Arrow + JoinStr(r.value.dst, Comma)
  {
    var sd := SplitOnceStr(l, Arrow);
    if sd.None? then None
    else
      var src := ParseSource(sd.value.0);
      if src.None? then None
      else Some(Decl(src.value.0, src.value.1, SplitStr(sd.value.1, Comma)))
  }

  /** The line a declaration is written as. */
  function DeclText(d: Decl): string
    requires d.dst != []
  {
    SourceText(d.name, d.kind) + Arrow + JoinStr(d.dst, Comma)
  }

  /** A declaration whose names hold no spaces or commas reads back from
      its line. */
  lemma ParseLineText(d: Decl)
    requires d.dst != [] && (d.kind == Broadcast ==> d.name == "")
    requires ' ' !in d.name && forall i | 0 <= i < |d.dst| :: ',' !in d.dst[i]
    ensures ParseLine(DeclText(d)) == Some(d)
  {
    var src := SourceText(d.name, d.kind);
    assert ' ' !in src by {
      if d.kind != Broadcast {
        assert src == [src[0]] + d.name;
      }
    }
    var rest := JoinStr(d.dst, Comma);
    SplitOnceStrAt(src, Arrow, rest);
    ParseSourceText(d.name, d.kind);
    SplitJoinStr(d.dst, Comma);
  }

  lemma ParseSourceText(name: string, kind: Kind)
    requires kind == Broadcast ==> name == ""
    ensures ParseSource(SourceText(name, kind)) == Some((name, kind))
  {
    var src := SourceText(name, kind);
    if kind != Broadcast {
      assert src[1..] == name;
      assert src != "broadcaster" by {
        assert src[0] != "broadcaster"[0];
      }
    }
  }

  /** The order `sort` puts lines in: by name. */
  predicate NameLe(a: Decl, b: Decl) {
    LexLe(a.name, b.name)
  }

  lemma NameLeTotalPreorder()
    ensures TotalPreorder(NameLe)
  {
    forall a: Decl, b: Decl ensures NameLe(a, b) || NameLe(b, a) {
      LexTotal(a.name, b.name);
    }
    forall a: Decl, b: Decl, c: Decl | NameLe(a, b) && NameLe(b, c) ensures NameLe(a, c) {
      LexTrans(a.name, b.name, c.name);
    }
  }

  /** `input.sort()` on the parsed lines. */
  function SortByName(decls: seq<Decl>): (r: seq<Decl>)
    ensures SortedBy(r, NameLe) && multiset(r) == multiset(decls)
  {
    NameLeTotalPreorder();
    Sort(decls, NameLe)
  }

  lemma LexLeTotalPreorder()
    ensures TotalPreorder(LexLe)
  {
    forall a: string, b: string ensures LexLe(a, b) || LexLe(b, a) {
      LexTotal(a, b);
    }
    forall a: string, b: string, c: string | LexLe(a, b) && LexLe(b, c) ensures LexLe(a, c) {
      LexTrans(a, b, c);
    }
  }

  /** The names the lines declare. */
  function Names(decls: seq<Decl>): set<string> {
    set i | 0 <= i < |decls| :: decls[i].name
  }

  /** The destination names, line by line, that no line declares. */
  function Undeclared(decls: seq<Decl>, declared: set<string>): (r: seq<string>)
    ensures forall s | s in r :: s !in declared
    ensures forall i, j | 0 <= i < |decls| && 0 <= j < |decls[i].dst| :: decls[i].dst[j] in declared || decls[i].dst[j] in r
  {
    if decls == [] then []
    else
      var last := decls[|decls| - 1];
      Undeclared(decls[..|decls| - 1], declared) + Missing(last.dst, declared)
  }

  function Missing(names: seq<string>, declared: set<string>): (r: seq<string>)
    ensures forall s | s in r :: s !in declared
    ensures forall j | 0 <= j < |names| :: names[j] in declared || names[j] in r
  {
    if names == [] then []
    else
      var last := names[|names| - 1];
      Missing(names[..|names| - 1], declared) + (if last in declared then [] else [last])
  }

  /** `dedup`: each run of equal neighbours kept once. */
  function Dedup(s: seq<string>): (r: seq<string>)
    ensures forall x :: x in r <==> x in s
    ensures s != [] ==> r != [] && r[|r| - 1] == s[|s| - 1]
  {
    if |s| <= 1 then s
    else
      var init := Dedup(s[..|s| - 1]);
      assert s == s[..|s| - 1] + [s[|s| - 1]];
      if s[|s| - 1] == s[|s| - 2] then init else init + [s[|s| - 1]]
  }

  /** On sorted names, `dedup` leaves every name once. */
  lemma {:induction false} DedupDistinct(s: seq<string>)
    requires SortedBy(s, LexLe)
    ensures forall i, j | 0 <= i < j < |Dedup(s)| :: Dedup(s)[i] != Dedup(s)[j]
  {
    if |s| > 1 {
      var init := s[..|s| - 1];
      var last, prev := s[|s| - 1], s[|s| - 2];
      DedupDistinct(init);
      var d := Dedup(init);
      if last != prev {
        assert LexLe(prev, last);
        forall i | 0 <= i < |d| ensures d[i] != last {
          assert d[i] in d;
          var k :| 0 <= k < |init| && init[k] == d[i];
          assert LexLe(d[i], prev) by {
            if k < |s| - 2 {
              assert LexLe(s[k], s[|s| - 2]);
            } else {
              LexTotal(prev, prev);
            }
          }
          if LexLe(prev, d[i]) {
            LexAntisymmetric(prev, d[i]);
          }
        }
      }
    }
  }

  /** The names appended: undeclared destinations, sorted, each once. */
  function Extra(decls: seq<Decl>): seq<string> {
    LexLeTotalPreorder();
    Dedup(Sort(Undeclared(decls, Names(decls)), LexLe))
  }

  function Unconnected(name: string): Decl {
    Decl(name, Broadcast, [])
  }

  /** The lines with the undeclared destinations appended as broadcast
      modules without destinations. */
  function Complete(decls: seq<Decl>): (r: seq<Decl>)
    ensures |r| >= |decls| && r[..|decls|] == decls
  {
    var extra := Extra(decls);
    decls + Map(extra, Unconnected)
  }

  /** The appended names are exactly the undeclared destinations, each
      once. */
  lemma ExtraNames(decls: seq<Decl>)
    ensures forall x :: x in Extra(decls) <==> x in Undeclared(decls, Names(decls))
    ensures var e := Extra(decls); forall i, j | 0 <= i < j < |e| :: e[i] != e[j]
  {
    LexLeTotalPreorder();
    var missing := Undeclared(decls, Names(decls));
    var sorted := Sort(missing, LexLe);
    DedupDistinct(sorted);
    forall x ensures x in sorted <==> x in missing {
      assert x in sorted <==> x in multiset(sorted);
      assert x in missing <==> x in multiset(missing);
    }
  }

  /** The appended names are new. */
  lemma ExtraNew(decls: seq<Decl>)
    ensures forall x | x in Extra(decls) :: x !in Names(decls)
  {
    ExtraNames(decls);
  }

  /** After completion every destination is declared. */
  lemma CompleteDeclares(decls: seq<Decl>)
    ensures var r := Complete(decls);
      forall i, j | 0 <= i < |r| && 0 <= j < |r[i].dst| :: r[i].dst[j] in Names(r)
  {
    var r := Complete(decls);
    var extra := Extra(decls);
    ExtraNames(decls);
    forall i, j | 0 <= i < |r| && 0 <= j < |r[i].dst| ensures r[i].dst[j] in Names(r) {
      var name := r[i].dst[j];
      assert i < |decls| && r[i] == decls[i];
      if name in Names(decls) {
        var k :| 0 <= k < |decls| && decls[k].name == name;
        assert r[k].name == name;
      } else {
        assert name in extra;
        var k :| 0 <= k < |extra| && extra[k] == name;
        assert r[|decls| + k].name == name;
      }
    }
  }

  /** The appended modules are new, each appended once, broadcast modules
      without destinations. */
  lemma CompleteAppends(decls: seq<Decl>)
    ensures var r := Complete(decls);
      forall i | |decls| <= i < |r| :: r[i].kind == Broadcast && r[i].dst == [] && r[i].name !in Names(decls)
    ensures var r := Complete(decls);
      forall i, j | |decls| <= i < j < |r| :: r[i].name != r[j].name
  {
    var r := Complete(decls);
    var extra := Extra(decls);
    assert forall x | x in extra :: x !in Names(decls) by {
      ExtraNew(decls);
    }
    assert forall i, j | 0 <= i < j < |extra| :: extra[i] != extra[j] by {
      ExtraNames(decls);
    }
    forall i | |decls| <= i < |r|
      ensures r[i].kind == Broadcast && r[i].dst == [] && r[i].name !in Names(decls)
    {
      assert r[i].name in extra;
    }
    forall i, j | |decls| <= i < j < |r| ensures r[i].name != r[j].name {
      assert r[i].name == extra[i - |decls|] && r[j].name == extra[j - |decls|];
    }
  }

  /** The first line with the given name. */
  function Position(decls: seq<Decl>, name: string, from: nat): (r: Option<nat>)
    requires from <= |decls|
    ensures r.Some? ==> from <= r.value < |decls| && decls[r.value].name == name
    ensures forall j | from <= j < |decls| && (r.None? || j < r.value) :: decls[j].name != name
    decreases |decls| - from
  {
    if from == |decls| then None
    else if decls[from].name == name then Some(from)
    else Position(decls, name, from + 1)
  }

  /** The positions of the destinations; a name no line declares is the
      `unwrap` panic. */
  function Targets(decls: seq<Decl>, dst: seq<string>): (r: Option<Set64>)
    requires |decls| <= 64
    ensures r.Some? ==> forall d | d in r.value :: d < |decls|
    ensures r.Some? <==> forall j | 0 <= j < |dst| :: dst[j] in Names(decls)
  {
    if dst == [] then Some({})
    else
      var init := Targets(decls, dst[..|dst| - 1]);
      var p := Position(decls, dst[|dst| - 1], 0);
      assert p.None? <==> dst[|dst| - 1] !in Names(decls);
      if init.None? || p.None? then None else Some(init.value + {p.value})
  }

  /** Numbering the completed lines; more than 64 modules do not fit a
      64-bit set. */
  function Resolve(decls: seq<Decl>): (r: Option<seq<Node>>)
    ensures r.Some? ==> |r.value| == |decls| <= 64
    ensures r.Some? ==> forall i | 0 <= i < |decls| :: r.value[i].0 == decls[i].kind
    ensures r.Some? ==> forall i, d | 0 <= i < |decls| && d in r.value[i].1 :: d < |decls|
  {
    if |decls| > 64 then None
    else ResolveFrom(decls, |decls|)
  }

  function ResolveFrom(decls: seq<Decl>, n: nat): (r: Option<seq<Node>>)
    requires n <= |decls| <= 64
    ensures r.Some? ==> |r.value| == n
    ensures r.Some? ==> forall i | 0 <= i < n :: r.value[i].0 == decls[i].kind
    ensures r.Some? ==> forall i, d | 0 <= i < n && d in r.value[i].1 :: d < |decls|
    ensures r.Some? <==> forall i, j | 0 <= i < n && 0 <= j < |decls[i].dst| :: decls[i].dst[j] in Names(decls)
  {
    if n == 0 then Some([])
    else
      var init := ResolveFrom(decls, n - 1);
      var t := Targets(decls, decls[n - 1].dst);
      if init.None? || t.None? then None else Some(init.value + [(decls[n - 1].kind, t.value)])
  }

  /** `parse_input` after reading the file: parse every line, sort, append
      the undeclared destinations and number the modules. */
  function ParseInput(lines: seq<string>): Option<seq<Node>> {
    var decls := ParseLines(lines);
    if decls.None? then None
    else
      Resolve(Complete(SortByName(decls.value)))
  }

  function ParseLines(lines: seq<string>): (r: Option<seq<Decl>>)
    ensures r.Some? ==> |r.value| == |lines|
  {
    if lines == [] then Some([])
    else
      var init, last := ParseLines(lines[..|lines| - 1]), ParseLine(lines[|lines| - 1]);
      if init.None? || last.None? then None else Some(init.value + [last.value])
  }

  /** A configuration within 64 modules numbers without a panic, and the
      numbered network is well formed when it has a module. */
  lemma ResolveComplete(decls: seq<Decl>)
    requires |Complete(decls)| <= 64
    ensures var r := Resolve(Complete(decls)); r.Some? && Declared(r.value)
    ensures 0 < |Complete(decls)| ==> WellFormed(Resolve(Complete(decls)).value)
  {
    CompleteDeclares(decls);
  }

  /** The broadcaster, named "", sorts first: when no other line has an
      empty name, the button's pulse reaches the broadcast module. */
  lemma BroadcasterFirst(decls: seq<Decl>)
    requires exists i | 0 <= i < |decls| :: decls[i].name == "" && decls[i].kind == Broadcast
    requires forall i | 0 <= i < |decls| && decls[i].name == "" :: decls[i].kind == Broadcast
    ensures var s := SortByName(decls); s[0].name == "" && s[0].kind == Broadcast
  {
    var s := SortByName(decls);
    var i :| 0 <= i < |decls| && decls[i].name == "" && decls[i].kind == Broadcast;
    assert decls[i] in multiset(s);
    var k :| 0 <= k < |s| && s[k] == decls[i];
    if k > 0 {
      assert NameLe(s[0], s[k]);
      assert LexLe(s[0].name, "");
    }
    assert s[0] in multiset(decls);
  }

  /** Once every line parses and the modules fit 64 bits, no name lookup
      panics and the numbered network is well formed. */
  lemma ParseInputWellFormed(lines: seq<string>)
    requires ParseLines(lines).Some?
    requires |Complete(SortByName(ParseLines(lines).value))| <= 64
    ensures ParseInput(lines).Some? && Declared(ParseInput(lines).value)
    ensures lines != [] ==> WellFormed(ParseInput(lines).value)
  {
    var sorted := SortByName(ParseLines(lines).value);
    assert |sorted| == |lines| by {
      assert |multiset(sorted)| == |multiset(ParseLines(lines).value)|;
    }
    ResolveComplete(sorted);
  }
}
