/** Day 5, "If You Give A Seed A Fertilizer": seven stages of
    (destination, source, length) triples are compiled, from the last stage
    back to the first, into one range map from seed intervals to offsets,
    which then answers point queries and interval-minimum queries. */
module Day05 {
  import opened Wrappers
  import opened RangeMaps

  /** One line of a map section: source..source+length goes to destination. */
  datatype Triple = Triple(dst: int, src: int, len: int)

  /** The parsed almanac: the seed numbers and the seven stages. */
  datatype Almanac = Almanac(
    seeds: seq<int>,
    seedToSoil: seq<Triple>,
    soilToFertilizer: seq<Triple>,
    fertilizerToWater: seq<Triple>,
    waterToLight: seq<Triple>,
    lightToTemperature: seq<Triple>,
    temperatureToHumidity: seq<Triple>,
    humidityToLocation: seq<Triple>)

  // ---------------------------------------------------------------------
  // Sections

  /** `str::split("\n\n")`: the pieces between non-overlapping blank-line
      separators, found left to right. */
  function SplitSections(s: string): (parts: seq<string>)
    ensures |parts| >= 1
  {
    if |s| < 2 then [s]
    else if s[..2] == "\n\n" then [""] + SplitSections(s[2..])
    else
      var rest := SplitSections(s[1..]);
      [[s[0]] + rest[0]] + rest[1..]
  }

  /** Joining the pieces back with the separator restores the input. */
  lemma {:induction false} SplitSectionsJoin(s: string)
    ensures JoinSections(SplitSections(s)) == s
  {
    if |s| >= 2 {
      if s[..2] == "\n\n" {
        SplitSectionsJoin(s[2..]);
        JoinCons("", SplitSections(s[2..]));
        assert s == "\n\n" + s[2..];
      } else {
        var rest := SplitSections(s[1..]);
        SplitSectionsJoin(s[1..]);
        JoinHead([s[0]], rest);
        assert s == [s[0]] + s[1..];
      }
    }
  }

  function JoinSections(parts: seq<string>): string
    requires |parts| >= 1
  {
    if |parts| == 1 then parts[0] else parts[0] + "\n\n" + JoinSections(parts[1..])
  }

  lemma JoinCons(p: string, rest: seq<string>)
    requires |rest| >= 1
    ensures JoinSections([p] + rest) == p + "\n\n" + JoinSections(rest)
  {
    assert ([p] + rest)[1..] == rest;
  }

  lemma JoinHead(c: string, rest: seq<string>)
    requires |rest| >= 1
    ensures JoinSections([c + rest[0]] + rest[1..]) == c + JoinSections(rest)
  {
    if |rest| > 1 {
      var tail := JoinSections(rest[1..]);
      JoinCons(c + rest[0], rest[1..]);
      JoinCons(rest[0], rest[1..]);
      assert rest == [rest[0]] + rest[1..];
      ConcatAssoc(c, rest[0], "\n\n", tail);
    }
  }

  lemma ConcatAssoc(a: string, b: string, c: string, d: string)
    ensures (a + b) + c + d == a + (b + c + d)
  {
  }

  /** The section check of `parse_input`: anything but the seed line and
      seven map sections is "Invalid input". Parsing the numbers inside the
      sections is not part of this model. */
  function CheckSections(input: string): (r: Result<seq<string>>)
    ensures r.Ok? <==> |SplitSections(input)| == 8
    ensures r.Ok? ==> r.value == SplitSections(input)
  {
    var parts := SplitSections(input);
    if |parts| == 8 then Ok(parts) else Err("Invalid input")
  }

  // ---------------------------------------------------------------------
  // map_ranges, pointwise

  /** The value `map_ranges` leaves at point x, after the triples `ts`, over
      the base map `b`. A triple's source range is written only where the base
      is undefined (with the bare offset) or where the base is defined at both
      x and x+offset (with base(x+offset) + offset); elsewhere x keeps what it
      had. Later triples overwrite earlier ones. */
  function StagePoint(b: int -> Option<int>, ts: seq<Triple>, x: int): Option<int>
    decreases |ts|
  {
    if ts == [] then b(x)
    else
      var cur := StagePoint(b, ts[..|ts| - 1], x);
      var t := ts[|ts| - 1];
      var off := t.dst - t.src;
      if t.src <= x < t.src + t.len then
        if b(x).None? then Some(off)
        else if b(x + off).Some? then Some(b(x + off).value + off)
        else cur
      else cur
  }

  predicate InSource(t: Triple, x: int) {
    t.src <= x < t.src + t.len
  }

  /** Points outside every source range keep the base value; in particular
      no triples at all leave the base unchanged. */
  lemma {:induction false} OutsideUnchanged(b: int -> Option<int>, ts: seq<Triple>, x: int)
    requires forall i | 0 <= i < |ts| :: !InSource(ts[i], x)
    ensures StagePoint(b, ts, x) == b(x)
  {
    if ts != [] {
      OutsideUnchanged(b, ts[..|ts| - 1], x);
    }
  }

  /** With disjoint source ranges, a point of triple k's source range gets the
      bare offset where the base is undefined, and base(x+offset) + offset where
      the base is defined at x and at x+offset. */
  lemma {:induction false} InsideOneTriple(b: int -> Option<int>, ts: seq<Triple>, k: int, x: int)
    requires 0 <= k < |ts| && InSource(ts[k], x)
    requires forall i | 0 <= i < |ts| && i != k :: !InSource(ts[i], x)
    ensures var off := ts[k].dst - ts[k].src;
      b(x).None? ==> StagePoint(b, ts, x) == Some(off)
    ensures var off := ts[k].dst - ts[k].src;
      b(x).Some? && b(x + off).Some? ==> StagePoint(b, ts, x) == Some(b(x + off).value + off)
  {
    if k < |ts| - 1 {
      InsideOneTriple(b, ts[..|ts| - 1], k, x);
    }
  }

  /** The stage is not a composition: with a later stage 0 ↦ 50 as base and
      the triple 10 ↦ 0 (destination 0, source 10, length 1), point 10 gets
      offset -10, not the composed 10 → 0 → 50, offset 40, because the base
      is undefined at 10 itself. */
  lemma GapIgnoresBase()
    ensures var b := (y: int) => if y == 0 then Some(50) else None;
      StagePoint(b, [Triple(0, 10, 1)], 10) == Some(-10) && b(10 - 10) == Some(50)
  {
    var b := (y: int) => if y == 0 then Some(50) else None;
    assert [Triple(0, 10, 1)][..0] == [];
  }

  // ---------------------------------------------------------------------
  // map_ranges on the range map

  /** x lies in one of the first k chunks. */
  predicate InChunks(cs: RangeMap, k: int, x: int)
    requires 0 <= k <= |cs|
  {
    exists j | 0 <= j < k :: In(cs[j], x)
  }

  predicate InSpans(gs: seq<Span>, k: int, x: int)
    requires 0 <= k <= |gs|
  {
    exists j | 0 <= j < k :: InSpan(gs[j], x)
  }

  /** A point of [lo, hi) lies in a gap of the base exactly when the base is
      undefined there. */
  lemma GapsIff(base: RangeMap, lo: int, hi: int, x: int)
    requires Valid(base)
    ensures var gaps := Gaps(base, lo, hi);
      InSpans(gaps, |gaps|, x) <==> lo <= x < hi && Get(base, x).None?
  {
    var gaps := Gaps(base, lo, hi);
    if lo <= x < hi && Get(base, x).None? {
      var i := GapsCover(base, lo, hi, x);
    }
    if InSpans(gaps, |gaps|, x) {
      var j :| 0 <= j < |gaps| && InSpan(gaps[j], x);
      GapsUndefined(base, lo, hi, j, x);
    }
  }

  /** A point of [lo, hi) lies in an overlapping chunk exactly when the base is
      defined there. */
  lemma ChunksIff(base: RangeMap, lo: int, hi: int, x: int)
    requires Valid(base)
    ensures var chunks := Overlapping(base, lo, hi);
      InChunks(chunks, |chunks|, x) <==> lo <= x < hi && Get(base, x).Some?
  {
    var chunks := Overlapping(base, lo, hi);
    if lo <= x < hi && Get(base, x).Some? {
      OverlappingCovers(base, lo, hi, x);
    }
    if InChunks(chunks, |chunks|, x) {
      var j :| 0 <= j < |chunks| && In(chunks[j], x);
      OverlappingValues(base, lo, hi, j, x);
    }
  }

  /** The value at x once the chunk loop has handled the first k chunks:
      base(x+offset) + offset where x is in one of them and the base is
      defined at x+offset, otherwise what x had before the triple. */
  function ChunkState(base: RangeMap, prev: RangeMap, chunks: RangeMap, k: int, offset: int, x: int): Option<int>
    requires 0 <= k <= |chunks|
  {
    if InChunks(chunks, k, x) && Get(base, x + offset).Some?
    then Some(Get(base, x + offset).value + offset)
    else Get(prev, x)
  }

  /** The value at x once the gap loop has handled the first k gaps. */
  function GapState(mid: RangeMap, gaps: seq<Span>, k: int, offset: int, x: int): Option<int>
    requires 0 <= k <= |gaps|
  {
    if InSpans(gaps, k, x) then Some(offset) else Get(mid, x)
  }

  /** `map_ranges`: start from a copy of the base; for each triple, rewrite
      the parts of its source range whose shifted image the base defines, then
      fill the gaps of the base inside the source range with the offset. */
  method MapRanges(base: RangeMap, ranges: seq<Triple>) returns (ret: RangeMap)
    requires Valid(base)
    ensures Valid(ret)
    ensures forall x :: Get(ret, x) == StagePoint(y => Get(base, y), ranges, x)
  {
    ret := base;
    for i := 0 to |ranges|
      invariant Valid(ret)
      invariant forall x :: Get(ret, x) == StagePoint(y => Get(base, y), ranges[..i], x)
    {
      var t := ranges[i];
      ghost var prev := ret;
      ret := MapTriple(base, t, ret);
      assert ranges[..i + 1] == ranges[..i] + [t];
      forall x ensures Get(ret, x) == StagePoint(y => Get(base, y), ranges[..i] + [t], x) {
        var b := y => Get(base, y);
        assert b(x) == Get(base, x) && b(x + t.dst - t.src) == Get(base, x + t.dst - t.src);
        StagePointSnoc(b, ranges[..i], t, x);
        assert Get(prev, x) == StagePoint(b, ranges[..i], x);
      }
    }
    assert ranges[..|ranges|] == ranges;
  }

  /** The body of the loop of `map_ranges` for one triple: its chunk loop,
      then its gap loop. */
  method MapTriple(base: RangeMap, t: Triple, prev: RangeMap) returns (ret: RangeMap)
    requires Valid(base) && Valid(prev)
    ensures Valid(ret)
    ensures forall x :: Get(ret, x) == TripleRule(base, t, Get(prev, x), x)
  {
    var mid := MapChunks(base, t, prev);
    ret := FillGaps(base, t, mid);
    var chunks, gaps := Overlapping(base, t.src, t.src + t.len), Gaps(base, t.src, t.src + t.len);
    forall x ensures Get(ret, x) == TripleRule(base, t, Get(prev, x), x) {
      GapsIff(base, t.src, t.src + t.len, x);
      ChunksIff(base, t.src, t.src + t.len, x);
      TripleValue(base, prev, mid, ret, t, InSpans(gaps, |gaps|, x), InChunks(chunks, |chunks|, x), x);
    }
  }

  /** The value one triple gives x, from the value `before` it had: the
      offset where the base is undefined inside the source range, the base
      at the shifted image plus the offset where that is defined, and
      `before` everywhere else. */
  function TripleRule(base: RangeMap, t: Triple, before: Option<int>, x: int): Option<int> {
    var off := t.dst - t.src;
    if t.src <= x < t.src + t.len && Get(base, x).None? then Some(off)
    else if t.src <= x < t.src + t.len && Get(base, x + off).Some? then Some(Get(base, x + off).value + off)
    else before
  }

  /** The chunk loop of `map_ranges` for one triple. */
  method MapChunks(base: RangeMap, t: Triple, prev: RangeMap) returns (ret: RangeMap)
    requires Valid(base) && Valid(prev)
    ensures Valid(ret)
    ensures var chunks := Overlapping(base, t.src, t.src + t.len);
      forall x :: Get(ret, x) == ChunkState(base, prev, chunks, |chunks|, t.dst - t.src, x)
  {
    var offset := t.dst - t.src;
    ret := prev;
    var chunks := Overlapping(base, t.src, t.src + t.len);
    for k := 0 to |chunks|
      invariant Valid(ret)
      invariant forall x :: Get(ret, x) == ChunkState(base, prev, chunks, k, offset, x)
    {
      ret := MapChunk(base, chunks, k, offset, ret, prev);
    }
  }

  /** The gap loop of `map_ranges` for one triple: the offset is written
      over every gap of the base inside the source range. */
  method FillGaps(base: RangeMap, t: Triple, mid: RangeMap) returns (ret: RangeMap)
    requires Valid(base) && Valid(mid)
    ensures Valid(ret)
    ensures var gaps := Gaps(base, t.src, t.src + t.len);
      forall x :: Get(ret, x) == GapState(mid, gaps, |gaps|, t.dst - t.src, x)
  {
    var offset := t.dst - t.src;
    var gaps := Gaps(base, t.src, t.src + t.len);
    ret := mid;
    for k := 0 to |gaps|
      invariant Valid(ret)
      invariant forall x :: Get(ret, x) == GapState(mid, gaps, k, offset, x)
    {
      var gap := gaps[k];
      ghost var before := ret;
      ret := Insert(ret, gap.lo, gap.hi, offset);
      forall x ensures Get(ret, x) == GapState(mid, gaps, k + 1, offset, x) {
        GapStep(mid, gaps, k, offset, before, ret, x);
      }
    }
  }

  /** Writing the offset over gap k extends the gap loop's state by that gap. */
  lemma GapStep(mid: RangeMap, gaps: seq<Span>, k: int, offset: int, before: RangeMap, after: RangeMap, x: int)
    requires 0 <= k < |gaps|
    requires Get(before, x) == GapState(mid, gaps, k, offset, x)
    requires Get(after, x) == if gaps[k].lo <= x < gaps[k].hi then Some(offset) else Get(before, x)
    ensures Get(after, x) == GapState(mid, gaps, k + 1, offset, x)
  {
    if InSpan(gaps[k], x) {
      assert InSpans(gaps, k + 1, x);
    } else {
      assert InSpans(gaps, k + 1, x) <==> InSpans(gaps, k, x);
    }
  }

  /** The value the two loops leave at x, in terms of the base alone, given
      whether x lies in a gap and whether it lies in a chunk of the source
      range. */
  lemma TripleValue(base: RangeMap, prev: RangeMap, mid: RangeMap, ret: RangeMap, t: Triple, inGap: bool, inChunk: bool, x: int)
    requires inGap <==> t.src <= x < t.src + t.len && Get(base, x).None?
    requires inChunk <==> t.src <= x < t.src + t.len && Get(base, x).Some?
    requires var off := t.dst - t.src;
      Get(mid, x) == if inChunk && Get(base, x + off).Some? then Some(Get(base, x + off).value + off) else Get(prev, x)
    requires Get(ret, x) == if inGap then Some(t.dst - t.src) else Get(mid, x)
    ensures Get(ret, x) == TripleRule(base, t, Get(prev, x), x)
  {
    var off := t.dst - t.src;
    TripleCases(t.src <= x < t.src + t.len, off, Get(base, x), Get(base, x + off), inGap, inChunk, Get(prev, x), Get(mid, x), Get(ret, x));
  }

  /** The case analysis behind TripleValue, on the values alone. */
  lemma TripleCases(inRange: bool, off: int, bx: Option<int>, bo: Option<int>, inGap: bool, inChunk: bool,
                    before: Option<int>, mid: Option<int>, after: Option<int>)
    requires inGap <==> inRange && bx.None?
    requires inChunk <==> inRange && bx.Some?
    requires mid == if inChunk && bo.Some? then Some(bo.value + off) else before
    requires after == if inGap then Some(off) else mid
    ensures after == if inRange && bx.None? then Some(off) else if inRange && bo.Some? then Some(bo.value + off) else before
  {
  }

  /** StagePoint's rule for the last triple. */
  lemma StagePointSnoc(b: int -> Option<int>, ts: seq<Triple>, t: Triple, x: int)
    ensures var off := t.dst - t.src;
      StagePoint(b, ts + [t], x) ==
        if t.src <= x < t.src + t.len && b(x).None? then Some(off)
        else if t.src <= x < t.src + t.len && b(x + off).Some? then Some(b(x + off).value + off)
        else StagePoint(b, ts, x)
  {
    assert (ts + [t])[..|ts|] == ts;
  }

  /** The value at x once the inner loop over the parts of the base inside
      the image of chunk c has handled the first l of them. */
  function InnerState(base: RangeMap, prev: RangeMap, chunks: RangeMap, k: int, c: Entry, dchunks: RangeMap, l: int, offset: int, x: int): Option<int>
    requires 0 <= k <= |chunks| && 0 <= l <= |dchunks|
  {
    if (InChunks(chunks, k, x) || (In(c, x) && InChunks(dchunks, l, x + offset))) && Get(base, x + offset).Some?
    then Some(Get(base, x + offset).value + offset)
    else Get(prev, x)
  }

  /** The body of the chunk loop of `map_ranges` for chunk k: every part of
      the base overlapping the chunk's image is copied back, shifted. */
  method MapChunk(base: RangeMap, chunks: RangeMap, k: int, offset: int, ret0: RangeMap, ghost prev: RangeMap)
    returns (ret: RangeMap)
    requires Valid(base) && Valid(ret0) && 0 <= k < |chunks|
    requires forall x :: Get(ret0, x) == ChunkState(base, prev, chunks, k, offset, x)
    ensures Valid(ret)
    ensures forall x :: Get(ret, x) == ChunkState(base, prev, chunks, k + 1, offset, x)
  {
    var c := chunks[k];
    var dchunks := Overlapping(base, c.lo + offset, c.hi + offset);
    ret := ret0;
    for l := 0 to |dchunks|
      invariant Valid(ret)
      invariant forall x :: Get(ret, x) == InnerState(base, prev, chunks, k, c, dchunks, l, offset, x)
    {
      ret := CopyPart(base, chunks, k, dchunks, l, offset, ret, prev);
    }
    forall x ensures Get(ret, x) == ChunkState(base, prev, chunks, k + 1, offset, x) {
      InnerDone(base, prev, chunks, k, offset, x);
    }
  }

  /** The body of the inner loop of `map_ranges`: part l of the base inside
      the image of chunk k is inserted back, shifted by the offset. */
  method CopyPart(base: RangeMap, chunks: RangeMap, k: int, dchunks: RangeMap, l: int, offset: int, ret0: RangeMap, ghost prev: RangeMap)
    returns (ret: RangeMap)
    requires Valid(base) && Valid(ret0) && 0 <= k < |chunks|
    requires dchunks == Overlapping(base, chunks[k].lo + offset, chunks[k].hi + offset) && 0 <= l < |dchunks|
    requires forall x :: Get(ret0, x) == InnerState(base, prev, chunks, k, chunks[k], dchunks, l, offset, x)
    ensures Valid(ret)
    ensures forall x :: Get(ret, x) == InnerState(base, prev, chunks, k, chunks[k], dchunks, l + 1, offset, x)
  {
    var d := dchunks[l];
    ret := Insert(ret0, d.lo - offset, d.hi - offset, d.val + offset);
    forall x ensures Get(ret, x) == InnerState(base, prev, chunks, k, chunks[k], dchunks, l + 1, offset, x) {
      if In(d, x + offset) {
        InnerHit(base, chunks[k], offset, l, x);
      }
      InnerStep(base, prev, chunks, k, dchunks, ret0, ret, l, offset, x);
    }
  }

  /** Copying part l of the chunk's image back, shifted, extends the inner
      loop's state by that part. */
  lemma InnerStep(base: RangeMap, prev: RangeMap, chunks: RangeMap, k: int, dchunks: RangeMap, before: RangeMap, after: RangeMap, l: int, offset: int, x: int)
    requires 0 <= k < |chunks| && 0 <= l < |dchunks|
    requires In(dchunks[l], x + offset) ==> In(chunks[k], x) && Get(base, x + offset) == Some(dchunks[l].val)
    requires Get(before, x) == InnerState(base, prev, chunks, k, chunks[k], dchunks, l, offset, x)
    requires var d := dchunks[l];
      Get(after, x) == if d.lo - offset <= x < d.hi - offset then Some(d.val + offset) else Get(before, x)
    ensures Get(after, x) == InnerState(base, prev, chunks, k, chunks[k], dchunks, l + 1, offset, x)
  {
    var d := dchunks[l];
    if d.lo - offset <= x < d.hi - offset {
      assert In(d, x + offset);
      assert InChunks(dchunks, l + 1, x + offset);
    } else {
      assert !In(d, x + offset);
      assert InChunks(dchunks, l + 1, x + offset) <==> InChunks(dchunks, l, x + offset);
    }
  }

  /** A point whose image lies in part l of the chunk's image lies in the
      chunk, and the base there has that part's value. */
  lemma InnerHit(base: RangeMap, c: Entry, offset: int, l: int, x: int)
    requires Valid(base)
    requires var dchunks := Overlapping(base, c.lo + offset, c.hi + offset);
      0 <= l < |dchunks| && In(dchunks[l], x + offset)
    ensures In(c, x)
    ensures Get(base, x + offset) == Some(Overlapping(base, c.lo + offset, c.hi + offset)[l].val)
  {
    OverlappingValues(base, c.lo + offset, c.hi + offset, l, x + offset);
  }

  /** After all parts of the chunk's image, chunk k counts as handled. */
  lemma InnerDone(base: RangeMap, prev: RangeMap, chunks: RangeMap, k: int, offset: int, x: int)
    requires Valid(base) && 0 <= k < |chunks|
    ensures var dchunks := Overlapping(base, chunks[k].lo + offset, chunks[k].hi + offset);
      InnerState(base, prev, chunks, k, chunks[k], dchunks, |dchunks|, offset, x)
      == ChunkState(base, prev, chunks, k + 1, offset, x)
  {
    var c := chunks[k];
    ChunksIff(base, c.lo + offset, c.hi + offset, x + offset);
    assert InChunks(chunks, k + 1, x) <==> InChunks(chunks, k, x) || In(c, x);
  }

  // ---------------------------------------------------------------------
  // compile_almanac

  /** The stages in the order `compile_almanac` folds them: from
      humidity-to-location back to seed-to-soil. */
  function Stages(a: Almanac): seq<seq<Triple>> {
    [a.humidityToLocation, a.temperatureToHumidity, a.lightToTemperature,
     a.waterToLight, a.fertilizerToWater, a.soilToFertilizer, a.seedToSoil]
  }

  /** The compiled map, as a function, after the first k stages of `order`. */
  ghost function CompiledAfter(order: seq<seq<Triple>>, k: nat): int -> Option<int>
    requires k <= |order|
  {
    if k == 0 then (x: int) => None
    else (x: int) => StagePoint(CompiledAfter(order, k - 1), order[k - 1], x)
  }

  ghost function Compiled(a: Almanac): int -> Option<int> {
    CompiledAfter(Stages(a), 7)
  }

  lemma {:induction false} StagePointExt(b1: int -> Option<int>, b2: int -> Option<int>, ts: seq<Triple>, x: int)
    requires forall y :: b1(y) == b2(y)
    ensures StagePoint(b1, ts, x) == StagePoint(b2, ts, x)
  {
    if ts != [] {
      StagePointExt(b1, b2, ts[..|ts| - 1], x);
    }
  }

  /** `compile_almanac`: start from the empty map and apply `map_ranges` for
      each stage, last stage first. */
  method CompileAlmanac(a: Almanac) returns (m: RangeMap)
    ensures Valid(m)
    ensures forall x :: Get(m, x) == Compiled(a)(x)
  {
    var order := Stages(a);
    m := [];
    for i := 0 to 7
      invariant Valid(m)
      invariant forall x :: Get(m, x) == CompiledAfter(order, i)(x)
    {
      ghost var old_m := m;
      m := MapRanges(m, order[i]);
      forall x ensures Get(m, x) == CompiledAfter(order, i + 1)(x) {
        StagePointExt(y => Get(old_m, y), CompiledAfter(order, i), order[i], x);
      }
    }
  }

  // ---------------------------------------------------------------------
  // The puzzles

  /** `i64::MAX`, the start of the running minimum. */
  const I64Max: int := 0x7fff_ffff_ffff_ffff

  /** A seed's location: the seed plus its offset, 0 where the map is silent. */
  function Mapped(m: RangeMap, x: int): int {
    x + Get(m, x).GetOr(0)
  }

  predicate InSeedRange(r: (int, int), x: int) {
    r.0 <= x < r.0 + r.1
  }

  /** The chunk loop of `min_ranges` for one seed range: within a chunk the
      location grows with the seed, so each chunk is represented by its first
      point. */
  method MinOverChunks(base: RangeMap, src: int, len: int, ret0: int) returns (ret: int, ghost w: int)
    requires Valid(base)
    ensures ret <= ret0
    ensures forall x | src <= x < src + len && Get(base, x).Some? :: ret <= Mapped(base, x)
    ensures ret == ret0 || (src <= w < src + len && ret == Mapped(base, w))
  {
    var chunks := Overlapping(base, src, src + len);
    ret, w := ret0, 0;
    for k := 0 to |chunks|
      invariant ret <= ret0
      invariant forall x | InChunks(chunks, k, x) :: ret <= Mapped(base, x)
      invariant ret == ret0 || (src <= w < src + len && ret == Mapped(base, w))
    {
      var c := chunks[k];
      OverlappingValues(base, src, src + len, k, c.lo);
      forall x | In(c, x) ensures Get(base, x) == Get(base, c.lo) {
        OverlappingValues(base, src, src + len, k, x);
      }
      var v := c.lo + Get(base, c.lo).value;
      if v < ret {
        ret, w := v, c.lo;
      }
    }
    forall x | src <= x < src + len && Get(base, x).Some? ensures ret <= Mapped(base, x) {
      ChunksIff(base, src, src + len, x);
    }
  }

  /** The gap loop of `min_ranges` for one seed range: in a gap the location
      is the seed itself, least at the gap's start. */
  method MinOverGaps(base: RangeMap, src: int, len: int, ret0: int) returns (ret: int, ghost w: int)
    requires Valid(base)
    ensures ret <= ret0
    ensures forall x | src <= x < src + len && Get(base, x).None? :: ret <= Mapped(base, x)
    ensures ret == ret0 || (src <= w < src + len && ret == Mapped(base, w))
  {
    var gaps := Gaps(base, src, src + len);
    ret, w := ret0, 0;
    for k := 0 to |gaps|
      invariant ret <= ret0
      invariant forall x | InSpans(gaps, k, x) :: ret <= x
      invariant ret == ret0 || (src <= w < src + len && ret == Mapped(base, w))
    {
      var gap := gaps[k];
      if gap.lo < ret {
        GapsUndefined(base, src, src + len, k, gap.lo);
        ret, w := gap.lo, gap.lo;
      }
      ghost var k1 := k + 1;
      forall x | InSpans(gaps, k1, x) ensures ret <= x {
        if !InSpans(gaps, k, x) {
          assert InSpan(gap, x);
        }
      }
    }
    forall x | src <= x < src + len && Get(base, x).None? ensures ret <= Mapped(base, x) {
      GapsIff(base, src, src + len, x);
    }
  }

  /** `min_ranges`: the least location over all seeds of the ranges;
      `i64::MAX` when there is no seed. */
  method MinRanges(base: RangeMap, ranges: seq<(int, int)>) returns (ret: int)
    requires Valid(base)
    ensures ret <= I64Max
    ensures forall i, x | 0 <= i < |ranges| && InSeedRange(ranges[i], x) :: ret <= Mapped(base, x)
    ensures ret == I64Max || exists i, x | 0 <= i < |ranges| && InSeedRange(ranges[i], x) :: ret == Mapped(base, x)
  {
    ret := I64Max;
    ghost var wi, wx := 0, 0;
    for i := 0 to |ranges|
      invariant ret <= I64Max
      invariant forall i', x | 0 <= i' < i && InSeedRange(ranges[i'], x) :: ret <= Mapped(base, x)
      invariant ret == I64Max || (0 <= wi < |ranges| && InSeedRange(ranges[wi], wx) && ret == Mapped(base, wx))
    {
      var src, len := ranges[i].0, ranges[i].1;
      var r1, w1 := MinOverChunks(base, src, len, ret);
      var r2, w2 := MinOverGaps(base, src, len, r1);
      if r2 != ret {
        wi := i;
        wx := if r2 == r1 then w1 else w2;
      }
      ret := r2;
    }
  }

  /** `puzzle1`: the least location of the seed numbers; `min().unwrap()`
      panics when there are none. */
  method Puzzle1(a: Almanac) returns (r: Option<int>)
    ensures r.None? <==> a.seeds == []
    ensures r.Some? ==> forall i | 0 <= i < |a.seeds| :: r.value <= a.seeds[i] + Compiled(a)(a.seeds[i]).GetOr(0)
    ensures r.Some? ==> exists i | 0 <= i < |a.seeds| :: r.value == a.seeds[i] + Compiled(a)(a.seeds[i]).GetOr(0)
  {
    var m := CompileAlmanac(a);
    if a.seeds == [] {
      return None;
    }
    var best := Mapped(m, a.seeds[0]);
    ghost var w := 0;
    for i := 1 to |a.seeds|
      invariant forall j | 0 <= j < i :: best <= Mapped(m, a.seeds[j])
      invariant 0 <= w < |a.seeds| && best == Mapped(m, a.seeds[w])
    {
      var v := Mapped(m, a.seeds[i]);
      if v < best {
        best, w := v, i;
      }
    }
    return Some(best);
  }

  /** The seed numbers read as (start, length) pairs by `chunks(2)`; an odd
      count leaves a one-element chunk whose `s[1]` panics. */
  function SeedPairs(seeds: seq<int>): (r: Option<seq<(int, int)>>)
    ensures r.Some? <==> |seeds| % 2 == 0
    ensures r.Some? ==> |r.value| * 2 == |seeds|
    ensures r.Some? ==> forall i | 0 <= i < |r.value| :: r.value[i] == (seeds[2 * i], seeds[2 * i + 1])
  {
    if |seeds| % 2 == 1 then None
    else Some(seq(|seeds| / 2, i requires 0 <= i < |seeds| / 2 => (seeds[2 * i], seeds[2 * i + 1])))
  }

  /** A seed of the pair ranges: seed x lies in the range of pair i. */
  predicate InPairRange(seeds: seq<int>, i: int, x: int) {
    0 <= 2 * i + 1 < |seeds| && seeds[2 * i] <= x < seeds[2 * i] + seeds[2 * i + 1]
  }

  /** `puzzle2`: the least location over the seed ranges, `i64::MAX` when there
      are none. */
  method Puzzle2(a: Almanac) returns (r: Option<int>)
    ensures r.None? <==> |a.seeds| % 2 == 1
    ensures r.Some? ==> r.value <= I64Max
    ensures r.Some? ==> forall i, x | InPairRange(a.seeds, i, x) :: r.value <= x + Compiled(a)(x).GetOr(0)
    ensures r.Some? ==> (r.value == I64Max || exists i, x | InPairRange(a.seeds, i, x) :: r.value == x + Compiled(a)(x).GetOr(0))
  {
    var m := CompileAlmanac(a);
    var pairs := SeedPairs(a.seeds);
    if pairs.None? {
      return None;
    }
    var ret := MinRanges(m, pairs.value);
    forall i, x | InPairRange(a.seeds, i, x) ensures ret <= x + Compiled(a)(x).GetOr(0) {
      assert InSeedRange(pairs.value[i], x);
      assert ret <= Mapped(m, x);
    }
    if ret != I64Max {
      var i, x :| 0 <= i < |pairs.value| && InSeedRange(pairs.value[i], x) && ret == Mapped(m, x);
      assert InPairRange(a.seeds, i, x);
    }
    return Some(ret);
  }
}
