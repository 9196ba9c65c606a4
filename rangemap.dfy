/** The part of the `rangemap` crate that the almanac compiler uses: a map
    from disjoint half-open integer ranges to values, with point lookup,
    clamped overlapping entries, gaps, and insertion that overwrites.
    The crate also merges touching entries with equal values; no lookup or
    query below can tell, so this model keeps them apart. */
module RangeMaps {
  import opened Wrappers

  /** The entry lo..hi ↦ val. */
  datatype Entry = Entry(lo: int, hi: int, val: int)

  /** A half-open range lo..hi. */
  datatype Span = Span(lo: int, hi: int)

  type RangeMap = seq<Entry>

  predicate In(e: Entry, x: int) {
    e.lo <= x < e.hi
  }

  predicate InSpan(s: Span, x: int) {
    s.lo <= x < s.hi
  }

  /** Entries are non-empty, sorted and pairwise disjoint. */
  predicate Valid(m: RangeMap) {
    && (forall i | 0 <= i < |m| :: m[i].lo < m[i].hi)
    && (forall i, j | 0 <= i < j < |m| :: m[i].hi <= m[j].lo)
  }

  /** `get`: the value of the entry containing x. */
  function Get(m: RangeMap, x: int): Option<int> {
    if m == [] then None
    else if In(m[0], x) then Some(m[0].val)
    else Get(m[1..], x)
  }

  /** Lookup finds the one entry that contains x, and nothing when no entry does. */
  lemma {:induction false} GetIn(m: RangeMap, i: int, x: int)
    requires Valid(m) && 0 <= i < |m| && In(m[i], x)
    ensures Get(m, x) == Some(m[i].val)
  {
    if i > 0 {
      GetIn(m[1..], i - 1, x);
    }
  }

  lemma {:induction false} GetNone(m: RangeMap, x: int)
    ensures Get(m, x).None? <==> forall i | 0 <= i < |m| :: !In(m[i], x)
  {
    if m != [] {
      GetNone(m[1..], x);
      assert forall i | 1 <= i < |m| :: m[i] == m[1..][i - 1];
    }
  }

  function Max(a: int, b: int): int {
    if a < b then b else a
  }

  function Min(a: int, b: int): int {
    if a < b then a else b
  }

  /** The entry `e` cut down to lo..hi (possibly empty). */
  function Clamp(e: Entry, lo: int, hi: int): Entry {
    Entry(Max(e.lo, lo), Min(e.hi, hi), e.val)
  }

  /** `clamped_overlapping`: every entry meeting lo..hi, clamped to it. */
  function Overlapping(m: RangeMap, lo: int, hi: int): (r: RangeMap)
    ensures forall i | 0 <= i < |r| :: lo <= r[i].lo < r[i].hi <= hi
  {
    if m == [] then []
    else
      var c := Clamp(m[0], lo, hi);
      (if c.lo < c.hi then [c] else []) + Overlapping(m[1..], lo, hi)
  }

  /** Each clamped entry carries the value the map has at each of its points. */
  lemma {:induction false} OverlappingValues(m: RangeMap, lo: int, hi: int, i: int, y: int)
    requires Valid(m) && 0 <= i < |Overlapping(m, lo, hi)| && In(Overlapping(m, lo, hi)[i], y)
    ensures Get(m, y) == Some(Overlapping(m, lo, hi)[i].val)
  {
    var c := Clamp(m[0], lo, hi);
    var head := if c.lo < c.hi then [c] else [];
    if i < |head| {
      GetIn(m, 0, y);
    } else {
      assert Overlapping(m, lo, hi)[i] == Overlapping(m[1..], lo, hi)[i - |head|];
      OverlappingValues(m[1..], lo, hi, i - |head|, y);
      GetNone(m[1..], y);
      var j :| 0 <= j < |m| - 1 && In(m[1..][j], y);
      assert m[0].hi <= m[j + 1].lo;
    }
  }

  /** Every point of lo..hi that the map defines lies in some clamped entry. */
  lemma {:induction false} OverlappingCovers(m: RangeMap, lo: int, hi: int, y: int)
    requires lo <= y < hi && Get(m, y).Some?
    ensures exists i | 0 <= i < |Overlapping(m, lo, hi)| :: In(Overlapping(m, lo, hi)[i], y)
  {
    var c := Clamp(m[0], lo, hi);
    var head := if c.lo < c.hi then [c] else [];
    if In(m[0], y) {
      assert In(Overlapping(m, lo, hi)[0], y);
    } else {
      OverlappingCovers(m[1..], lo, hi, y);
      var i :| 0 <= i < |Overlapping(m[1..], lo, hi)| && In(Overlapping(m[1..], lo, hi)[i], y);
      assert Overlapping(m, lo, hi)[i + |head|] == Overlapping(m[1..], lo, hi)[i];
    }
  }

  /** `gaps`: the maximal sub-ranges of cur..hi that no entry covers, in order. */
  function Gaps(m: RangeMap, cur: int, hi: int): (r: seq<Span>)
    ensures forall i | 0 <= i < |r| :: cur <= r[i].lo < r[i].hi <= hi
  {
    if cur >= hi then []
    else if m == [] then [Span(cur, hi)]
    else
      (if cur < Min(m[0].lo, hi) then [Span(cur, Min(m[0].lo, hi))] else [])
      + Gaps(m[1..], Max(cur, m[0].hi), hi)
  }

  /** No point of a gap is defined by the map. */
  lemma {:induction false} GapsUndefined(m: RangeMap, cur: int, hi: int, i: int, y: int)
    requires Valid(m) && 0 <= i < |Gaps(m, cur, hi)| && InSpan(Gaps(m, cur, hi)[i], y)
    ensures Get(m, y).None?
  {
    if m != [] && cur < hi {
      var head := if cur < Min(m[0].lo, hi) then [Span(cur, Min(m[0].lo, hi))] else [];
      if i < |head| {
        forall j | 0 <= j < |m| ensures !In(m[j], y) {
          if j > 0 {
            assert m[0].hi <= m[j].lo;
          }
        }
        GetNone(m, y);
      } else {
        assert Gaps(m, cur, hi)[i] == Gaps(m[1..], Max(cur, m[0].hi), hi)[i - |head|];
        GapsUndefined(m[1..], Max(cur, m[0].hi), hi, i - |head|, y);
        GetNone(m[1..], y);
        GetNone(m, y);
        assert forall j | 1 <= j < |m| :: m[j] == m[1..][j - 1];
      }
    }
  }

  /** One step of Gaps: the gap before the first entry, then the rest. */
  lemma GapsUnfold(m: RangeMap, cur: int, hi: int)
    requires m != [] && cur < hi
    ensures Gaps(m, cur, hi) == (if cur < Min(m[0].lo, hi) then [Span(cur, Min(m[0].lo, hi))] else [])
      + Gaps(m[1..], Max(cur, m[0].hi), hi)
  {
  }

  /** Every point of cur..hi that the map leaves undefined lies in some gap;
      i is the index of that gap. */
  lemma {:induction false} GapsCover(m: RangeMap, cur: int, hi: int, y: int) returns (i: nat)
    requires cur <= y < hi && Get(m, y).None?
    ensures i < |Gaps(m, cur, hi)| && InSpan(Gaps(m, cur, hi)[i], y)
  {
    if m == [] {
      i := 0;
    } else {
      GapsUnfold(m, cur, hi);
      var head := if cur < Min(m[0].lo, hi) then [Span(cur, Min(m[0].lo, hi))] else [];
      if y < m[0].lo {
        i := 0;
      } else {
        assert !In(m[0], y);
        var rest := Gaps(m[1..], Max(cur, m[0].hi), hi);
        var k := GapsCover(m[1..], Max(cur, m[0].hi), hi, y);
        i := k + |head|;
        assert Gaps(m, cur, hi) == head + rest;
        assert Gaps(m, cur, hi)[i] == rest[k];
      }
    }
  }

  /** The parts of the entries outside lo..hi. */
  function Cut(m: RangeMap, lo: int, hi: int): (r: RangeMap) {
    if m == [] then []
    else
      var e := m[0];
      var left := Entry(e.lo, Min(e.hi, lo), e.val);
      var right := Entry(Max(e.lo, hi), e.hi, e.val);
      (if left.lo < left.hi then [left] else [])
      + (if right.lo < right.hi then [right] else [])
      + Cut(m[1..], lo, hi)
  }

  /** The entries of `m` all start at or after `x`. */
  predicate StartsFrom(m: RangeMap, x: int) {
    forall i | 0 <= i < |m| :: x <= m[i].lo
  }

  lemma {:induction false} CutBounds(m: RangeMap, lo: int, hi: int, x: int)
    requires StartsFrom(m, x)
    ensures StartsFrom(Cut(m, lo, hi), x)
  {
    if m != [] {
      CutBounds(m[1..], lo, hi, x);
    }
  }

  /** The entries of `m` all end at or before `x`. */
  predicate EndsBy(m: RangeMap, x: int) {
    forall i | 0 <= i < |m| :: m[i].hi <= x
  }

  lemma ValidAppend(a: RangeMap, b: RangeMap, x: int)
    requires Valid(a) && Valid(b) && EndsBy(a, x) && StartsFrom(b, x)
    ensures Valid(a + b)
  {
  }

  lemma {:induction false} CutValid(m: RangeMap, lo: int, hi: int)
    requires Valid(m) && lo < hi
    ensures Valid(Cut(m, lo, hi))
  {
    if m != [] {
      var e := m[0];
      var left := Entry(e.lo, Min(e.hi, lo), e.val);
      var right := Entry(Max(e.lo, hi), e.hi, e.val);
      var head := (if left.lo < left.hi then [left] else []) + (if right.lo < right.hi then [right] else []);
      CutValid(m[1..], lo, hi);
      assert StartsFrom(m[1..], e.hi);
      CutBounds(m[1..], lo, hi, e.hi);
      assert Valid(head) && EndsBy(head, e.hi);
      ValidAppend(head, Cut(m[1..], lo, hi), e.hi);
    }
  }

  lemma {:induction false} CutOutside(m: RangeMap, lo: int, hi: int)
    requires lo < hi
    ensures forall i | 0 <= i < |Cut(m, lo, hi)| :: Cut(m, lo, hi)[i].hi <= lo || hi <= Cut(m, lo, hi)[i].lo
  {
    if m != [] {
      CutOutside(m[1..], lo, hi);
    }
  }

  lemma {:induction false} CutGet(m: RangeMap, lo: int, hi: int, x: int)
    ensures Get(Cut(m, lo, hi), x) == if lo <= x < hi then None else Get(m, x)
  {
    if m != [] {
      var e := m[0];
      var left := Entry(e.lo, Min(e.hi, lo), e.val);
      var right := Entry(Max(e.lo, hi), e.hi, e.val);
      var L := if left.lo < left.hi then [left] else [];
      var R := if right.lo < right.hi then [right] else [];
      var rest := Cut(m[1..], lo, hi);
      CutGet(m[1..], lo, hi, x);
      GetAppend(L + R, rest, x);
      GetAppend(L, R, x);
      GetSingle(left, x);
      GetSingle(right, x);
    }
  }

  /** Cutting keeps the map valid, empties lo..hi and keeps every other point. */
  lemma CutSpec(m: RangeMap, lo: int, hi: int)
    requires Valid(m) && lo < hi
    ensures Valid(Cut(m, lo, hi))
    ensures forall i | 0 <= i < |Cut(m, lo, hi)| :: Cut(m, lo, hi)[i].hi <= lo || hi <= Cut(m, lo, hi)[i].lo
    ensures forall x :: Get(Cut(m, lo, hi), x) == if lo <= x < hi then None else Get(m, x)
  {
    CutValid(m, lo, hi);
    CutOutside(m, lo, hi);
    forall x ensures Get(Cut(m, lo, hi), x) == if lo <= x < hi then None else Get(m, x) {
      CutGet(m, lo, hi, x);
    }
  }

  lemma GetSingle(e: Entry, x: int)
    ensures Get([e], x) == if In(e, x) then Some(e.val) else None
  {
    assert [e][1..] == [];
  }

  lemma {:induction false} GetAppend(a: RangeMap, b: RangeMap, x: int)
    ensures Get(a + b, x) == if Get(a, x).Some? then Get(a, x) else Get(b, x)
  {
    if a != [] {
      assert (a + b)[0] == a[0];
      assert (a + b)[1..] == a[1..] + b;
      GetAppend(a[1..], b, x);
    } else {
      assert a + b == b;
    }
  }

  /** Putting entry `e` in its sorted place among entries disjoint from it. */
  function Place(m: RangeMap, e: Entry): (r: RangeMap) {
    if m == [] then [e]
    else if e.hi <= m[0].lo then [e] + m
    else [m[0]] + Place(m[1..], e)
  }

  lemma {:induction false} PlaceValid(m: RangeMap, e: Entry)
    requires Valid(m) && e.lo < e.hi
    requires forall i | 0 <= i < |m| :: m[i].hi <= e.lo || e.hi <= m[i].lo
    ensures Valid(Place(m, e))
  {
    if m != [] && e.hi > m[0].lo {
      PlaceValid(m[1..], e);
      assert m[0].hi <= e.lo;
      assert StartsFrom(m[1..], m[0].hi);
      var p := Place(m[1..], e);
      assert StartsFrom(p, m[0].hi) by {
        forall i | 0 <= i < |p| ensures m[0].hi <= p[i].lo {
          PlaceMember(m[1..], e, i);
        }
      }
      ValidAppend([m[0]], p, m[0].hi);
    }
  }

  lemma {:induction false} PlaceGet(m: RangeMap, e: Entry, x: int)
    requires Valid(m) && e.lo < e.hi
    requires forall i | 0 <= i < |m| :: m[i].hi <= e.lo || e.hi <= m[i].lo
    ensures Get(Place(m, e), x) == if In(e, x) then Some(e.val) else Get(m, x)
  {
    if m != [] && e.hi > m[0].lo {
      PlaceGet(m[1..], e, x);
    } else if m != [] {
      assert ([e] + m)[1..] == m;
    }
  }

  lemma {:induction false} PlaceStarts(m: RangeMap, e: Entry)
    requires StartsFrom(m, e.lo)
    ensures StartsFrom(Place(m, e), e.lo)
  {
    var p := Place(m, e);
    forall i | 0 <= i < |p| ensures e.lo <= p[i].lo {
      PlaceMember(m, e, i);
    }
  }

  lemma PlaceSpec(m: RangeMap, e: Entry)
    requires Valid(m) && e.lo < e.hi
    requires forall i | 0 <= i < |m| :: m[i].hi <= e.lo || e.hi <= m[i].lo
    ensures Valid(Place(m, e))
    ensures forall x :: Get(Place(m, e), x) == if In(e, x) then Some(e.val) else Get(m, x)
    ensures StartsFrom(m, e.lo) ==> StartsFrom(Place(m, e), e.lo)
  {
    PlaceValid(m, e);
    forall x ensures Get(Place(m, e), x) == if In(e, x) then Some(e.val) else Get(m, x) {
      PlaceGet(m, e, x);
    }
    if StartsFrom(m, e.lo) {
      PlaceStarts(m, e);
    }
  }

  lemma {:induction false} PlaceMember(m: RangeMap, e: Entry, i: int)
    requires 0 <= i < |Place(m, e)|
    ensures Place(m, e)[i] == e || Place(m, e)[i] in m
  {
    if m != [] && e.hi > m[0].lo && i > 0 {
      PlaceMember(m[1..], e, i - 1);
    }
  }

  /** `insert`: lo..hi ↦ v overwrites whatever was there. */
  function Insert(m: RangeMap, lo: int, hi: int, v: int): (r: RangeMap)
    requires Valid(m) && lo < hi
    ensures Valid(r)
    ensures forall x :: Get(r, x) == if lo <= x < hi then Some(v) else Get(m, x)
  {
    CutSpec(m, lo, hi);
    PlaceSpec(Cut(m, lo, hi), Entry(lo, hi, v));
    Place(Cut(m, lo, hi), Entry(lo, hi, v))
  }
}
