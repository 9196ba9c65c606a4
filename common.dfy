/** Option and Result: the model's stand-ins for Rust's `Option`, and for a
    `panic!`/`unwrap` that aborts a puzzle on malformed input. */
module Wrappers {
  datatype Option<+T> = None | Some(value: T) {
    function GetOr(default: T): T {
      match this
      case Some(v) => v
      case None => default
    }
  }

  datatype Result<+T> = Ok(value: T) | Err(reason: string)

  /** How an open-ended loop of a puzzle ends: with an answer, with a panic
      (an `unwrap` on None, a missing node), or with the step budget spent.
      The code has no such budget; the model bounds every loop whose
      termination depends on the puzzle input. */
  datatype Outcome = Done(value: int) | Panic | OutOfFuel
}

/** The part of `pathfinding::matrix` the solvers use: a rectangular grid
    addressed by (row, column), the four compass directions and
    `move_in_direction`, and the eight-way `neighbours`. */
module Grid {
  import opened Wrappers

  /** Compass directions; north is towards row 0. */
  datatype Dir = N | E | S | W

  /** The library's `DIRECTIONS_4` list. */
  const Directions4: seq<Dir> := [E, S, W, N]

  function DRow(d: Dir): int {
    match d
    case N => -1
    case S => 1
    case E => 0
    case W => 0
  }

  function DCol(d: Dir): int {
    match d
    case N => 0
    case S => 0
    case E => 1
    case W => -1
  }

  function Opposite(d: Dir): (o: Dir)
    ensures DRow(o) == -DRow(d) && DCol(o) == -DCol(d)
    ensures o != d
  {
    match d
    case N => S
    case S => N
    case E => W
    case W => E
  }

  /** A position is (row, column). */
  type Pos = (int, int)

  /** A matrix: every row has the same number of columns. */
  predicate Rect<T>(g: seq<seq<T>>) {
    forall r | 0 <= r < |g| :: |g[r]| == |g[0]|
  }

  function Cols<T>(g: seq<seq<T>>): nat {
    if |g| == 0 then 0 else |g[0]|
  }

  /** `rotated_cw(1)`: the columns become the rows, each read from the
      bottom row up. */
  function RotateCW<T>(g: seq<seq<T>>): (t: seq<seq<T>>)
    requires Rect(g)
    ensures |t| == Cols(g) && Rect(t)
    ensures forall r | 0 <= r < |t| :: |t[r]| == |g|
    ensures forall r, c | 0 <= r < |t| && 0 <= c < |g| :: t[r][c] == g[|g| - 1 - c][r]
  {
    seq(Cols(g), r requires 0 <= r < Cols(g) => seq(|g|, c requires 0 <= c < |g| => g[|g| - 1 - c][r]))
  }

  predicate InGrid(rows: int, cols: int, p: Pos) {
    0 <= p.0 < rows && 0 <= p.1 < cols
  }

  /** `move_in_direction`: the adjacent cell, or None when it is off the grid. */
  function Move(rows: int, cols: int, p: Pos, d: Dir): (r: Option<Pos>)
    ensures r.Some? <==> InGrid(rows, cols, (p.0 + DRow(d), p.1 + DCol(d)))
    ensures r.Some? ==> r.value == (p.0 + DRow(d), p.1 + DCol(d))
  {
    var q := (p.0 + DRow(d), p.1 + DCol(d));
    if InGrid(rows, cols, q) then Some(q) else None
  }

  /** Eight-way adjacency, as `neighbours(p, true)`: distinct cells at
      Chebyshev distance one. */
  predicate Adjacent8(p: Pos, q: Pos) {
    p != q && -1 <= p.0 - q.0 <= 1 && -1 <= p.1 - q.1 <= 1
  }
}

/** Sequence helpers: sums and the byte-level `split` of the standard library. */
module Seqs {
  import opened Wrappers

  function Sum(s: seq<int>): int {
    if s == [] then 0 else Sum(s[..|s| - 1]) + s[|s| - 1]
  }

  lemma {:induction false} SumAppend(a: seq<int>, b: seq<int>)
    ensures Sum(a + b) == Sum(a) + Sum(b)
    decreases |b|
  {
    if b == [] {
      assert a + b == a;
    } else {
      assert (a + b)[..|a + b| - 1] == a + b[..|b| - 1];
      SumAppend(a, b[..|b| - 1]);
    }
  }

  /** Number of occurrences of `x` in `s`. */
  function Count<T(==)>(s: seq<T>, x: T): (n: nat)
    ensures n <= |s|
  {
    if s == [] then 0 else Count(s[..|s| - 1], x) + (if s[|s| - 1] == x then 1 else 0)
  }

  lemma {:induction false} CountAppend<T>(a: seq<T>, b: seq<T>, x: T)
    ensures Count(a + b, x) == Count(a, x) + Count(b, x)
    decreases |b|
  {
    if b == [] {
      assert a + b == a;
    } else {
      assert (a + b)[..|a + b| - 1] == a + b[..|b| - 1];
      CountAppend(a, b[..|b| - 1], x);
    }
  }

  lemma {:induction false} CountNotIn<T>(s: seq<T>, x: T)
    requires x !in s
    ensures Count(s, x) == 0
    decreases |s|
  {
    if s != [] {
      CountNotIn(s[..|s| - 1], x);
    }
  }

  /** `iter().map(f)`. */
  function Map<T, U>(s: seq<T>, f: T -> U): (r: seq<U>)
    ensures |r| == |s| && forall i | 0 <= i < |s| :: r[i] == f(s[i])
  {
    seq(|s|, i requires 0 <= i < |s| => f(s[i]))
  }

  /** `iter().map(f).collect::<Option<Vec<_>>>()`: every element mapped,
      or None as soon as one maps to None. */
  function Collect<T, U>(s: seq<T>, f: T -> Option<U>): (r: Option<seq<U>>)
    ensures r.Some? <==> forall i | 0 <= i < |s| :: f(s[i]).Some?
    ensures r.Some? ==> |r.value| == |s| && forall i | 0 <= i < |s| :: f(s[i]) == Some(r.value[i])
  {
    if s == [] then Some([])
    else
      var head, tail := f(s[0]), Collect(s[1..], f);
      if head.Some? && tail.Some? then Some([head.value] + tail.value) else None
  }

  lemma MapConcat<T, U>(a: seq<T>, b: seq<T>, f: T -> U)
    ensures Map(a + b, f) == Map(a, f) + Map(b, f)
  {
  }

  lemma MultisetRemove<T>(t: seq<T>, k: nat)
    requires k < |t|
    ensures multiset(t[..k] + t[k + 1..]) == multiset(t) - multiset{t[k]}
  {
    assert t == t[..k] + [t[k]] + t[k + 1..];
  }

  lemma PermRemoveLast<T>(s: seq<T>, t: seq<T>, k: nat)
    requires |s| > 0 && multiset(s) == multiset(t) && k < |t| && t[k] == s[|s| - 1]
    ensures multiset(s[..|s| - 1]) == multiset(t[..k] + t[k + 1..])
  {
    assert s == s[..|s| - 1] + [s[|s| - 1]];
    MultisetRemove(t, k);
  }

  lemma PermRemoveFirst<T>(s: seq<T>, t: seq<T>, k: nat)
    requires |s| > 0 && multiset(s) == multiset(t) && k < |t| && t[k] == s[0]
    ensures multiset(s[1..]) == multiset(t[..k] + t[k + 1..])
  {
    assert s == [s[0]] + s[1..];
    MultisetRemove(t, k);
  }

  /** Taking element k out of a sequence takes its image out of the map. */
  lemma MapRemove<T, U>(t: seq<T>, k: nat, f: T -> U)
    requires k < |t|
    ensures multiset(Map(t, f)) == multiset(Map(t[..k] + t[k + 1..], f)) + multiset{f(t[k])}
  {
    var pre, post := t[..k], t[k + 1..];
    assert t == pre + [t[k]] + post;
    MapConcat(pre + [t[k]], post, f);
    MapConcat(pre, [t[k]], f);
    MapConcat(pre, post, f);
  }

  /** Mapping a permutation gives a permutation of the mapped sequence. */
  lemma {:induction false} MapPerm<T, U>(s: seq<T>, t: seq<T>, f: T -> U)
    requires multiset(s) == multiset(t)
    ensures multiset(Map(s, f)) == multiset(Map(t, f))
    decreases |s|
  {
    if s != [] {
      var n := |s|;
      var x := s[n - 1];
      assert x in multiset(t);
      var k :| 0 <= k < |t| && t[k] == x;
      PermRemoveLast(s, t, k);
      MapPerm(s[..n - 1], t[..k] + t[k + 1..], f);
      MapRemove(t, k, f);
      MapRemove(s, n - 1, f);
      assert s[..n - 1] + s[n..] == s[..n - 1];
    }
  }

  /** `slice.split(|b| *b == sep)`: the maximal pieces between separators. */
  function Split<T(==)>(s: seq<T>, sep: T): (parts: seq<seq<T>>)
    ensures |parts| == Count(s, sep) + 1
    ensures forall i | 0 <= i < |parts| :: sep !in parts[i]
    decreases |s|
  {
    if s == [] then [[]]
    else
      var init := Split(s[..|s| - 1], sep);
      if s[|s| - 1] == sep then init + [[]]
      else init[..|init| - 1] + [init[|init| - 1] + [s[|s| - 1]]]
  }

  /** The inverse of Split: the pieces joined by one separator each. */
  function Join<T>(parts: seq<seq<T>>, sep: T): seq<T>
    requires parts != []
  {
    if |parts| == 1 then parts[0] else Join(parts[..|parts| - 1], sep) + [sep] + parts[|parts| - 1]
  }

  lemma LastSplit<T>(s: seq<T>)
    requires s != []
    ensures s == s[..|s| - 1] + [s[|s| - 1]]
  {
  }

  /** A piece without the separator splits to itself. */
  lemma {:induction false} SplitPiece<T>(t: seq<T>, sep: T)
    requires sep !in t
    ensures Split(t, sep) == [t]
    decreases |t|
  {
    if t != [] {
      SplitPiece(t[..|t| - 1], sep);
      assert t[..|t| - 1] + [t[|t| - 1]] == t;
    }
  }

  /** A last element that is not the separator extends the last piece. */
  lemma SplitSnoc<T>(s: seq<T>, sep: T)
    requires s != [] && s[|s| - 1] != sep
    ensures var init := Split(s[..|s| - 1], sep);
      Split(s, sep) == init[..|init| - 1] + [init[|init| - 1] + [s[|s| - 1]]]
  {
  }

  /** Splitting after a separator starts a new piece. */
  lemma {:induction false} SplitAfterSep<T>(s: seq<T>, t: seq<T>, sep: T)
    requires sep !in t
    ensures Split(s + [sep] + t, sep) == Split(s, sep) + [t]
    decreases |t|
  {
    if t == [] {
      assert (s + [sep] + t)[..|s|] == s;
    } else {
      var u := s + [sep] + t;
      var t', x := t[..|t| - 1], t[|t| - 1];
      assert sep !in t' && x != sep;
      SplitAfterSep(s, t', sep);
      assert u[..|u| - 1] == s + [sep] + t' && u[|u| - 1] == x;
      var init := Split(s + [sep] + t', sep);
      SplitSnoc(u, sep);
      assert init[..|init| - 1] == Split(s, sep);
      LastSplit(t);
    }
  }

  /** Splitting pieces joined by a separator they do not contain gives the
      pieces back. */
  lemma {:induction false} SplitJoin<T>(parts: seq<seq<T>>, sep: T)
    requires parts != [] && forall i | 0 <= i < |parts| :: sep !in parts[i]
    ensures Split(Join(parts, sep), sep) == parts
    decreases |parts|
  {
    if |parts| == 1 {
      SplitPiece(parts[0], sep);
    } else {
      var init, last := parts[..|parts| - 1], parts[|parts| - 1];
      assert sep !in last;
      SplitJoin(init, sep);
      SplitAfterSep(Join(init, sep), last, sep);
      assert Join(parts, sep) == Join(init, sep) + [sep] + last;
      LastSplit(parts);
    }
  }

  lemma {:induction false} JoinSplit<T>(s: seq<T>, sep: T)
    ensures Join(Split(s, sep), sep) == s
    decreases |s|
  {
    if s != [] {
      var init := Split(s[..|s| - 1], sep);
      JoinSplit(s[..|s| - 1], sep);
      assert s == s[..|s| - 1] + [s[|s| - 1]];
      if s[|s| - 1] == sep {
        assert (init + [[]])[..|init|] == init;
      } else if |init| > 1 {
        var pre := init[..|init| - 1];
        var lastPart := init[|init| - 1];
        assert (pre + [lastPart + [s[|s| - 1]]])[..|pre|] == pre;
        assert init == pre + [lastPart];
        assert init[..|init| - 1] == pre;
      }
    }
  }
}

/** Stable sorts, standing in for the standard library's `sort` and
    `sort_by_key`. Insertion places an element after every element that is
    not greater, so equal elements keep their order. */
module Sorting {
  /** `le` is a total preorder: connected and transitive. */
  ghost predicate TotalPreorder<T(!new)>(le: (T, T) -> bool) {
    && (forall a, b :: le(a, b) || le(b, a))
    && (forall a, b, c :: le(a, b) && le(b, c) ==> le(a, c))
  }

  predicate SortedBy<T>(s: seq<T>, le: (T, T) -> bool) {
    forall i, j | 0 <= i < j < |s| :: le(s[i], s[j])
  }

  function Insert<T>(s: seq<T>, x: T, le: (T, T) -> bool): (r: seq<T>)
    ensures multiset(r) == multiset(s) + multiset{x}
    ensures |r| == |s| + 1
  {
    if s == [] || le(s[|s| - 1], x) then s + [x]
    else
      assert s == s[..|s| - 1] + [s[|s| - 1]];
      Insert(s[..|s| - 1], x, le) + [s[|s| - 1]]
  }

  lemma {:induction false} InsertSorted<T(!new)>(s: seq<T>, x: T, le: (T, T) -> bool)
    requires TotalPreorder(le) && SortedBy(s, le)
    ensures SortedBy(Insert(s, x, le), le)
    decreases |s|
  {
    if s == [] || le(s[|s| - 1], x) {
    } else {
      var init := s[..|s| - 1];
      var last := s[|s| - 1];
      InsertSorted(init, x, le);
      var r := Insert(init, x, le);
      assert le(x, last);
      assert multiset(r) == multiset(init) + multiset{x};
      forall i | 0 <= i < |r|
        ensures le(r[i], last)
      {
        assert r[i] in multiset(r);
        if r[i] != x {
          assert r[i] in multiset(init);
          var k :| 0 <= k < |init| && init[k] == r[i];
          assert s[k] == r[i];
        }
      }
    }
  }

  /** `sort`: stable insertion sort under a total preorder. */
  function Sort<T(!new)>(s: seq<T>, le: (T, T) -> bool): (r: seq<T>)
    requires TotalPreorder(le)
    ensures SortedBy(r, le)
    ensures multiset(r) == multiset(s)
    ensures |r| == |s|
  {
    if s == [] then []
    else
      var init := Sort(s[..|s| - 1], le);
      InsertSorted(init, s[|s| - 1], le);
      assert s == s[..|s| - 1] + [s[|s| - 1]];
      Insert(init, s[|s| - 1], le)
  }

  /** The elements of `s` whose key is `k`, in order. */
  function WithKey<T>(s: seq<T>, key: T -> int, k: int): seq<T> {
    if s == [] then []
    else WithKey(s[..|s| - 1], key, k) + (if key(s[|s| - 1]) == k then [s[|s| - 1]] else [])
  }

  predicate SortedByKey<T>(s: seq<T>, key: T -> int) {
    forall i, j | 0 <= i < j < |s| :: key(s[i]) <= key(s[j])
  }

  function InsertByKey<T>(s: seq<T>, x: T, key: T -> int): (r: seq<T>)
    ensures multiset(r) == multiset(s) + multiset{x}
    ensures |r| == |s| + 1
  {
    if s == [] || key(s[|s| - 1]) <= key(x) then s + [x]
    else
      assert s == s[..|s| - 1] + [s[|s| - 1]];
      InsertByKey(s[..|s| - 1], x, key) + [s[|s| - 1]]
  }

  lemma WithKeySnoc<T>(s: seq<T>, x: T, key: T -> int, k: int)
    ensures WithKey(s + [x], key, k) == WithKey(s, key, k) + (if key(x) == k then [x] else [])
  {
    assert (s + [x])[..|s + [x]| - 1] == s;
  }

  lemma {:induction false} InsertByKeySorted<T>(s: seq<T>, x: T, key: T -> int)
    requires SortedByKey(s, key)
    ensures SortedByKey(InsertByKey(s, x, key), key)
    decreases |s|
  {
    if s != [] && key(s[|s| - 1]) > key(x) {
      var init := s[..|s| - 1];
      var last := s[|s| - 1];
      InsertByKeySorted(init, x, key);
      var r := InsertByKey(init, x, key);
      forall i | 0 <= i < |r|
        ensures key(r[i]) <= key(last)
      {
        assert r[i] in multiset(r);
        if r[i] != x {
          assert r[i] in multiset(init);
          var k :| 0 <= k < |init| && init[k] == r[i];
          assert s[k] == r[i];
        }
      }
    }
  }

  lemma {:induction false} InsertByKeyStable<T>(s: seq<T>, x: T, key: T -> int, k: int)
    ensures WithKey(InsertByKey(s, x, key), key, k) == WithKey(s, key, k) + (if key(x) == k then [x] else [])
    decreases |s|
  {
    if s == [] || key(s[|s| - 1]) <= key(x) {
      WithKeySnoc(s, x, key, k);
    } else {
      var init := s[..|s| - 1];
      var last := s[|s| - 1];
      assert s == init + [last];
      InsertByKeyStable(init, x, key, k);
      WithKeySnoc(InsertByKey(init, x, key), last, key, k);
      WithKeySnoc(init, last, key, k);
    }
  }

  /** `sort_by_key`: stable insertion sort by an integer key. Stability is
      stated as: for every key, the elements with that key keep their order. */
  function SortByKey<T>(s: seq<T>, key: T -> int): (r: seq<T>)
    ensures SortedByKey(r, key)
    ensures multiset(r) == multiset(s)
    ensures |r| == |s|
    ensures forall k :: WithKey(r, key, k) == WithKey(s, key, k)
  {
    if s == [] then []
    else
      var init := SortByKey(s[..|s| - 1], key);
      InsertByKeySorted(init, s[|s| - 1], key);
      assert s == s[..|s| - 1] + [s[|s| - 1]];
      assert forall k :: WithKey(InsertByKey(init, s[|s| - 1], key), key, k) == WithKey(s, key, k) by {
        forall k ensures WithKey(InsertByKey(init, s[|s| - 1], key), key, k) == WithKey(s, key, k) {
          InsertByKeyStable(init, s[|s| - 1], key, k);
          WithKeySnoc(s[..|s| - 1], s[|s| - 1], key, k);
        }
      }
      InsertByKey(init, s[|s| - 1], key)
  }
}

/** Repeating a step: the state after n steps, and the periodicity that
    follows from one repeated state. */
module Iteration {
  function Iterate<T>(f: T -> T, x: T, n: nat): T {
    if n == 0 then x else f(Iterate(f, x, n - 1))
  }

  lemma {:induction false} IterateAdd<T>(f: T -> T, x: T, a: nat, b: nat)
    ensures Iterate(f, Iterate(f, x, a), b) == Iterate(f, x, a + b)
    decreases b
  {
    if b > 0 {
      IterateAdd(f, x, a, b - 1);
    }
  }

  /** When the states after `start` and `end` steps agree, every later state
      repeats with period end - start. */
  lemma {:induction false} IteratePeriodic<T>(f: T -> T, x: T, start: nat, end: nat, n: nat, q: nat)
    requires start < end && Iterate(f, x, start) == Iterate(f, x, end) && start <= n
    ensures Iterate(f, x, n + q * (end - start)) == Iterate(f, x, n)
    decreases q
  {
    if q > 0 {
      IteratePeriodic(f, x, start, end, n, q - 1);
      var p := end - start;
      var k := n + (q - 1) * p;
      IterateAdd(f, x, end, k - start);
      IterateAdd(f, x, start, k - start);
      assert k + p == n + q * p;
    }
  }

  /** The state after `target` steps is the one reached `(target - end) %
      (end - start)` steps past `end`. */
  lemma IterateSkip<T>(f: T -> T, x: T, start: nat, end: nat, target: nat)
    requires start < end <= target && Iterate(f, x, start) == Iterate(f, x, end)
    ensures Iterate(f, x, end + (target - end) % (end - start)) == Iterate(f, x, target)
  {
    var p := end - start;
    var rem := (target - end) % p;
    var q := (target - end) / p;
    assert target == end + rem + q * p;
    IteratePeriodic(f, x, start, end, end + rem, q);
  }
}

/** Text helpers of the standard library: `split_once` on a character. */
module Text {
  import opened Wrappers

  /** The first position of c in s. */
  function Find(s: string, c: char): (r: Option<nat>)
    ensures r.None? <==> c !in s
    ensures r.Some? ==> r.value < |s| && s[r.value] == c && c !in s[..r.value]
  {
    if s == [] then None
    else if s[0] == c then Some(0)
    else
      var r := Find(s[1..], c);
      assert s[1..][..0] == [];
      if r.Some? then
        assert s[..r.value + 1] == [s[0]] + s[1..][..r.value];
        Some(r.value + 1)
      else
        assert s == [s[0]] + s[1..];
        None
  }

  /** `split_once`: the text before and after the first c. */
  function SplitOnce(s: string, c: char): (r: Option<(string, string)>)
    ensures r.None? <==> c !in s
    ensures r.Some? ==> s == r.value.0 + [c] + r.value.1 && c !in r.value.0
  {
    var i := Find(s, c);
    if i.None? then None
    else
      assert s == s[..i.value] + [c] + s[i.value + 1..];
      Some((s[..i.value], s[i.value + 1..]))
  }

  lemma {:induction false} FindAt(a: string, c: char, b: string)
    requires c !in a
    ensures Find(a + [c] + b, c) == Some(|a|)
  {
    if a != [] {
      assert (a + [c] + b)[1..] == a[1..] + [c] + b;
      FindAt(a[1..], c, b);
    }
  }

  /** `pat` occurs in `s` at position i. */
  predicate At(s: string, pat: string, i: nat) {
    i + |pat| <= |s| && s[i..i + |pat|] == pat
  }

  /** The first position of the text `pat` in `s`. */
  function FindStr(s: string, pat: string, from: nat): (r: Option<nat>)
    requires pat != [] && from <= |s|
    ensures r.Some? ==> from <= r.value && At(s, pat, r.value)
    ensures forall i | from <= i && (r.None? || i < r.value) :: !At(s, pat, i)
    decreases |s| - from
  {
    if from + |pat| > |s| then None
    else if s[from..from + |pat|] == pat then Some(from)
    else FindStr(s, pat, from + 1)
  }

  /** `split_once` on a text: before and after its first occurrence. */
  function SplitOnceStr(s: string, pat: string): (r: Option<(string, string)>)
    requires pat != []
    ensures r.None? <==> forall i: nat :: !At(s, pat, i)
    ensures r.Some? ==> s == r.value.0 + pat + r.value.1 && forall i: nat | i < |r.value.0| :: !At(s, pat, i)
  {
    var i := FindStr(s, pat, 0);
    if i.None? then None
    else
      assert s == s[..i.value] + pat + s[i.value + |pat|..];
      Some((s[..i.value], s[i.value + |pat|..]))
  }

  /** `split` on a text: the pieces between its non-overlapping
      occurrences, from the left. */
  function SplitStr(s: string, pat: string): (parts: seq<string>)
    requires pat != []
    ensures parts != [] && JoinStr(parts, pat) == s
    decreases |s|
  {
    var r := SplitOnceStr(s, pat);
    if r.None? then [s]
    else
      var rest := SplitStr(r.value.1, pat);
      JoinCons(r.value.0, rest, pat);
      [r.value.0] + rest
  }

  /** The pieces joined with `pat` between neighbours. */
  function JoinStr(parts: seq<string>, pat: string): string
    requires parts != []
  {
    if |parts| == 1 then parts[0] else parts[0] + pat + JoinStr(parts[1..], pat)
  }

  lemma JoinCons(first: string, rest: seq<string>, pat: string)
    requires rest != []
    ensures JoinStr([first] + rest, pat) == first + pat + JoinStr(rest, pat)
  {
    assert ([first] + rest)[1..] == rest;
  }

  /** A text without the pattern's first character, then the pattern,
      splits there. */
  lemma SplitOnceStrAt(a: string, pat: string, b: string)
    requires pat != [] && pat[0] !in a
    ensures SplitOnceStr(a + pat + b, pat) == Some((a, b))
  {
    var s := a + pat + b;
    assert At(s, pat, |a|) by { assert s[|a|..|a| + |pat|] == pat; }
    forall i: nat | i < |a| ensures !At(s, pat, i) {
      if i + |pat| <= |s| {
        assert s[i..i + |pat|][0] == a[i];
      }
    }
    var r := SplitOnceStr(s, pat);
    var k := |r.value.0|;
    assert At(s, pat, k) by { assert s[k..k + |pat|] == pat; }
    assert s[..|a|] == a && s[|a| + |pat|..] == b;
  }

  /** Pieces without the pattern's first character split back from their
      join. */
  /** A text without the pattern's first character is one piece. */
  lemma SplitStrWhole(s: string, pat: string)
    requires pat != [] && pat[0] !in s
    ensures SplitStr(s, pat) == [s]
  {
    forall i: nat ensures !At(s, pat, i) {
      if i + |pat| <= |s| {
        assert s[i..i + |pat|][0] == s[i];
      }
    }
  }

  /** A piece without the pattern's first character, then the pattern,
      comes off the front. */
  lemma SplitStrCons(a: string, pat: string, b: string)
    requires pat != [] && pat[0] !in a
    ensures SplitStr(a + pat + b, pat) == [a] + SplitStr(b, pat)
  {
    SplitOnceStrAt(a, pat, b);
  }

  lemma {:induction false} SplitJoinStr(parts: seq<string>, pat: string)
    requires pat != [] && parts != []
    requires forall i | 0 <= i < |parts| :: pat[0] !in parts[i]
    ensures SplitStr(JoinStr(parts, pat), pat) == parts
  {
    if |parts| == 1 {
      SplitStrWhole(parts[0], pat);
    } else {
      SplitStrCons(parts[0], pat, JoinStr(parts[1..], pat));
      SplitJoinStr(parts[1..], pat);
      assert parts == [parts[0]] + parts[1..];
    }
  }

  /** The order of `String`: character by character, a prefix first. */
  predicate LexLe(a: string, b: string) {
    a == [] || (b != [] && (a[0] < b[0] || (a[0] == b[0] && LexLe(a[1..], b[1..]))))
  }

  lemma {:induction false} LexTotal(a: string, b: string)
    ensures LexLe(a, b) || LexLe(b, a)
  {
    if a != [] && b != [] && a[0] == b[0] {
      LexTotal(a[1..], b[1..]);
    }
  }

  lemma {:induction false} LexTrans(a: string, b: string, c: string)
    requires LexLe(a, b) && LexLe(b, c)
    ensures LexLe(a, c)
  {
    if a != [] && a[0] == b[0] && b[0] == c[0] {
      LexTrans(a[1..], b[1..], c[1..]);
    }
  }

  lemma {:induction false} LexAntisymmetric(a: string, b: string)
    requires LexLe(a, b) && LexLe(b, a)
    ensures a == b
  {
    if a != [] {
      LexAntisymmetric(a[1..], b[1..]);
      assert a == [a[0]] + a[1..] && b == [b[0]] + b[1..];
    }
  }

  lemma SplitOnceAt(a: string, c: char, b: string)
    requires c !in a
    ensures SplitOnce(a + [c] + b, c) == Some((a, b))
  {
    var s := a + [c] + b;
    FindAt(a, c, b);
    assert s[..|a|] == a && s[|a| + 1..] == b;
  }
}

/** Number syntax of the standard library's `parse` and `from_str_radix`,
    and the digits that print a number. */
module Numbers {
  import opened Wrappers

  /** The value of a digit in base 16 or 10 (either case for letters). */
  function DigitValue(c: char): (v: int)
    ensures -1 <= v < 16
  {
    if '0' <= c <= '9' then c as int - '0' as int
    else if 'a' <= c <= 'f' then c as int - 'a' as int + 10
    else if 'A' <= c <= 'F' then c as int - 'A' as int + 10
    else -1
  }

  predicate IsDigit(c: char, radix: nat) {
    0 <= DigitValue(c) < radix
  }

  /** One place to the left in the given radix. */
  function Shift(v: nat, radix: nat): nat {
    v * radix
  }

  lemma ShiftDivMod(n: nat, radix: nat)
    requires radix > 0
    ensures Shift(n / radix, radix) + n % radix == n
  {
  }

  function DigitsValue(s: string, radix: nat): nat
    requires forall i | 0 <= i < |s| :: IsDigit(s[i], radix)
  {
    if s == [] then 0
    else
      var c := s[|s| - 1];
      assert IsDigit(c, radix);
      Shift(DigitsValue(s[..|s| - 1], radix), radix) + DigitValue(c)
  }

  /** `from_str_radix`/`parse` for an unsigned type below `limit`: an
      optional '+', then at least one digit; a value at or above `limit`
      is an overflow error. */
  function ParseUnsigned(s: string, radix: nat, limit: nat): (r: Option<nat>)
    ensures r.Some? ==> r.value < limit
  {
    var digits := if s != [] && s[0] == '+' then s[1..] else s;
    if digits == [] || exists i | 0 <= i < |digits| :: !IsDigit(digits[i], radix) then None
    else
      var v := DigitsValue(digits, radix);
      if v < limit then Some(v) else None
  }

  function DigitChar(v: nat): (c: char)
    requires v < 16
    ensures DigitValue(c) == v && c != ' ' && c != '+'
  {
    if v < 10 then ('0' as int + v) as char else ('a' as int + v - 10) as char
  }

  /** Digits of the radix, none of them a space or a plus sign. */
  predicate Numeral(s: string, radix: nat) {
    s != [] && forall i | 0 <= i < |s| :: IsDigit(s[i], radix) && s[i] != ' ' && s[i] != '+'
  }

  /** Digits of n in the given radix, most significant first, with
      lower-case letters. */
  function ToDigits(n: nat, radix: nat): (s: string)
    requires 2 <= radix <= 16
    ensures Numeral(s, radix)
    decreases n
  {
    if n < radix then [DigitChar(n)]
    else
      var c := DigitChar(n % radix);
      DivLess(n, radix);
      var p := ToDigits(n / radix, radix);
      assert forall i | 0 <= i < |p| :: (p + [c])[i] == p[i];
      p + [c]
  }

  lemma DivLess(n: nat, radix: nat)
    requires 2 <= radix <= n
    ensures n / radix < n
  {
    var q := n / radix;
    assert n == q * radix + n % radix;
    assert q * radix == q + q * (radix - 1);
  }

  lemma DigitsValueSnoc(p: string, c: char, radix: nat)
    requires forall i | 0 <= i < |p| :: IsDigit(p[i], radix)
    requires IsDigit(c, radix)
    ensures DigitsValue(p + [c], radix) == Shift(DigitsValue(p, radix), radix) + DigitValue(c)
  {
    assert (p + [c])[..|p|] == p;
  }

  lemma ToDigitsValueStep(n: nat, radix: nat)
    requires 2 <= radix <= 16 && n >= radix
    requires DigitsValue(ToDigits(n / radix, radix), radix) == n / radix
    ensures DigitsValue(ToDigits(n, radix), radix) == n
  {
    var p, c := ToDigits(n / radix, radix), DigitChar(n % radix);
    assert ToDigits(n, radix) == p + [c];
    DigitsValueSnoc(p, c, radix);
    ShiftDivMod(n, radix);
  }

  lemma ToDigitsValueSmall(n: nat, radix: nat)
    requires 2 <= radix <= 16 && n < radix
    ensures DigitsValue(ToDigits(n, radix), radix) == n
  {
    var c := DigitChar(n);
    assert [c][..0] == [];
    assert DigitsValue([], radix) * radix == 0;
  }

  /** The digits read back as n. */
  lemma {:induction false} ToDigitsValue(n: nat, radix: nat)
    requires 2 <= radix <= 16
    ensures DigitsValue(ToDigits(n, radix), radix) == n
    decreases n
  {
    if n >= radix {
      ToDigitsValue(n / radix, radix);
      ToDigitsValueStep(n, radix);
    } else {
      ToDigitsValueSmall(n, radix);
    }
  }

  lemma ParseUnsignedDigits(s: string, radix: nat, limit: nat)
    requires 2 <= radix <= 16 && s != [] && s[0] != '+'
    requires forall i | 0 <= i < |s| :: IsDigit(s[i], radix)
    requires DigitsValue(s, radix) < limit
    ensures ParseUnsigned(s, radix, limit) == Some(DigitsValue(s, radix))
  {
  }

  /** Reading the digits of n back gives n, when n is under the limit. */
  lemma ParseToDigits(n: nat, radix: nat, limit: nat)
    requires 2 <= radix <= 16 && n < limit
    ensures ParseUnsigned(ToDigits(n, radix), radix, limit) == Some(n)
  {
    var s := ToDigits(n, radix);
    ToDigitsValue(n, radix);
    assert s[0] != '+';
    ParseUnsignedDigits(s, radix, limit);
  }

  /** `parse` into a signed type: an optional '+' or '-', then at least one
      digit; the value must lie in [-bound, bound). */
  function ParseSigned(s: string, bound: nat): (r: Option<int>)
    requires bound > 0
    ensures r.Some? ==> -(bound as int) <= r.value < bound
  {
    if s != [] && s[0] == '-' then
      var digits := s[1..];
      if digits == [] || exists i | 0 <= i < |digits| :: !IsDigit(digits[i], 10) then None
      else
        var v: int := DigitsValue(digits, 10);
        if v <= bound then Some(-v) else None
    else
      var r := ParseUnsigned(s, 10, bound);
      if r.Some? then Some(r.value) else None
  }

  /** A signed number in decimal, with a '-' when negative. */
  function SignedDigits(v: int): string {
    if v < 0 then "-" + ToDigits(-v, 10) else ToDigits(v, 10)
  }

  /** Every character of a signed numeral is a decimal digit or the sign. */
  lemma SignedDigitsChars(v: int)
    ensures forall i | 0 <= i < |SignedDigits(v)| :: SignedDigits(v)[i] == '-' || IsDigit(SignedDigits(v)[i], 10)
  {
    var s := SignedDigits(v);
    if v < 0 {
      var d := ToDigits(-v, 10);
      assert s == ['-'] + d;
      assert forall i | 1 <= i < |s| :: s[i] == d[i - 1];
    }
  }

  lemma ParseSignedMinus(d: string, bound: nat)
    requires Numeral(d, 10) && DigitsValue(d, 10) <= bound && bound > 0
    ensures ParseSigned("-" + d, bound) == Some(-(DigitsValue(d, 10) as int))
  {
    var s := "-" + d;
    assert s[0] == '-' && s[1..] == d;
  }

  lemma ParseSignedPlain(d: string, bound: nat)
    requires Numeral(d, 10) && DigitsValue(d, 10) < bound
    ensures ParseSigned(d, bound) == Some(DigitsValue(d, 10))
  {
    assert IsDigit(d[0], 10);
    ParseUnsignedDigits(d, 10, bound);
  }

  lemma ParseSignedDigits(v: int, bound: nat)
    requires -(bound as int) <= v < bound
    ensures ParseSigned(SignedDigits(v), bound) == Some(v)
  {
    if v < 0 {
      ToDigitsValue(-v, 10);
      ParseSignedMinus(ToDigits(-v, 10), bound);
    } else {
      ToDigitsValue(v, 10);
      ParseSignedPlain(ToDigits(v, 10), bound);
    }
  }
}