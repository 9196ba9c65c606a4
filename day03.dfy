/** Day 3, "Gear Ratios": numbers written in a character grid, next to
    symbols. Both puzzles scan each row left to right, accumulating the digits
    of the current number and flushing it at the next non-digit or at the end
    of the row. */
module Day03 {
  import opened Grid

  predicate IsDigit(c: char) {
    '0' <= c <= '9'
  }

  function DigitVal(c: char): (v: int)
    requires IsDigit(c)
    ensures 0 <= v <= 9
  {
    c as int - '0' as int
  }

  /** A symbol is anything but a digit or '.'. */
  predicate IsSymbol(c: char) {
    !IsDigit(c) && c != '.'
  }

  /** The eight neighbour offsets of `Matrix::neighbours(_, true)`. */
  const Offsets8: seq<(int, int)> :=
    [(-1, -1), (-1, 0), (-1, 1), (0, -1), (0, 1), (1, -1), (1, 0), (1, 1)]

  /** Cell (r, c) has an eight-way neighbour inside the grid holding a symbol. */
  predicate SymbolNear(g: seq<seq<char>>, r: int, c: int)
    requires Rect(g)
  {
    exists k | 0 <= k < 8 ::
      InGrid(|g|, Cols(g), (r + Offsets8[k].0, c + Offsets8[k].1))
      && IsSymbol(g[r + Offsets8[k].0][c + Offsets8[k].1])
  }

  /** The start of the run of digits that ends just before column `c`
      (`c` itself when `row[c - 1]` is not a digit). */
  function RunStart(row: seq<char>, c: nat): (s: nat)
    requires c <= |row|
    ensures s <= c
    ensures forall i | s <= i < c :: IsDigit(row[i])
    ensures s == 0 || !IsDigit(row[s - 1])
  {
    if c == 0 || !IsDigit(row[c - 1]) then c else RunStart(row, c - 1)
  }

  /** The decimal value of the digits row[s..e], read left to right. */
  function Value(row: seq<char>, s: nat, e: nat): (v: int)
    requires s <= e <= |row|
    requires forall i | s <= i < e :: IsDigit(row[i])
    ensures v >= 0
  {
    if e == s then 0 else Value(row, s, e - 1) * 10 + DigitVal(row[e - 1])
  }

  /** Some digit of row[s..e] has a symbol among its neighbours. */
  predicate AdjRun(g: seq<seq<char>>, r: nat, s: nat, e: nat)
    requires Rect(g) && r < |g|
  {
    exists c | s <= c < e :: SymbolNear(g, r, c)
  }

  /** What flushing the number that ends just before column `e` of row `r`
      adds to the first answer: its value when it touches a symbol, else 0. */
  function Flushed(g: seq<seq<char>>, r: nat, e: nat): (v: int)
    requires Rect(g) && r < |g| && e <= Cols(g)
    ensures v >= 0
  {
    var s := RunStart(g[r], e);
    if AdjRun(g, r, s, e) then Value(g[r], s, e) else 0
  }

  /** The numbers flushed by the non-digit cells among the first `c` columns. */
  function RowSum(g: seq<seq<char>>, r: nat, c: nat): (v: int)
    requires Rect(g) && r < |g| && c <= Cols(g)
    ensures v >= 0
  {
    if c == 0 then 0
    else RowSum(g, r, c - 1) + (if IsDigit(g[r][c - 1]) then 0 else Flushed(g, r, c - 1))
  }

  /** A row's part of the first answer: the numbers flushed inside the row,
      plus the number that runs up to the row's end. */
  function RowTotal(g: seq<seq<char>>, r: nat): (v: int)
    requires Rect(g) && r < |g|
    ensures v >= 0
  {
    RowSum(g, r, Cols(g)) + Flushed(g, r, Cols(g))
  }

  /** The first answer over the first `n` rows. */
  function PartTotal(g: seq<seq<char>>, n: nat): (v: int)
    requires Rect(g) && n <= |g|
    ensures v >= 0
  {
    if n == 0 then 0 else PartTotal(g, n - 1) + RowTotal(g, n - 1)
  }

  /** `puzzle1`: the sum of the numbers adjacent to a symbol. */
  method Puzzle1(g: seq<seq<char>>) returns (total: int)
    requires Rect(g)
    ensures total == PartTotal(g, |g|)
  {
    total := 0;
    for row := 0 to |g|
      invariant total == PartTotal(g, row)
    {
      var sum := ScanRow(g, row);
      total := total + sum;
    }
  }

  /** The inner loop of `puzzle1` over one row. */
  method ScanRow(g: seq<seq<char>>, row: nat) returns (sum: int)
    requires Rect(g) && row < |g|
    ensures sum == RowTotal(g, row)
  {
    sum := 0;
    var num := 0;
    var adj := false;
    for col := 0 to Cols(g)
      invariant num == Value(g[row], RunStart(g[row], col), col)
      invariant adj == AdjRun(g, row, RunStart(g[row], col), col)
      invariant sum == RowSum(g, row, col)
    {
      var c := g[row][col];
      if IsDigit(c) {
        num := num * 10 + DigitVal(c);
        adj := adj || SymbolNear(g, row, col);
      } else {
        if adj {
          sum := sum + num;
        }
        num := 0;
        adj := false;
      }
    }
    if adj {
      sum := sum + num;
    }
  }

  /** A number that touches no symbol is never added: without symbols in
      the grid the first answer is 0. */
  lemma {:induction false} NoSymbolsNoTotal(g: seq<seq<char>>, n: nat)
    requires Rect(g) && n <= |g|
    requires forall r, c | 0 <= r < |g| && 0 <= c < Cols(g) :: !IsSymbol(g[r][c])
    ensures PartTotal(g, n) == 0
  {
    if n > 0 {
      NoSymbolsNoTotal(g, n - 1);
      NoSymbolsRow(g, n - 1, Cols(g));
    }
  }

  lemma {:induction false} NoSymbolsRow(g: seq<seq<char>>, r: nat, c: nat)
    requires Rect(g) && r < |g| && c <= Cols(g)
    requires forall r, c | 0 <= r < |g| && 0 <= c < Cols(g) :: !IsSymbol(g[r][c])
    ensures RowSum(g, r, c) == 0 && Flushed(g, r, c) == 0
  {
    if c > 0 {
      NoSymbolsRow(g, r, c - 1);
    }
  }

  /** The stars among the eight neighbours of (r, c), in `Offsets8` order,
      from offset `k` on. */
  function StarsFrom(g: seq<seq<char>>, r: int, c: int, k: nat): (ps: seq<Pos>)
    requires Rect(g) && k <= 8
    ensures forall i | 0 <= i < |ps| :: InGrid(|g|, Cols(g), ps[i]) && g[ps[i].0][ps[i].1] == '*'
    ensures forall i | 0 <= i < |ps| :: Adjacent8((r, c), ps[i])
    decreases 8 - k
  {
    if k == 8 then []
    else
      var p := (r + Offsets8[k].0, c + Offsets8[k].1);
      var rest := StarsFrom(g, r, c, k + 1);
      if InGrid(|g|, Cols(g), p) && g[p.0][p.1] == '*' then [p] + rest else rest
  }

  function StarsAround(g: seq<seq<char>>, r: int, c: int): seq<Pos>
    requires Rect(g)
  {
    StarsFrom(g, r, c, 0)
  }

  predicate Distinct<T(==)>(s: seq<T>) {
    forall i, j | 0 <= i < j < |s| :: s[i] != s[j]
  }

  /** Pushing each of `ps` onto `v` unless `v` already contains it. */
  function AddNew(v: seq<Pos>, ps: seq<Pos>): (w: seq<Pos>)
    ensures Distinct(v) ==> Distinct(w)
    ensures forall p :: p in w <==> p in v || p in ps
    ensures |v| <= |w| && w[..|v|] == v
    decreases |ps|
  {
    if ps == [] then v
    else
      var u := AddNew(v, ps[..|ps| - 1]);
      if ps[|ps| - 1] in u then u else u + [ps[|ps| - 1]]
  }

  /** The gear table: an association list from star position to the numbers
      recorded for it, standing in for the `HashMap` (whose iteration order
      does not matter, as only a sum is taken over it). */
  type Gears = seq<(Pos, seq<int>)>

  /** The stars that have an entry. */
  function KeysOf(pg: Gears): set<Pos> {
    if pg == [] then {} else {pg[0].0} + KeysOf(pg[1..])
  }

  predicate DistinctKeys(pg: Gears) {
    pg == [] || (pg[0].0 !in KeysOf(pg[1..]) && DistinctKeys(pg[1..]))
  }

  /** The numbers recorded for `k`, or none. */
  function Lookup(pg: Gears, k: Pos): seq<int> {
    if pg == [] then []
    else if pg[0].0 == k then pg[0].1
    else Lookup(pg[1..], k)
  }

  /** `potgears.entry(k).or_insert(Vec::new()).push(n)`: append `n` to the
      entry of `k`, creating the entry at the end when there is none. */
  function Upsert(pg: Gears, k: Pos, n: int): (r: Gears)
    ensures KeysOf(r) == KeysOf(pg) + {k}
    decreases |pg|
  {
    if pg == [] then [(k, [n])]
    else if pg[0].0 == k then
      assert ([(k, pg[0].1 + [n])] + pg[1..])[1..] == pg[1..];
      [(k, pg[0].1 + [n])] + pg[1..]
    else
      var r := [pg[0]] + Upsert(pg[1..], k, n);
      assert r[1..] == Upsert(pg[1..], k, n);
      r
  }

  /** Upsert keeps the keys distinct and pushes onto `k`'s entry only. */
  lemma {:induction false} UpsertLookup(pg: Gears, k: Pos, n: int, q: Pos)
    requires DistinctKeys(pg)
    ensures DistinctKeys(Upsert(pg, k, n))
    ensures Lookup(Upsert(pg, k, n), q) == if q == k then Lookup(pg, q) + [n] else Lookup(pg, q)
    decreases |pg|
  {
    if pg != [] {
      if pg[0].0 == k {
        assert ([(k, pg[0].1 + [n])] + pg[1..])[1..] == pg[1..];
      } else {
        UpsertLookup(pg[1..], k, n, q);
        assert ([pg[0]] + Upsert(pg[1..], k, n))[1..] == Upsert(pg[1..], k, n);
      }
    }
  }

  /** Draining `gearvec`: `n` is pushed for every star of `stars`, in order. */
  function RecordAll(pg: Gears, stars: seq<Pos>, n: int): (r: Gears)
    decreases |stars|
  {
    if stars == [] then pg
    else Upsert(RecordAll(pg, stars[..|stars| - 1], n), stars[|stars| - 1], n)
  }

  lemma {:induction false} RecordAllDistinct(pg: Gears, stars: seq<Pos>, n: int)
    requires DistinctKeys(pg)
    ensures DistinctKeys(RecordAll(pg, stars, n))
    ensures forall q :: q in KeysOf(RecordAll(pg, stars, n)) <==> q in KeysOf(pg) || q in stars
    decreases |stars|
  {
    if stars != [] {
      RecordAllDistinct(pg, stars[..|stars| - 1], n);
      assert stars == stars[..|stars| - 1] + [stars[|stars| - 1]];
      UpsertLookup(RecordAll(pg, stars[..|stars| - 1], n), stars[|stars| - 1], n, (0, 0));
    }
  }

  /** With distinct stars, draining records the number exactly once for each
      star in `stars` and leaves every other entry alone. */
  lemma {:induction false} RecordAllOnce(pg: Gears, stars: seq<Pos>, n: int, q: Pos)
    requires DistinctKeys(pg) && Distinct(stars)
    ensures Lookup(RecordAll(pg, stars, n), q) == Lookup(pg, q) + (if q in stars then [n] else [])
    decreases |stars|
  {
    if stars != [] {
      var init := stars[..|stars| - 1];
      var last := stars[|stars| - 1];
      var before := RecordAll(pg, init, n);
      assert RecordAll(pg, stars, n) == Upsert(before, last, n);
      DistinctInit(stars);
      RecordAllOnce(pg, init, n, q);
      RecordAllDistinct(pg, init, n);
      UpsertLookup(before, last, n, q);
      assert q in stars <==> q in init || q == last by {
        assert stars == init + [last];
      }
      if q == last {
        assert Lookup(before, q) == Lookup(pg, q);
      } else {
        assert Lookup(Upsert(before, last, n), q) == Lookup(before, q);
      }
    }
  }

  /** Dropping the last element keeps a list distinct, and the last element
      is not among the rest. */
  lemma DistinctInit<T>(s: seq<T>)
    requires s != [] && Distinct(s)
    ensures Distinct(s[..|s| - 1]) && s[|s| - 1] !in s[..|s| - 1]
  {
  }

  /** The state of the row scan of `puzzle2`. */
  datatype Scan = Scan(num: int, gearvec: seq<Pos>, pg: Gears)

  /** Flushing at a non-digit (or at the end of the row): the stars collected
      get the number only when it is positive and some star was seen;
      otherwise `gearvec` is kept as it is. */
  function Flush(st: Scan): Scan {
    if st.num > 0 && st.gearvec != [] then Scan(st.num, [], RecordAll(st.pg, st.gearvec, st.num))
    else st
  }

  /** The scan of row `r` after its first `c` columns, starting from table `pg0`. */
  function RowScan(g: seq<seq<char>>, r: nat, c: nat, pg0: Gears): (st: Scan)
    requires Rect(g) && r < |g| && c <= Cols(g)
  {
    if c == 0 then Scan(0, [], pg0)
    else
      var st := RowScan(g, r, c - 1, pg0);
      var ch := g[r][c - 1];
      if IsDigit(ch) then Scan(st.num * 10 + DigitVal(ch), AddNew(st.gearvec, StarsAround(g, r, c - 1)), st.pg)
      else Flush(st).(num := 0)
  }

  /** The gear table after the first `n` rows. */
  function GearTable(g: seq<seq<char>>, n: nat): (pg: Gears)
    requires Rect(g) && n <= |g|
  {
    if n == 0 then []
    else Flush(RowScan(g, n - 1, Cols(g), GearTable(g, n - 1))).pg
  }

  /** The second answer from a table: the product of the two numbers of every
      star that has exactly two. */
  function GearSum(pg: Gears): int {
    if pg == [] then 0
    else GearSum(pg[..|pg| - 1]) + (var ns := pg[|pg| - 1].1; if |ns| == 2 then ns[0] * ns[1] else 0)
  }

  predicate IsStar(g: seq<seq<char>>, p: Pos)
    requires Rect(g)
  {
    InGrid(|g|, Cols(g), p) && g[p.0][p.1] == '*'
  }

  predicate AllStars(g: seq<seq<char>>, v: seq<Pos>)
    requires Rect(g)
  {
    forall p | p in v :: IsStar(g, p)
  }

  /** The gear table has one entry per star, and every key is a star of
      the grid. */
  predicate TableValid(g: seq<seq<char>>, pg: Gears)
    requires Rect(g)
  {
    DistinctKeys(pg) && forall q | q in KeysOf(pg) :: IsStar(g, q)
  }

  /** What the row scan keeps true: `gearvec` holds distinct stars and the
      table is valid. */
  predicate ScanValid(g: seq<seq<char>>, st: Scan)
    requires Rect(g)
  {
    Distinct(st.gearvec) && AllStars(g, st.gearvec) && TableValid(g, st.pg)
  }

  lemma FlushValid(g: seq<seq<char>>, st: Scan)
    requires Rect(g) && ScanValid(g, st)
    ensures ScanValid(g, Flush(st)) && ScanValid(g, Flush(st).(num := 0))
  {
    if st.num > 0 && st.gearvec != [] {
      var pg := RecordAll(st.pg, st.gearvec, st.num);
      RecordAllDistinct(st.pg, st.gearvec, st.num);
      forall q | q in KeysOf(pg) ensures IsStar(g, q) {
        if q in st.gearvec {
          var j :| 0 <= j < |st.gearvec| && st.gearvec[j] == q;
        }
      }
    }
  }

  /** Collecting the stars around a cell keeps `gearvec` a list of
      distinct stars. */
  lemma AddStarsValid(g: seq<seq<char>>, v: seq<Pos>, r: nat, c: nat)
    requires Rect(g) && Distinct(v) && AllStars(g, v)
    ensures Distinct(AddNew(v, StarsAround(g, r, c)))
    ensures AllStars(g, AddNew(v, StarsAround(g, r, c)))
  {
    var stars := StarsAround(g, r, c);
    forall p | p in stars ensures IsStar(g, p) {
      var j :| 0 <= j < |stars| && stars[j] == p;
    }
  }

  /** One column of the row scan keeps `ScanValid`. */
  lemma RowScanStep(g: seq<seq<char>>, r: nat, c: nat, pg0: Gears)
    requires Rect(g) && r < |g| && 0 < c <= Cols(g)
    requires ScanValid(g, RowScan(g, r, c - 1, pg0))
    ensures ScanValid(g, RowScan(g, r, c, pg0))
  {
    if IsDigit(g[r][c - 1]) {
      RowScanDigit(g, r, c, pg0);
    } else {
      RowScanFlush(g, r, c, pg0);
    }
  }

  /** At a digit the scan collects the stars around it and leaves the table alone. */
  lemma UnfoldDigit(g: seq<seq<char>>, r: nat, c: nat, pg0: Gears)
    requires Rect(g) && r < |g| && 0 < c <= Cols(g) && IsDigit(g[r][c - 1])
    ensures RowScan(g, r, c, pg0).gearvec == AddNew(RowScan(g, r, c - 1, pg0).gearvec, StarsAround(g, r, c - 1))
    ensures RowScan(g, r, c, pg0).pg == RowScan(g, r, c - 1, pg0).pg
  {
  }

  lemma RowScanDigit(g: seq<seq<char>>, r: nat, c: nat, pg0: Gears)
    requires Rect(g) && r < |g| && 0 < c <= Cols(g) && IsDigit(g[r][c - 1])
    requires ScanValid(g, RowScan(g, r, c - 1, pg0))
    ensures ScanValid(g, RowScan(g, r, c, pg0))
  {
    UnfoldDigit(g, r, c, pg0);
    AddStarsValid(g, RowScan(g, r, c - 1, pg0).gearvec, r, c - 1);
  }

  lemma RowScanFlush(g: seq<seq<char>>, r: nat, c: nat, pg0: Gears)
    requires Rect(g) && r < |g| && 0 < c <= Cols(g) && !IsDigit(g[r][c - 1])
    requires ScanValid(g, RowScan(g, r, c - 1, pg0))
    ensures ScanValid(g, RowScan(g, r, c, pg0))
  {
    var st := RowScan(g, r, c - 1, pg0);
    FlushValid(g, st);
    assert RowScan(g, r, c, pg0) == Flush(st).(num := 0);
  }

  lemma {:induction false} RowScanValid(g: seq<seq<char>>, r: nat, c: nat, pg0: Gears)
    requires Rect(g) && r < |g| && c <= Cols(g)
    requires TableValid(g, pg0)
    ensures ScanValid(g, RowScan(g, r, c, pg0))
  {
    if c == 0 {
      assert RowScan(g, r, c, pg0) == Scan(0, [], pg0);
    } else {
      RowScanValid(g, r, c - 1, pg0);
      RowScanStep(g, r, c, pg0);
    }
  }

  /** Every key of the gear table is a star of the grid, and each star has
      one entry. */
  lemma {:induction false} GearTableValid(g: seq<seq<char>>, n: nat)
    requires Rect(g) && n <= |g|
    ensures TableValid(g, GearTable(g, n))
  {
    if n > 0 {
      GearTableValid(g, n - 1);
      var st := RowScan(g, n - 1, Cols(g), GearTable(g, n - 1));
      RowScanValid(g, n - 1, Cols(g), GearTable(g, n - 1));
      FlushValid(g, st);
      assert GearTable(g, n) == Flush(st).pg;
    }
  }

  /** `puzzle2`: the sum of the gear ratios. */
  method Puzzle2(g: seq<seq<char>>) returns (total: int)
    requires Rect(g)
    ensures total == GearSum(GearTable(g, |g|))
  {
    var potgears: Gears := [];
    for row := 0 to |g|
      invariant potgears == GearTable(g, row)
    {
      potgears := ScanGears(g, row, potgears);
    }
    total := SumRatios(potgears);
  }

  /** The inner loop of `puzzle2` over one row, with the flush at its end. */
  method ScanGears(g: seq<seq<char>>, row: nat, pg0: Gears) returns (potgears: Gears)
    requires Rect(g) && row < |g|
    ensures potgears == Flush(RowScan(g, row, Cols(g), pg0)).pg
  {
    potgears := pg0;
    var num := 0;
    var gearvec: seq<Pos> := [];
    for col := 0 to Cols(g)
      invariant Scan(num, gearvec, potgears) == RowScan(g, row, col, pg0)
    {
      num, gearvec, potgears := ScanCell(g, row, col, num, gearvec, potgears);
    }
    potgears, gearvec := FlushGears(num, gearvec, potgears);
  }

  /** One column of the row scan of `puzzle2`: a digit extends the number
      and collects its stars, anything else flushes. */
  method ScanCell(g: seq<seq<char>>, row: nat, col: nat, num0: int, gv0: seq<Pos>, pg0: Gears)
    returns (num: int, gearvec: seq<Pos>, potgears: Gears)
    requires Rect(g) && row < |g| && col < Cols(g)
    ensures var st := Scan(num0, gv0, pg0); var ch := g[row][col];
      Scan(num, gearvec, potgears) ==
        if IsDigit(ch) then Scan(num0 * 10 + DigitVal(ch), AddNew(gv0, StarsAround(g, row, col)), pg0)
        else Flush(st).(num := 0)
  {
    var c := g[row][col];
    if IsDigit(c) {
      num := num0 * 10 + DigitVal(c);
      gearvec := PushNew(gv0, StarsAround(g, row, col));
      potgears := pg0;
    } else {
      potgears, gearvec := FlushGears(num0, gv0, pg0);
      num := 0;
    }
  }

  /** The flush: drain `gearvec` into the table when the number is positive
      and some star was collected. */
  method FlushGears(num: int, gv0: seq<Pos>, pg0: Gears) returns (potgears: Gears, gearvec: seq<Pos>)
    ensures Scan(num, gearvec, potgears) == Flush(Scan(num, gv0, pg0))
  {
    potgears, gearvec := pg0, gv0;
    if num > 0 && gearvec != [] {
      potgears := Drain(potgears, gearvec, num);
      gearvec := [];
    }
  }

  /** `if !gearvec.contains(&p) { gearvec.push(p) }` for each neighbouring star. */
  method PushNew(gv0: seq<Pos>, stars: seq<Pos>) returns (gearvec: seq<Pos>)
    ensures gearvec == AddNew(gv0, stars)
  {
    gearvec := gv0;
    for i := 0 to |stars|
      invariant gearvec == AddNew(gv0, stars[..i])
    {
      assert stars[..i + 1][..i] == stars[..i];
      if stars[i] !in gearvec {
        gearvec := gearvec + [stars[i]];
      }
    }
    assert stars[..|stars|] == stars;
  }

  /** The final sum over the gear table. */
  method SumRatios(potgears: Gears) returns (total: int)
    ensures total == GearSum(potgears)
  {
    total := 0;
    for i := 0 to |potgears|
      invariant total == GearSum(potgears[..i])
    {
      assert potgears[..i + 1][..i] == potgears[..i];
      var nums := potgears[i].1;
      if |nums| == 2 {
        total := total + nums[0] * nums[1];
      }
    }
    assert potgears[..|potgears|] == potgears;
  }

  /** `for gearpos in gearvec.drain(..)`: push `num` for every collected star. */
  method Drain(pg: Gears, gearvec: seq<Pos>, num: int) returns (r: Gears)
    ensures r == RecordAll(pg, gearvec, num)
  {
    r := pg;
    for i := 0 to |gearvec|
      invariant r == RecordAll(pg, gearvec[..i], num)
    {
      assert gearvec[..i + 1][..i] == gearvec[..i];
      r := Upsert(r, gearvec[i], num);
    }
    assert gearvec[..|gearvec|] == gearvec;
  }
}
