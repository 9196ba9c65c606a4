/** Day 9, "Mirage Maintenance": extrapolating a sequence forwards and
    backwards through its successive differences. */
module Day09 {
  /** `derive`: the differences of neighbouring values (`windows(2)`). */
  function Derive(row: seq<int>): (d: seq<int>)
    ensures |row| == 0 ==> d == []
    ensures |row| > 0 ==> |d| == |row| - 1
    ensures forall i | 0 <= i < |d| :: d[i] == row[i + 1] - row[i]
  {
    if |row| == 0 then [] else seq(|row| - 1, i requires 0 <= i < |row| - 1 => row[i + 1] - row[i])
  }

  predicate AllZero(row: seq<int>) {
    forall i | 0 <= i < |row| :: row[i] == 0
  }

  /** `predict_next`: 0 on an all-zero (or empty) row, otherwise the last
      value plus the prediction for the differences. */
  function PredictNext(row: seq<int>): int
    decreases |row|
  {
    if AllZero(row) then 0 else row[|row| - 1] + PredictNext(Derive(row))
  }

  /** `predict_prev`: 0 on an all-zero row, otherwise the first value minus
      the prediction for the differences. */
  function PredictPrev(row: seq<int>): int
    decreases |row|
  {
    if AllZero(row) then 0 else row[0] - PredictPrev(Derive(row))
  }

  /** Appending a value to a non-empty row appends one difference. */
  lemma DeriveSnoc(row: seq<int>, x: int)
    requires |row| > 0
    ensures Derive(row + [x]) == Derive(row) + [x - row[|row| - 1]]
  {
    var e := row + [x];
    var l := Derive(e);
    var r := Derive(row) + [x - row[|row| - 1]];
    forall i | 0 <= i < |l| ensures l[i] == r[i] {
      assert e[i] == (if i < |row| then row[i] else x);
    }
  }

  /** Prepending a value to a non-empty row prepends one difference. */
  lemma DeriveCons(row: seq<int>, x: int)
    requires |row| > 0
    ensures Derive([x] + row) == [row[0] - x] + Derive(row)
  {
    var e := [x] + row;
    var l := Derive(e);
    var r := [row[0] - x] + Derive(row);
    forall i | 0 <= i < |l| ensures l[i] == r[i] {
      assert e[i + 1] == row[i];
    }
  }

  /** The step both predictions take, also on an all-zero row. */
  lemma NextStep(row: seq<int>)
    requires |row| > 0
    ensures PredictNext(row) - row[|row| - 1] == PredictNext(Derive(row))
    ensures row[0] - PredictPrev(row) == PredictPrev(Derive(row))
  {
    if AllZero(row) {
      assert AllZero(Derive(row));
    }
  }

  /** The prediction extends the row consistently: appending it to a
      non-empty row appends the prediction of the differences to the
      differences. */
  lemma NextExtends(row: seq<int>)
    requires |row| > 0
    ensures Derive(row + [PredictNext(row)]) == Derive(row) + [PredictNext(Derive(row))]
  {
    NextStep(row);
    DeriveSnocBy(row, PredictNext(row), PredictNext(Derive(row)));
  }

  /** DeriveSnoc with the new difference named. */
  lemma DeriveSnocBy(row: seq<int>, x: int, d: int)
    requires |row| > 0 && x - row[|row| - 1] == d
    ensures Derive(row + [x]) == Derive(row) + [d]
  {
    DeriveSnoc(row, x);
  }

  /** Likewise backwards: prepending the backward prediction prepends the
      backward prediction of the differences. */
  lemma PrevExtends(row: seq<int>)
    requires |row| > 0
    ensures Derive([PredictPrev(row)] + row) == [PredictPrev(Derive(row))] + Derive(row)
  {
    NextStep(row);
    DeriveCons(row, PredictPrev(row));
  }

  /** If the differences are all zero, the row is constant and both
      predictions repeat it. */
  lemma ConstantDifferences(row: seq<int>)
    requires |row| > 0 && AllZero(Derive(row))
    ensures PredictNext(row) == row[|row| - 1]
    ensures PredictPrev(row) == row[0]
  {
  }

  lemma ArithmeticDifferences(row: seq<int>, a: int, d: int)
    requires forall i | 0 <= i < |row| :: row[i] == a + i * d
    ensures forall i | 0 <= i < |Derive(row)| :: Derive(row)[i] == d
  {
    var dr := Derive(row);
    forall i | 0 <= i < |dr| ensures dr[i] == d {
      MulPred(i + 1, d);
    }
  }

  /** An arithmetic row a, a+d, ..., a+(n-1)d of at least two values is
      continued with a+nd and preceded by a-d. */
  lemma Arithmetic(row: seq<int>, a: int, d: int)
    requires |row| >= 2
    requires forall i | 0 <= i < |row| :: row[i] == a + i * d
    ensures PredictNext(row) == a + |row| * d
    ensures PredictPrev(row) == a - d
  {
    ArithmeticDifferences(row, a, d);
    ConstantRow(Derive(row), d);
    NextStep(row);
    var n := |row|;
    assert row[0] == a + 0 * d;
    assert row[n - 1] == a + (n - 1) * d;
    MulPred(n, d);
  }

  lemma MulPred(n: int, d: int)
    ensures (n - 1) * d + d == n * d && 0 * d == 0
  {
  }

  /** The first row of the worked example: 0 3 6 9 12 15 continues with
      18 and is preceded by -3. */
  lemma ExampleFirstRow()
    ensures PredictNext([0, 3, 6, 9, 12, 15]) == 18
    ensures PredictPrev([0, 3, 6, 9, 12, 15]) == -3
  {
    Arithmetic([0, 3, 6, 9, 12, 15], 0, 3);
  }

  /** A non-empty constant row predicts its value both ways. */
  lemma ConstantRow(row: seq<int>, c: int)
    requires |row| > 0 && forall i | 0 <= i < |row| :: row[i] == c
    ensures PredictNext(row) == c && PredictPrev(row) == c
  {
    ConstantDifferences(row);
  }

  function Reverse(s: seq<int>): (r: seq<int>)
    ensures |r| == |s| && forall i | 0 <= i < |s| :: r[i] == s[|s| - 1 - i]
  {
    seq(|s|, i requires 0 <= i < |s| => s[|s| - 1 - i])
  }

  function Negate(s: seq<int>): (r: seq<int>)
    ensures |r| == |s| && forall i | 0 <= i < |s| :: r[i] == -s[i]
  {
    seq(|s|, i requires 0 <= i < |s| => -s[i])
  }

  lemma DeriveNegate(row: seq<int>)
    ensures Derive(Negate(row)) == Negate(Derive(row))
  {
  }

  lemma DeriveReverse(row: seq<int>)
    ensures Derive(Reverse(row)) == Negate(Reverse(Derive(row)))
  {
    var l := Derive(Reverse(row));
    var r := Negate(Reverse(Derive(row)));
    if |row| > 0 {
      var n := |row|;
      forall i | 0 <= i < |l| ensures l[i] == r[i] {
        assert Reverse(row)[i + 1] == row[n - 2 - i];
        assert Reverse(Derive(row))[i] == Derive(row)[n - 2 - i];
      }
    }
  }

  /** The prediction is odd: negating the row negates the prediction. */
  lemma {:induction false} NextNegate(row: seq<int>)
    ensures PredictNext(Negate(row)) == -PredictNext(row)
    decreases |row|
  {
    if |row| == 0 {
      assert AllZero(Negate(row)) && AllZero(row);
    } else {
      NextStep(row);
      NextStep(Negate(row));
      DeriveNegate(row);
      NextNegate(Derive(row));
    }
  }

  /** Predicting backwards is predicting forwards on the reversed row. */
  lemma {:induction false} PrevIsNextReversed(row: seq<int>)
    ensures PredictPrev(row) == PredictNext(Reverse(row))
    decreases |row|
  {
    if |row| == 0 {
      assert AllZero(Reverse(row)) && AllZero(row);
    } else {
      NextStep(row);
      NextStep(Reverse(row));
      DeriveReverse(row);
      PrevIsNextReversed(Derive(row));
      NextNegate(Reverse(Derive(row)));
    }
  }

  /** The answers: the predictions of all rows, summed. */
  function TotalNext(rows: seq<seq<int>>): int {
    if rows == [] then 0 else TotalNext(rows[..|rows| - 1]) + PredictNext(rows[|rows| - 1])
  }

  function TotalPrev(rows: seq<seq<int>>): int {
    if rows == [] then 0 else TotalPrev(rows[..|rows| - 1]) + PredictPrev(rows[|rows| - 1])
  }

  /** `puzzle1`: the sum of the forward predictions. */
  method Puzzle1(rows: seq<seq<int>>) returns (total: int)
    ensures total == TotalNext(rows)
  {
    total := 0;
    for i := 0 to |rows|
      invariant total == TotalNext(rows[..i])
    {
      assert rows[..i + 1][..i] == rows[..i];
      total := total + PredictNext(rows[i]);
    }
    assert rows[..|rows|] == rows;
  }

  /** `puzzle2`: the sum of the backward predictions. */
  method Puzzle2(rows: seq<seq<int>>) returns (total: int)
    ensures total == TotalPrev(rows)
  {
    total := 0;
    for i := 0 to |rows|
      invariant total == TotalPrev(rows[..i])
    {
      assert rows[..i + 1][..i] == rows[..i];
      total := total + PredictPrev(rows[i]);
    }
    assert rows[..|rows|] == rows;
  }

  /** Both totals are the same sum read in opposite directions. */
  lemma {:induction false} TotalPrevReversed(rows: seq<seq<int>>)
    ensures TotalPrev(rows) == TotalNext(seq(|rows|, i requires 0 <= i < |rows| => Reverse(rows[i])))
    decreases |rows|
  {
    if rows != [] {
      var n := |rows|;
      var rev := seq(n, i requires 0 <= i < n => Reverse(rows[i]));
      TotalPrevReversed(rows[..n - 1]);
      assert rev[..n - 1] == seq(n - 1, i requires 0 <= i < n - 1 => Reverse(rows[..n - 1][i]));
      PrevIsNextReversed(rows[n - 1]);
    }
  }
}
