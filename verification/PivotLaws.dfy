/**
  What the solver promises in terms of the numbers themselves (benchmarks/why_rtk_wins.py, `solve`):
  systems whose pivots are above 1e-12 are solved, and what happens to smaller ones.
*/
module PivotLaws {
  import opened LinearSystem

  /** The largest absolute entry of column i at or below the diagonal. */
  function Largest(m: seq<Row>, i: nat, k: nat): (x: real)
    requires Augmented(m) && i < k <= |m|
    ensures forall r :: i <= r < k ==> Abs(m[r][i]) <= x
    ensures exists r :: i <= r < k && Abs(m[r][i]) == x
  {
    if k == i + 1 then Abs(m[i][i])
    else
      var x, y := Largest(m, i, k - 1), Abs(m[k - 1][i]);
      if y > x then y else x
  }

  /** Each column, when its turn comes, has an entry above 1e-12 at or below the diagonal. */
  predicate LargePivots(m: seq<Row>, i: nat)
    requires Augmented(m) && i <= |m|
    decreases |m| - i
  {
    i == |m| || (Largest(m, i, |m|) > 0.000000000001 && LargePivots(Eliminated(Pivoted(m, i), i, |m|), i + 1))
  }

  lemma PivotIsLargest(m: seq<Row>, i: nat)
    requires Augmented(m) && i < |m|
    ensures Abs(Pivoted(m, i)[i][i]) == Largest(m, i, |m|)
  {
    var p := PivotRow(m, i, |m|);
    var r :| i <= r < |m| && Abs(m[r][i]) == Largest(m, i, |m|);
    assert Abs(m[r][i]) <= Abs(m[p][i]);
  }

  /** The first n columns are cleared, with diagonal entries above 1e-12. */
  predicate ClearedUpTo(m: seq<Row>, n: nat)
    requires Augmented(m) && n <= |m|
  {
    forall c: nat :: c < n ==> ColumnDone(m, c) && Abs(m[c][c]) > 0.000000000001
  }

  /** Eliminating column i leaves the diagonal of a cleared column before it alone. */
  lemma DiagonalKept(m: seq<Row>, i: nat, c: nat)
    requires Augmented(m) && c < i < |m| && ColumnDone(m, c) && PivotPasses(m, i)
    ensures Step(m, i)[c][c] == m[c][c]
  {
    var w := Pivoted(m, i);
    assert w[c] == m[c];
    assert w[i][c] == 0.0;
    assert Step(m, i)[c] == SubRow(w[c], w[c][i] / w[i][i], w[i]);
  }

  lemma ClearOne(m: seq<Row>, i: nat, c: nat)
    requires Augmented(m) && c <= i < |m| && ClearedUpTo(m, i) && Largest(m, i, |m|) > 0.000000000001
    ensures ColumnDone(Step(m, i), c) && Abs(Step(m, i)[c][c]) > 0.000000000001
  {
    PivotIsLargest(m, i);
    if c < i {
      assert ColumnDone(m, c);
      DiagonalKept(m, i, c);
    } else {
      assert Step(m, i)[i] == Pivoted(m, i)[i];
    }
    ColumnAfterStep(m, i, c);
  }

  lemma ClearMore(m: seq<Row>, i: nat)
    requires Augmented(m) && i < |m| && ClearedUpTo(m, i) && LargePivots(m, i)
    ensures ClearedUpTo(Step(m, i), i + 1) && LargePivots(Step(m, i), i + 1)
  {
    forall c: nat | c < i + 1 ensures ColumnDone(Step(m, i), c) && Abs(Step(m, i)[c][c]) > 0.000000000001 {
      ClearOne(m, i, c);
    }
    PivotIsLargest(m, i);
    assert Step(m, i) == Eliminated(Pivoted(m, i), i, |m|);
  }

  /** Large pivots from column j on, and the columns before it cleared. */
  ghost predicate PartCleared(x: seq<Row>, j: nat) {
    Augmented(x) && j <= |x| && LargePivots(x, j) && ClearedUpTo(x, j)
  }

  lemma PartClearedStep(x: seq<Row>, j: nat)
    requires PartCleared(x, j) && j < |x|
    ensures PartCleared(Step(x, j), j + 1)
  {
    ClearMore(x, j);
  }

  /** Elimination with large pivots clears every column. */
  lemma LargePivotsReduce(m: seq<Row>)
    requires Augmented(m) && LargePivots(m, 0)
    ensures ClearedUpTo(Reduce(m), |m|)
  {
    forall x: seq<Row>, j: nat | Augmented(x) && j < |x| && PartCleared(x, j) ensures PartCleared(Step(x, j), j + 1) {
      PartClearedStep(x, j);
    }
    ReduceKeeps(m, 0, PartCleared);
  }

  lemma ClearedAnswer(m: seq<Row>)
    requires Augmented(m) && ClearedUpTo(m, |m|)
    ensures Solves(m, ReadOff(m))
    ensures forall y :: |y| == |m| && Solves(m, y) ==> y == ReadOff(m)
  {
    var x := ReadOff(m);
    assert Diagonal(m);
    DiagonalSolvedIff(m, x);
    forall r: nat | r < |m| ensures m[r][r] * x[r] == m[r][|m|] {
      assert ColumnDone(m, r) && Abs(m[r][r]) > 0.000000000001;
      DivideBack(m[r][|m|], m[r][r]);
    }
    DiagonalUniquelySolved(m);
  }

  /** For every square system: if every pivot met is above 1e-12 in absolute value, the returned vector
      satisfies A x = b, and nothing else does. */
  lemma LargePivotsSolve(a: seq<Row>, b: seq<real>)
    requires Square(a, b) && LargePivots(Augment(a, b), 0)
    ensures Satisfies(a, b, Solution(a, b))
    ensures forall y :: Satisfies(a, b, y) ==> y == Solution(a, b)
  {
    LargePivotsReduce(Augment(a, b));
    ClearedAnswer(Reduce(Augment(a, b)));
    SatisfiesIsReduced(a, b, Solution(a, b));
    forall y | Satisfies(a, b, y) ensures y == Solution(a, b) {
      SatisfiesIsReduced(a, b, y);
    }
  }

  lemma DivideBack(x: real, d: real)
    requires d != 0.0
    ensures d * (x / d) == x
  {
  }

  // ---------------------------------------------------------------- both sides of the threshold

  /** A column with an entry of at least 1e-12 at or below the diagonal is cleared but for one entry; any
      other column is left as it is, only its rows may change places. */
  lemma StepClearsIff(m: seq<Row>, i: nat)
    requires Augmented(m) && i < |m|
    ensures Largest(m, i, |m|) >= 0.000000000001 ==>
      (Abs(Step(m, i)[i][i]) == Largest(m, i, |m|) && forall r :: 0 <= r < |m| && r != i ==> Step(m, i)[r][i] == 0.0)
    ensures Largest(m, i, |m|) < 0.000000000001 ==> multiset(Step(m, i)) == multiset(m)
  {
    PivotIsLargest(m, i);
    if PivotPasses(m, i) {
      PassingColumnDone(m, i);
      assert Step(m, i)[i] == Pivoted(m, i)[i];
    } else {
      SwapPermutes(m, i, PivotRow(m, i, |m|));
    }
  }

  lemma SwapPermutes(m: seq<Row>, i: nat, p: nat)
    requires i < |m| && p < |m|
    ensures multiset(Swap(m, i, p)) == multiset(m)
  {
    assert multiset(m[i := m[p]]) == multiset(m) - multiset{m[i]} + multiset{m[p]};
    assert m[i := m[p]][p] == m[p];
  }

  /** One equation in one unknown, whatever the numbers: answered by division above 1e-12, else by 0. */
  lemma OneEquation(p: real, b: real)
    ensures Solution([[p]], [b]) == [if p > 0.000000000001 || p < -0.000000000001 then b / p else 0.0]
  {
    var m := Augment([[p]], [b]);
    assert m[0] == [p] + [b] == [p, b] && m == [[p, b]];
    assert PivotRow(m, 0, 1) == 0 && Pivoted(m, 0) == m && Step(m, 0) == m;
    assert ReduceFrom(m, 0) == ReduceFrom(m, 1) == m;
  }

  /** Exactly at 1e-12, and just above it. */
  lemma Threshold()
    ensures Solution([[0.000000000001]], [1.0]) == [0.0]
    ensures Solution([[-0.000000000001]], [1.0]) == [0.0]
    ensures Solution([[0.000000000002]], [1.0]) == [500000000000.0]
    ensures Solution([[0.25]], [1.0]) == [4.0]
    ensures Solution([[-0.25]], [1.0]) == [-4.0]
  {
    OneEquation(0.000000000001, 1.0);
    OneEquation(-0.000000000001, 1.0);
    OneEquation(0.000000000002, 1.0);
    OneEquation(0.25, 1.0);
    OneEquation(-0.25, 1.0);
  }

  /** The answer to the system whose first column is skipped and regrows. */
  lemma RegrownAnswer()
    ensures Solution([[0.0000000000005, 1000.0], [0.0000000000005, -1.0]], [1.0, 0.0]) == [1.0 / 0.0000000005005, 0.0]
  {
    var a, b := [[0.0000000000005, 1000.0], [0.0000000000005, -1.0]], [1.0, 0.0];
    var m := Augment(a, b);
    assert m[0] == a[0] + [b[0]] == Regrowing()[0] && m[1] == a[1] + [b[1]] == Regrowing()[1];
    assert m == Regrowing();
    RegrowingSteps();
    assert ReduceFrom(m, 0) == ReduceFrom(m, 1) == ReduceFrom(Step(m, 1), 2) == Step(m, 1);
  }
}
