/**
  In-place Gauss-Jordan elimination with partial pivoting (benchmarks/why_rtk_wins.py, `solve`),
  over exact reals.  The matrix is augmented: row r is a[r] + [b[r]].
*/
module LinearSystem {

  type Row = seq<real>

  // Pivots below this absolute value are skipped.
  const EPSILON := 0.000000000001

  function Abs(x: real): real {
    if x < 0.0 then -x else x
  }

  /** Sum of row[j] * x[j] over j < n. */
  function Dot(row: Row, x: seq<real>, n: nat): real
    requires n <= |row| && n <= |x|
  {
    if n == 0 then 0.0 else Dot(row, x, n - 1) + row[n - 1] * x[n - 1]
  }

  /** The equation an augmented row stands for: coefficients times x equals the last entry. */
  ghost predicate RowHolds(row: Row, x: seq<real>) {
    |row| == |x| + 1 && Dot(row, x, |x|) == row[|x|]
  }

  ghost predicate Solves(m: seq<Row>, x: seq<real>) {
    forall r :: 0 <= r < |m| ==> RowHolds(m[r], x)
  }

  predicate Augmented(m: seq<Row>) {
    forall r :: 0 <= r < |m| ==> |m[r]| == |m| + 1
  }

  predicate Square(a: seq<Row>, b: seq<real>) {
    |a| == |b| && forall r :: 0 <= r < |a| ==> |a[r]| == |b|
  }

  function Augment(a: seq<Row>, b: seq<real>): (m: seq<Row>)
    requires Square(a, b)
    ensures |m| == |b| && Augmented(m)
  {
    seq(|b|, r requires 0 <= r < |b| => a[r] + [b[r]])
  }

  /** x satisfies the caller's system A x = b. */
  ghost predicate Satisfies(a: seq<Row>, b: seq<real>, x: seq<real>)
    requires Square(a, b)
  {
    |x| == |b| && forall r :: 0 <= r < |b| ==> Dot(a[r], x, |x|) == b[r]
  }

  // ---------------------------------------------------------------- one elimination step

  /** The row in i..k with the largest absolute entry in column i; the first one on a tie. */
  function PivotRow(m: seq<Row>, i: nat, k: nat): (p: nat)
    requires Augmented(m) && i < k <= |m|
    ensures i <= p < k
    ensures forall r :: i <= r < k ==> Abs(m[r][i]) <= Abs(m[p][i])
    ensures forall r :: i <= r < p ==> Abs(m[r][i]) < Abs(m[p][i])
  {
    if k == i + 1 then i
    else
      var p := PivotRow(m, i, k - 1);
      if Abs(m[k - 1][i]) > Abs(m[p][i]) then k - 1 else p
  }

  function Swap(m: seq<Row>, i: nat, p: nat): seq<Row>
    requires i < |m| && p < |m|
  {
    m[i := m[p]][p := m[i]]
  }

  function Pivoted(m: seq<Row>, i: nat): (m': seq<Row>)
    requires Augmented(m) && i < |m|
    ensures |m'| == |m| && Augmented(m')
  {
    Swap(m, i, PivotRow(m, i, |m|))
  }

  function SubRow(row: Row, f: real, pivot: Row): (r: Row)
    requires |row| == |pivot|
    ensures |r| == |row|
  {
    seq(|row|, j requires 0 <= j < |row| => row[j] - f * pivot[j])
  }

  /** Rows below k other than i have the multiple of row i subtracted that clears column i. */
  function Eliminated(m: seq<Row>, i: nat, k: nat): (m': seq<Row>)
    requires Augmented(m) && i < |m| && k <= |m| && m[i][i] != 0.0
    ensures |m'| == |m| && Augmented(m')
  {
    seq(|m|, r requires 0 <= r < |m| =>
      if r == i || k <= r then m[r] else SubRow(m[r], m[r][i] / m[i][i], m[i]))
  }

  predicate PivotPasses(m: seq<Row>, i: nat)
    requires Augmented(m) && i < |m|
  {
    Abs(Pivoted(m, i)[i][i]) >= EPSILON
  }

  function Step(m: seq<Row>, i: nat): (m': seq<Row>)
    requires Augmented(m) && i < |m|
    ensures |m'| == |m| && Augmented(m')
  {
    if PivotPasses(m, i) then Eliminated(Pivoted(m, i), i, |m|) else Pivoted(m, i)
  }

  /** The state of the matrix after the remaining columns i, i+1, ... have been processed. */
  function ReduceFrom(m: seq<Row>, i: nat): (m': seq<Row>)
    requires Augmented(m) && i <= |m|
    ensures |m'| == |m| && Augmented(m')
    decreases |m| - i
  {
    if i == |m| then m else ReduceFrom(Step(m, i), i + 1)
  }

  function Reduce(m: seq<Row>): (m': seq<Row>)
    requires Augmented(m)
    ensures |m'| == |m| && Augmented(m')
  {
    ReduceFrom(m, 0)
  }

  /** The columns from i on whose pivot fails the threshold test and is skipped. */
  function SkippedFrom(m: seq<Row>, i: nat): set<nat>
    requires Augmented(m) && i <= |m|
    decreases |m| - i
  {
    if i == |m| then {}
    else (if PivotPasses(m, i) then {} else {i}) + SkippedFrom(Step(m, i), i + 1)
  }

  /** Read the answer off the reduced matrix; a diagonal entry that is not above the threshold gives 0. */
  function ReadOff(m: seq<Row>): (x: seq<real>)
    requires Augmented(m)
    ensures |x| == |m|
  {
    seq(|m|, i requires 0 <= i < |m| =>
      if Abs(m[i][i]) > EPSILON then m[i][|m|] / m[i][i] else 0.0)
  }

  function Solution(a: seq<Row>, b: seq<real>): (x: seq<real>)
    requires Square(a, b)
    ensures |x| == |b|
  {
    ReadOff(Reduce(Augment(a, b)))
  }

  // ---------------------------------------------------------------- the in-place algorithm

  method FindPivot(m: array<Row>, i: nat) returns (p: nat)
    requires Augmented(m[..]) && i < m.Length
    ensures p == PivotRow(m[..], i, m.Length)
  {
    p := i;
    for r := i + 1 to m.Length
      invariant p == PivotRow(m[..], i, r)
    {
      if Abs(m[r][i]) > Abs(m[p][i]) {
        p := r;
      }
    }
  }

  method ClearColumn(m: array<Row>, i: nat)
    requires Augmented(m[..]) && i < m.Length && m[i][i] != 0.0
    modifies m
    ensures m[..] == Eliminated(old(m[..]), i, m.Length)
  {
    ghost var before := m[..];
    for r := 0 to m.Length
      invariant forall k :: 0 <= k < m.Length ==> m[k] == Eliminated(before, i, r)[k]
    {
      assert m[r] == before[r] && m[i] == before[i];
      if r != i {
        var f := m[r][i] / m[i][i];
        m[r] := SubRow(m[r], f, m[i]);
      }
    }
  }

  method ProcessColumn(m: array<Row>, i: nat)
    requires Augmented(m[..]) && i < m.Length
    modifies m
    ensures m[..] == Step(old(m[..]), i)
  {
    var p := FindPivot(m, i);
    m[i], m[p] := m[p], m[i];
    assert m[..] == Pivoted(old(m[..]), i);
    if Abs(m[i][i]) >= EPSILON {
      ClearColumn(m, i);
    }
  }

  method Solve(a: seq<Row>, b: seq<real>) returns (x: seq<real>)
    requires Square(a, b)
    ensures x == Solution(a, b)
  {
    var n := |b|;
    var m := new Row[n](r requires 0 <= r < n => a[r] + [b[r]]);
    assert m[..] == Augment(a, b);
    for i := 0 to n
      invariant Augmented(m[..])
      invariant ReduceFrom(m[..], i) == Reduce(Augment(a, b))
    {
      ProcessColumn(m, i);
    }
    x := ReadOff(m[..]);
  }

  // ---------------------------------------------------------------- row operations keep the solutions

  lemma {:induction false} DotSubRow(row: Row, f: real, pivot: Row, x: seq<real>, n: nat)
    requires |row| == |pivot| && n <= |row| && n <= |x|
    ensures Dot(SubRow(row, f, pivot), x, n) == Dot(row, x, n) - f * Dot(pivot, x, n)
  {
    if n == 0 {
    } else {
      DotSubRow(row, f, pivot, x, n - 1);
      var d, e := Dot(pivot, x, n - 1), pivot[n - 1];
      assert f * (d + e * x[n - 1]) == f * d + f * e * x[n - 1];
    }
  }

  lemma SubRowHolds(row: Row, f: real, pivot: Row, x: seq<real>)
    requires |row| == |pivot| && RowHolds(pivot, x)
    ensures RowHolds(row, x) <==> RowHolds(SubRow(row, f, pivot), x)
  {
    if |row| == |x| + 1 {
      DotSubRow(row, f, pivot, x, |x|);
    }
  }

  lemma StepKeepsSolutions(m: seq<Row>, i: nat, x: seq<real>)
    requires Augmented(m) && i < |m|
    ensures Solves(m, x) <==> Solves(Step(m, i), x)
  {
    var p := PivotRow(m, i, |m|);
    var w, s := Pivoted(m, i), Step(m, i);
    assert w[i] == m[p] && w[p] == m[i];
    assert Solves(m, x) <==> Solves(w, x) by {
      if Solves(w, x) {
        forall r | 0 <= r < |m| ensures RowHolds(m[r], x) {
          assert RowHolds(w[if r == i then p else if r == p then i else r], x);
        }
      }
    }
    assert s[i] == w[i];
    if PivotPasses(m, i) && RowHolds(w[i], x) {
      forall r | 0 <= r < |m| ensures RowHolds(w[r], x) <==> RowHolds(s[r], x) {
        if r != i {
          SubRowHolds(w[r], w[r][i] / w[i][i], w[i], x);
        }
      }
    }
  }

  /** Elimination, with or without skipped pivots, never gains or loses a solution. */
  lemma {:induction false} ReduceKeepsSolutions(m: seq<Row>, i: nat, x: seq<real>)
    requires Augmented(m) && i <= |m|
    ensures Solves(m, x) <==> Solves(ReduceFrom(m, i), x)
    decreases |m| - i
  {
    if i == |m| {
    } else {
      StepKeepsSolutions(m, i, x);
      ReduceKeepsSolutions(Step(m, i), i + 1, x);
    }
  }

  // ---------------------------------------------------------------- processed columns are diagonal

  predicate ColumnDone(m: seq<Row>, c: nat)
    requires Augmented(m) && c < |m|
  {
    Abs(m[c][c]) >= EPSILON && forall r :: 0 <= r < |m| && r != c ==> m[r][c] == 0.0
  }

  /** Zero off the diagonal, at least the threshold on it. */
  predicate Diagonal(m: seq<Row>)
    requires Augmented(m)
  {
    forall c: nat :: c < |m| ==> ColumnDone(m, c)
  }

  lemma PassingColumnDone(m: seq<Row>, i: nat)
    requires Augmented(m) && i < |m| && PivotPasses(m, i)
    ensures ColumnDone(Step(m, i), i)
  {
    ColumnClears(Pivoted(m, i), i);
  }

  lemma ColumnClears(w: seq<Row>, i: nat)
    requires Augmented(w) && i < |w| && w[i][i] != 0.0
    ensures Eliminated(w, i, |w|)[i] == w[i]
    ensures forall r :: 0 <= r < |w| && r != i ==> Eliminated(w, i, |w|)[r][i] == 0.0
  {
    forall r | 0 <= r < |w| && r != i ensures Eliminated(w, i, |w|)[r][i] == 0.0 {
      Cancels(w[r][i], w[i][i]);
    }
  }

  lemma Cancels(x: real, p: real)
    requires p != 0.0
    ensures x - x / p * p == 0.0
  {
  }

  lemma ColumnStaysDone(m: seq<Row>, i: nat, c: nat)
    requires Augmented(m) && c < i < |m| && ColumnDone(m, c)
    ensures ColumnDone(Step(m, i), c)
  {
    var w := Pivoted(m, i);
    assert ColumnDone(w, c);
    assert w[i][c] == 0.0;
    if PivotPasses(m, i) {
      forall r | 0 <= r < |m| && r != i ensures Step(m, i)[r][c] == w[r][c] {
      }
    }
  }

  lemma ColumnAfterStep(m: seq<Row>, i: nat, c: nat)
    requires Augmented(m) && c <= i < |m|
    requires if c < i then ColumnDone(m, c) else PivotPasses(m, i)
    ensures ColumnDone(Step(m, i), c)
  {
    if c < i {
      ColumnStaysDone(m, i, c);
    } else {
      PassingColumnDone(m, i);
    }
  }

  /** What every column's step keeps holds of the reduced matrix. */
  lemma {:induction false} ReduceKeeps(m: seq<Row>, i: nat, inv: (seq<Row>, nat) -> bool)
    requires Augmented(m) && i <= |m| && inv(m, i)
    requires forall x: seq<Row>, j: nat :: Augmented(x) && j < |x| && inv(x, j) ==> inv(Step(x, j), j + 1)
    ensures inv(ReduceFrom(m, i), |m|)
    decreases |m| - i
  {
    if i == |m| {
    } else {
      ReduceKeeps(Step(m, i), i + 1, inv);
    }
  }

  /** Column c is not skipped from column j on, and done if it is before that. */
  predicate PassedColumn(x: seq<Row>, j: nat, c: nat) {
    Augmented(x) && j <= |x| && c < |x| && c !in SkippedFrom(x, j) && (c < j ==> ColumnDone(x, c))
  }

  lemma NotSkipped(m: seq<Row>, i: nat, c: nat)
    requires Augmented(m) && i < |m| && c !in SkippedFrom(m, i)
    ensures c !in SkippedFrom(Step(m, i), i + 1) && (c == i ==> PivotPasses(m, i))
  {
  }

  lemma PassedColumnStep(x: seq<Row>, j: nat, c: nat)
    requires PassedColumn(x, j, c) && j < |x|
    ensures PassedColumn(Step(x, j), j + 1, c)
  {
    NotSkipped(x, j, c);
    if c <= j {
      ColumnAfterStep(x, j, c);
    }
  }

  /** Every column whose pivot passed the test ends with a nonzero entry on the diagonal only. */
  lemma ReducedColumns(m: seq<Row>, i: nat, c: nat)
    requires Augmented(m) && i <= |m| && c < |m|
    requires c < i ==> ColumnDone(m, c)
    requires c !in SkippedFrom(m, i)
    ensures ColumnDone(ReduceFrom(m, i), c)
  {
    var keeps := (x: seq<Row>, j: nat) => PassedColumn(x, j, c);
    forall x: seq<Row>, j: nat | Augmented(x) && j < |x| && keeps(x, j) ensures keeps(Step(x, j), j + 1) {
      PassedColumnStep(x, j, c);
    }
    ReduceKeeps(m, i, keeps);
  }

  // ---------------------------------------------------------------- correctness of the answer

  lemma {:induction false} DotOfAugmentedRow(row: Row, last: real, x: seq<real>, n: nat)
    requires n <= |row| && n <= |x|
    ensures Dot(row + [last], x, n) == Dot(row, x, n)
  {
    if n == 0 {
    } else {
      DotOfAugmentedRow(row, last, x, n - 1);
    }
  }

  lemma SatisfiesIsSolves(a: seq<Row>, b: seq<real>, x: seq<real>)
    requires Square(a, b) && |x| == |b|
    ensures Satisfies(a, b, x) <==> Solves(Augment(a, b), x)
  {
    var m := Augment(a, b);
    forall r | 0 <= r < |b| ensures Dot(a[r], x, |x|) == b[r] <==> RowHolds(m[r], x) {
      DotOfAugmentedRow(a[r], b[r], x, |x|);
    }
  }

  /** The part of row r's left-hand side that comes from skipped columns other than r. */
  function Leak(row: Row, r: nat, skipped: set<nat>, x: seq<real>, n: nat): real
    requires n <= |row| && n <= |x|
  {
    if n == 0 then 0.0
    else Leak(row, r, skipped, x, n - 1) +
         if n - 1 in skipped && n - 1 != r then row[n - 1] * x[n - 1] else 0.0
  }

  lemma {:induction false} DotOfReducedRow(m: seq<Row>, r: nat, skipped: set<nat>, x: seq<real>, n: nat)
    requires Augmented(m) && r < |m| && n <= |m| == |x|
    requires forall c: nat :: c < |m| && c !in skipped ==> ColumnDone(m, c)
    ensures Dot(m[r], x, n) == Leak(m[r], r, skipped, x, n) + if r < n then m[r][r] * x[r] else 0.0
  {
    if n == 0 {
    } else {
      DotOfReducedRow(m, r, skipped, x, n - 1);
      if n - 1 !in skipped && n - 1 != r {
        assert ColumnDone(m, n - 1);
        assert m[r][n - 1] == 0.0;
      }
    }
  }

  /** What row r of the reduced matrix must leak for the answer to satisfy it. */
  function RequiredLeak(m: seq<Row>, r: nat): real
    requires Augmented(m) && r < |m|
  {
    if Abs(m[r][r]) > EPSILON then 0.0 else m[r][|m|]
  }

  lemma ReducedRowHoldsIff(m: seq<Row>, r: nat, skipped: set<nat>)
    requires Augmented(m) && r < |m|
    requires forall c: nat :: c < |m| && c !in skipped ==> ColumnDone(m, c)
    ensures RowHolds(m[r], ReadOff(m)) <==> Leak(m[r], r, skipped, ReadOff(m), |m|) == RequiredLeak(m, r)
  {
    var x := ReadOff(m);
    DotOfReducedRow(m, r, skipped, x, |m|);
    if Abs(m[r][r]) > EPSILON {
      assert m[r][r] * (m[r][|m|] / m[r][r]) == m[r][|m|];
    }
  }

  lemma ReducedSolvedIff(m: seq<Row>, skipped: set<nat>)
    requires Augmented(m)
    requires forall c: nat :: c < |m| && c !in skipped ==> ColumnDone(m, c)
    ensures Solves(m, ReadOff(m)) <==>
      forall r :: 0 <= r < |m| ==> Leak(m[r], r, skipped, ReadOff(m), |m|) == RequiredLeak(m, r)
  {
    forall r | 0 <= r < |m|
      ensures RowHolds(m[r], ReadOff(m)) <==> Leak(m[r], r, skipped, ReadOff(m), |m|) == RequiredLeak(m, r)
    {
      ReducedRowHoldsIff(m, r, skipped);
    }
  }

  /** The caller's system and the reduced one have the same solutions. */
  lemma SatisfiesIsReduced(a: seq<Row>, b: seq<real>, x: seq<real>)
    requires Square(a, b) && |x| == |b|
    ensures Satisfies(a, b, x) <==> Solves(Reduce(Augment(a, b)), x)
  {
    SatisfiesIsSolves(a, b, x);
    ReduceKeepsSolutions(Augment(a, b), 0, x);
  }

  lemma UnskippedColumnsDone(m: seq<Row>)
    requires Augmented(m)
    ensures forall c: nat :: c < |m| && c !in SkippedFrom(m, 0) ==> ColumnDone(Reduce(m), c)
  {
    forall c: nat | c < |m| && c !in SkippedFrom(m, 0) ensures ColumnDone(Reduce(m), c) {
      ReducedColumns(m, 0, c);
    }
  }

  /** Column c was skipped, yet has a usable diagonal entry in the end. */
  predicate Regrown(m: seq<Row>, c: nat, skipped: set<nat>)
    requires Augmented(m) && c < |m|
  {
    c in skipped && Abs(m[c][c]) > EPSILON
  }

  /** What regrown columns other than r carry into row r of the reduced matrix. */
  function Carried(m: seq<Row>, r: nat, skipped: set<nat>, n: nat): real
    requires Augmented(m) && r < |m| && n <= |m|
  {
    if n == 0 then 0.0
    else Carried(m, r, skipped, n - 1) +
         if Regrown(m, n - 1, skipped) && n - 1 != r then m[r][n - 1] * (m[n - 1][|m|] / m[n - 1][n - 1]) else 0.0
  }

  lemma {:induction false} LeakIsCarried(m: seq<Row>, r: nat, skipped: set<nat>, n: nat)
    requires Augmented(m) && r < |m| && n <= |m|
    ensures Leak(m[r], r, skipped, ReadOff(m), n) == Carried(m, r, skipped, n)
  {
    if n == 0 {
    } else {
      LeakIsCarried(m, r, skipped, n - 1);
    }
  }

  /** For every square system, exactly when the returned vector solves it, in terms of the reduced
      matrix and the skipped columns: what regrown columns carry into a row is nothing, or, in a row
      answered 0, its right-hand side. */
  lemma SolutionCorrectIff(a: seq<Row>, b: seq<real>)
    requires Square(a, b)
    ensures var m, skipped := Reduce(Augment(a, b)), SkippedFrom(Augment(a, b), 0);
      Satisfies(a, b, Solution(a, b)) <==>
      forall r :: 0 <= r < |b| ==> Carried(m, r, skipped, |b|) == RequiredLeak(m, r)
  {
    var m, skipped := Reduce(Augment(a, b)), SkippedFrom(Augment(a, b), 0);
    SatisfiesIsReduced(a, b, Solution(a, b));
    UnskippedColumnsDone(Augment(a, b));
    ReducedSolvedIff(m, skipped);
    forall r | 0 <= r < |b| ensures Leak(m[r], r, skipped, ReadOff(m), |b|) == Carried(m, r, skipped, |b|) {
      LeakIsCarried(m, r, skipped, |b|);
    }
  }

  lemma {:induction false} NothingCarried(m: seq<Row>, r: nat, skipped: set<nat>, n: nat)
    requires Augmented(m) && r < |m| && n <= |m| && forall c: nat :: c < |m| ==> !Regrown(m, c, skipped)
    ensures Carried(m, r, skipped, n) == 0.0
  {
    if n == 0 {
    } else {
      NothingCarried(m, r, skipped, n - 1);
    }
  }

  /** When no skipped column grew a usable diagonal later, singular systems included: the answer is
      right iff every row that was given the answer 0 has a zero right-hand side left. */
  lemma SolutionCorrectWithoutRegrowth(a: seq<Row>, b: seq<real>)
    requires Square(a, b)
    requires forall c: nat :: c < |b| && c in SkippedFrom(Augment(a, b), 0) ==>
               Abs(Reduce(Augment(a, b))[c][c]) <= EPSILON
    ensures var m := Reduce(Augment(a, b));
      Satisfies(a, b, Solution(a, b)) <==>
      forall r :: 0 <= r < |b| && Abs(m[r][r]) <= EPSILON ==> m[r][|b|] == 0.0
  {
    var m, skipped := Reduce(Augment(a, b)), SkippedFrom(Augment(a, b), 0);
    SolutionCorrectIff(a, b);
    forall r | 0 <= r < |b| ensures Carried(m, r, skipped, |b|) == 0.0 {
      NothingCarried(m, r, skipped, |b|);
    }
    assert forall r :: 0 <= r < |b| ==>
      (Carried(m, r, skipped, |b|) == RequiredLeak(m, r) <==> (Abs(m[r][r]) <= EPSILON ==> m[r][|b|] == 0.0));
  }

  lemma {:induction false} NothingLeaks(row: Row, r: nat, x: seq<real>, n: nat)
    requires n <= |row| && n <= |x|
    ensures Leak(row, r, {}, x, n) == 0.0
  {
    if n == 0 {
    } else {
      NothingLeaks(row, r, x, n - 1);
    }
  }

  /** A diagonal system, solved row by row. */
  lemma DiagonalSolvedIff(m: seq<Row>, y: seq<real>)
    requires Augmented(m) && |m| == |y|
    requires Diagonal(m)
    ensures Solves(m, y) <==> forall r :: 0 <= r < |m| ==> m[r][r] * y[r] == m[r][|m|]
  {
    forall r | 0 <= r < |m| ensures RowHolds(m[r], y) <==> m[r][r] * y[r] == m[r][|m|] {
      DotOfReducedRow(m, r, {}, y, |m|);
      NothingLeaks(m[r], r, y, |m|);
    }
  }

  lemma DiagonalUniquelySolved(m: seq<Row>)
    requires Augmented(m)
    requires Diagonal(m)
    ensures exists y :: |y| == |m| && Solves(m, y)
    ensures forall y, z :: |y| == |z| == |m| && Solves(m, y) && Solves(m, z) ==> y == z
  {
    assert forall r: nat :: r < |m| ==> ColumnDone(m, r) && m[r][r] != 0.0;
    var q := seq(|m|, r requires 0 <= r < |m| && m[r][r] != 0.0 => m[r][|m|] / m[r][r]);
    DiagonalSolvedIff(m, q);
    forall y | |y| == |m| && Solves(m, y) ensures y == q {
      DiagonalSolvedIff(m, y);
      forall r | 0 <= r < |m| ensures y[r] == q[r] {
        DivideOut(m[r][r], y[r], q[r]);
      }
    }
  }

  /** When every pivot passes the test, the reduced matrix is diagonal and the answer is right iff no
      diagonal entry of exactly the threshold has a nonzero right-hand side left. */
  lemma PassingPivotsSolve(a: seq<Row>, b: seq<real>)
    requires Square(a, b) && SkippedFrom(Augment(a, b), 0) == {}
    ensures var m := Reduce(Augment(a, b));
      && Diagonal(m)
      && (Satisfies(a, b, Solution(a, b)) <==>
          forall r :: 0 <= r < |b| && Abs(m[r][r]) == EPSILON ==> m[r][|b|] == 0.0)
  {
    UnskippedColumnsDone(Augment(a, b));
    SolutionCorrectWithoutRegrowth(a, b);
    var m := Reduce(Augment(a, b));
    assert Diagonal(m);
    assert forall r: nat :: r < |b| ==> ColumnDone(m, r) && Abs(m[r][r]) >= EPSILON;
  }

  /** When every pivot passes the test, the caller's system has exactly one solution. */
  lemma PassingPivotsUnique(a: seq<Row>, b: seq<real>)
    requires Square(a, b) && SkippedFrom(Augment(a, b), 0) == {}
    ensures exists y :: Satisfies(a, b, y)
    ensures forall y, z :: Satisfies(a, b, y) && Satisfies(a, b, z) ==> y == z
  {
    var m := Reduce(Augment(a, b));
    UnskippedColumnsDone(Augment(a, b));
    DiagonalUniquelySolved(m);
    forall y: seq<real> | |y| == |b| ensures Satisfies(a, b, y) <==> Solves(m, y) {
      SatisfiesIsReduced(a, b, y);
    }
  }

  lemma DivideOut(d: real, y: real, z: real)
    requires d != 0.0 && d * y == d * z
    ensures y == z
  {
    assert d * (y - z) == 0.0;
  }

  // ---------------------------------------------------------------- where the answer is wrong

  /** A pivot of exactly the threshold passes the elimination test but not the stricter read-off test. */
  lemma ThresholdPivotIsDropped()
    ensures Square([[EPSILON]], [1.0])
    ensures SkippedFrom(Augment([[EPSILON]], [1.0]), 0) == {}
    ensures Solution([[EPSILON]], [1.0]) == [0.0]
    ensures Satisfies([[EPSILON]], [1.0], [1.0 / EPSILON]) && !Satisfies([[EPSILON]], [1.0], [0.0])
  {
    var a, b := [[EPSILON]], [1.0];
    var m := Augment(a, b);
    assert m[0] == a[0] + [b[0]] == [EPSILON, 1.0];
    assert PivotRow(m, 0, 1) == 0 && Pivoted(m, 0) == m;
    assert Step(m, 0) == m;
    assert ReduceFrom(m, 0) == ReduceFrom(m, 1) == m;
    assert SkippedFrom(m, 1) == {};
    assert Dot(a[0], [0.0], 1) == Dot(a[0], [0.0], 0) + EPSILON * 0.0;
    assert Dot(a[0], [1.0 / EPSILON], 1) == Dot(a[0], [1.0 / EPSILON], 0) + EPSILON * (1.0 / EPSILON);
  }

  function Regrowing(): seq<Row> {
    [[0.0000000000005, 1000.0, 1.0], [0.0000000000005, -1.0, 0.0]]
  }

  lemma RegrowingSteps()
    ensures Augmented(Regrowing()) && Step(Regrowing(), 0) == Regrowing()
    ensures Step(Regrowing(), 1) == [[0.0000000005005, 0.0, 1.0], [0.0000000000005, -1.0, 0.0]]
  {
    var m := Regrowing();
    assert PivotRow(m, 0, 1) == 0 && PivotRow(m, 0, 2) == 0 && Pivoted(m, 0) == m;
    assert PivotRow(m, 1, 2) == 1 && Pivoted(m, 1) == m;
    assert SubRow(m[0], -1000.0, m[1]) == [0.0000000005005, 0.0, 1.0];
  }

  /** A skipped column can regain a usable diagonal entry from a later elimination without being
      cleared elsewhere: a solvable system then gets a wrong answer. */
  lemma SkippedColumnCanRegrow()
    ensures var a, b := [[0.0000000000005, 1000.0], [0.0000000000005, -1.0]], [1.0, 0.0];
      && Square(a, b) && SkippedFrom(Augment(a, b), 0) == {0}
      && !Satisfies(a, b, Solution(a, b))
      && Satisfies(a, b, [1.0 / 0.0000000005005, 1.0 / 1001.0])
  {
    var a, b := [[0.0000000000005, 1000.0], [0.0000000000005, -1.0]], [1.0, 0.0];
    var m := Augment(a, b);
    assert m[0] == a[0] + [b[0]] == Regrowing()[0] && m[1] == a[1] + [b[1]] == Regrowing()[1];
    assert m == Regrowing();
    RegrowingSteps();
    var d := Step(m, 1);
    assert ReduceFrom(m, 0) == ReduceFrom(m, 1) == ReduceFrom(d, 2) == d;
    assert SkippedFrom(d, 2) == {} && SkippedFrom(m, 1) == {};
    var x := Solution(a, b);
    assert x[1] == 0.0;
    DotOfTwo(a[1], x);
    var y := [1.0 / 0.0000000005005, 1.0 / 1001.0];
    DotOfTwo(a[0], y);
    DotOfTwo(a[1], y);
  }

  lemma DotOfTwo(row: Row, x: seq<real>)
    requires |row| == |x| == 2
    ensures Dot(row, x, 2) == row[0] * x[0] + row[1] * x[1]
  {
    assert Dot(row, x, 1) == Dot(row, x, 0) + row[0] * x[0];
  }
}
