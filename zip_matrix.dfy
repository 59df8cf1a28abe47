/** Row-parallel matrix multiplication through `zip` (03_/0307.py).
    There is no shape check: `zip(*matrix)` yields as many columns as the
    shortest row of the matrix has, and `zip(row, col)` stops at the shorter
    of the two, so mismatched shapes are truncated, never rejected. */
module ZipMatrix {
  import opened Outcomes
  import opened Sums
  import opened Matrices
  import RowMatrix

  /** The length of the shortest row of a non-empty matrix. */
  function ShortestRow(m: Matrix): (r: nat)
    requires |m| > 0
    ensures forall k :: 0 <= k < |m| ==> r <= |m[k]|
    ensures exists k :: 0 <= k < |m| && r == |m[k]|
  {
    if |m| == 1 then |m[0]|
    else
      var rest := ShortestRow(m[1..]);
      assert forall k :: 1 <= k < |m| ==> m[1..][k - 1] == m[k];
      if |m[0]| <= rest then |m[0]| else rest
  }

  /** How many tuples `zip(*m)` yields; `zip()` with no argument yields none. */
  function ColumnCount(m: Matrix): nat
  {
    if |m| == 0 then 0 else ShortestRow(m)
  }

  /** `zip(*m)`: one tuple per index below the length of the shortest row
      (none when m is empty); tuple j holds m[0][j], …, m[|m| - 1][j]. */
  function Columns(m: Matrix): (cols: seq<seq<int>>)
    ensures |cols| == ColumnCount(m)
    ensures |m| == 0 ==> |cols| == 0
    ensures |m| > 0 ==> (forall k :: 0 <= k < |m| ==> |cols| <= |m[k]|) && exists k :: 0 <= k < |m| && |cols| == |m[k]|
    ensures forall j :: 0 <= j < |cols| ==>
      HasColumn(m, j, |m|) && |cols[j]| == |m| && forall k :: 0 <= k < |m| ==> cols[j][k] == m[k][j]
  {
    seq(ColumnCount(m), j requires 0 <= j < ColumnCount(m) =>
      seq(|m|, k requires 0 <= k < |m| => m[k][j]))
  }

  /** `sum(r * c for r, c in zip(row, col))`. */
  function ZipDot(row: seq<int>, col: seq<int>): int
  {
    var n := Min(|row|, |col|);
    Sum(seq(n, k requires 0 <= k < n => row[k] * col[k]))
  }

  /** The row `multiply_row(row, matrix)` returns. */
  function RowTimes(row: seq<int>, m: Matrix): seq<int>
  {
    var cols := Columns(m);
    seq(|cols|, j requires 0 <= j < |cols| => ZipDot(row, cols[j]))
  }

  /** `matrix_multiply`: one `multiply_row` task per row of m1, gathered in
      m1's row order. */
  function MatrixMultiply(m1: Matrix, m2: Matrix): (product: seq<seq<int>>)
    ensures |product| == |m1|
    ensures forall i :: 0 <= i < |m1| ==>
      |product[i]| == ColumnCount(m2) &&
      forall j :: 0 <= j < ColumnCount(m2) ==>
        HasColumn(m2, j, Min(|m1[i]|, |m2|)) &&
        product[i][j] == Dot(m1[i], m2, j, Min(|m1[i]|, |m2|))
  {
    assert forall i :: 0 <= i < |m1| ==>
      |RowTimes(m1[i], m2)| == ColumnCount(m2) &&
      forall j :: 0 <= j < ColumnCount(m2) ==>
        HasColumn(m2, j, Min(|m1[i]|, |m2|)) &&
        RowTimes(m1[i], m2)[j] == Dot(m1[i], m2, j, Min(|m1[i]|, |m2|))
    by {
      forall i | 0 <= i < |m1| {
        RowTimesEntries(m1[i], m2);
      }
    }
    seq(|m1|, i requires 0 <= i < |m1| => RowTimes(m1[i], m2))
  }

  /** The truncated products sum to the dot product over the first n rows. */
  lemma {:induction false} ProductsSumToDot(row: seq<int>, m: Matrix, j: nat, n: nat)
    requires n <= |row| && HasColumn(m, j, n)
    ensures Sum(seq(n, k requires 0 <= k < n => row[k] * m[k][j])) == Dot(row, m, j, n)
  {
    if n > 0 {
      var s := seq(n, k requires 0 <= k < n => row[k] * m[k][j]);
      assert s[..n - 1] == seq(n - 1, k requires 0 <= k < n - 1 => row[k] * m[k][j]);
      ProductsSumToDot(row, m, j, n - 1);
    }
  }

  /** Entry j of `multiply_row(row, m)` is Σ_{k < min(|row|, |m|)} row[k] * m[k][j]. */
  lemma RowTimesEntries(row: seq<int>, m: Matrix)
    ensures |RowTimes(row, m)| == ColumnCount(m)
    ensures forall j :: 0 <= j < ColumnCount(m) ==>
      HasColumn(m, j, Min(|row|, |m|)) && RowTimes(row, m)[j] == Dot(row, m, j, Min(|row|, |m|))
  {
    var cols := Columns(m);
    var n := Min(|row|, |m|);
    forall j | 0 <= j < ColumnCount(m)
      ensures HasColumn(m, j, n) && RowTimes(row, m)[j] == Dot(row, m, j, n)
    {
      assert seq(n, k requires 0 <= k < n => row[k] * cols[j][k]) == seq(n, k requires 0 <= k < n => row[k] * m[k][j]);
      ProductsSumToDot(row, m, j, n);
    }
  }

  /** `multiply_row`: the imperative `for col in zip(*matrix)` loop, appending
      one dot product per column. `matrix_multiply` below is the list
      comprehension over the same row product, written with the function
      `RowTimes` that this method is proved equal to. */
  method MultiplyRow(row: seq<int>, matrix: Matrix) returns (result: seq<int>)
    ensures |result| == ColumnCount(matrix)
    ensures forall j :: 0 <= j < ColumnCount(matrix) ==>
      HasColumn(matrix, j, Min(|row|, |matrix|)) && result[j] == Dot(row, matrix, j, Min(|row|, |matrix|))
    ensures result == RowTimes(row, matrix)
  {
    result := [];
    var cols := Columns(matrix);
    for j := 0 to |cols|
      invariant |result| == j
      invariant forall j' :: 0 <= j' < j ==> result[j'] == ZipDot(row, cols[j'])
    {
      result := result + [ZipDot(row, cols[j])];
    }
    RowTimesEntries(row, matrix);
  }

  /** On rectangular, compatible operands (every row of a as long as b is
      tall, every row of b as wide as its first) the `zip` version and the
      shape-checked version of 03_/vs.py return the same matrix. */
  lemma AgreesWithRowMatrix(a: Matrix, b: Matrix)
    requires RowMatrix.Width(a) == |b|
    requires forall i :: 0 <= i < |a| ==> |a[i]| == |b|
    requires forall k :: 0 <= k < |b| ==> |b[k]| == RowMatrix.Width(b)
    ensures RowMatrix.Product(a, b) == Ok(Some(MatrixMultiply(a, b)))
  {
    assert ColumnCount(b) == RowMatrix.Width(b);
    assert forall i :: 0 <= i < |a| ==> RowMatrix.Fits(a[i], b);
    forall i | 0 <= i < |a|
      ensures RowMatrix.RowTimes(a[i], b) == RowTimes(a[i], b)
    {
      RowTimesEntries(a[i], b);
    }
    assert RowMatrix.Product(a, b).value.value == MatrixMultiply(a, b);
  }

  /** The example of `main`. */
  lemma Example()
    ensures MatrixMultiply([[1, 2], [3, 4]], [[5, 6], [7, 8]]) == [[19, 22], [43, 50]]
  {
    var m1, m2 := [[1, 2], [3, 4]], [[5, 6], [7, 8]];
    assert ColumnCount(m2) == 2;
    var c := MatrixMultiply(m1, m2);
    assert c[0] == [19, 22];
    assert c[1] == [43, 50];
  }

  /** A 1×3 times a 2×1 matrix: 03_/vs.py rejects it, while `zip` drops the
      third entry of the row and returns a 1×1 matrix. */
  lemma LongRowTruncated()
    ensures MatrixMultiply([[1, 2, 3]], [[1], [2]]) == [[5]]
    ensures RowMatrix.Product([[1, 2, 3]], [[1], [2]]) == Ok(None)
  {
    var m1, m2 := [[1, 2, 3]], [[1], [2]];
    assert ColumnCount(m2) == 1;
    var c := MatrixMultiply(m1, m2);
    assert c[0] == [5];
  }

  /** A ragged right operand: `zip(*m2)` stops at the shorter row, so the
      third column of the first row is dropped. */
  lemma RaggedColumnsTruncated()
    ensures MatrixMultiply([[1, 2]], [[1, 2, 3], [4, 5]]) == [[9, 12]]
  {
    var m1, m2 := [[1, 2]], [[1, 2, 3], [4, 5]];
    assert ColumnCount(m2) == 2;
    var c := MatrixMultiply(m1, m2);
    assert c[0] == [9, 12];
  }
}
