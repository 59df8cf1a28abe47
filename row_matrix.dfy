/** Row-parallel matrix multiplication with a shape check (03_/vs.py).
    `multiply_matrices_async` rejects operands whose shapes do not match with
    `None`, and otherwise starts one `multiply_row` task per row of A and
    joins them with `asyncio.gather`, which keeps A's row order. */
module RowMatrix {
  import opened Outcomes
  import opened Matrices

  /** `len(m[0]) if m else 0`: the width of a matrix, read off its first row. */
  function Width(m: Matrix): nat
  {
    if |m| > 0 then |m[0]| else 0
  }

  /** Holds exactly when `multiply_row(rowA, b)` can read every `b[k][j]`
      with k < |rowA| and j < Width(b) without an IndexError. */
  predicate Fits(rowA: seq<int>, b: Matrix)
  {
    Width(b) == 0 || (|rowA| <= |b| && forall k :: 0 <= k < |rowA| ==> Width(b) <= |b[k]|)
  }

  /** Entry j of the output row is Σ_{k < |rowA|} rowA[k] * b[k][j]. */
  function RowTimes(rowA: seq<int>, b: Matrix): seq<int>
    requires Fits(rowA, b)
  {
    seq(Width(b), j requires 0 <= j < Width(b) => Dot(rowA, b, j, |rowA|))
  }

  /** What the `multiply_row` coroutine ends with. */
  function RowOutcome(rowA: seq<int>, b: Matrix): Result<seq<int>>
  {
    if Fits(rowA, b) then Ok(RowTimes(rowA, b)) else Raised(IndexError)
  }

  /** What `multiply_matrices_async(a, b)` ends with: `None` on a shape
      mismatch, the gathered rows, or the IndexError a row task raised. */
  function Product(a: Matrix, b: Matrix): Result<Option<Matrix>>
  {
    if Width(a) != |b| then Ok(None)
    else if forall i :: 0 <= i < |a| ==> Fits(a[i], b) then
      Ok(Some(seq(|a|, i requires 0 <= i < |a| => RowTimes(a[i], b))))
    else Raised(IndexError)
  }

  /** `multiply_row`: pre-sizes the output row with zeros and fills it in
      place, one dot product per column of b. */
  method MultiplyRow(rowA: seq<int>, b: Matrix) returns (r: Result<seq<int>>)
    ensures r.Raised? <==> !Fits(rowA, b)
    ensures r.Raised? ==> r.error == IndexError
    ensures r.Ok? ==> |r.value| == Width(b)
    ensures r.Ok? ==> forall j :: 0 <= j < Width(b) ==> HasColumn(b, j, |rowA|) && r.value[j] == Dot(rowA, b, j, |rowA|)
    ensures r == RowOutcome(rowA, b)
  {
    var colsB := if |b| > 0 then |b[0]| else 0;
    var resultRow := new int[colsB](_ => 0);
    for j := 0 to colsB
      invariant j > 0 ==> |rowA| <= |b| && forall k :: 0 <= k < |rowA| ==> j <= |b[k]|
      invariant forall j' :: 0 <= j' < j ==> HasColumn(b, j', |rowA|) && resultRow[j'] == Dot(rowA, b, j', |rowA|)
    {
      var dotProduct := 0;
      for k := 0 to |rowA|
        invariant HasColumn(b, j, k)
        invariant dotProduct == Dot(rowA, b, j, k)
      {
        if k >= |b| || j >= |b[k]| {
          return Raised(IndexError);
        }
        dotProduct := dotProduct + rowA[k] * b[k][j];
      }
      resultRow[j] := dotProduct;
    }
    assert resultRow[..] == RowTimes(rowA, b);
    r := Ok(resultRow[..]);
  }

  /** `multiply_matrices_async`: the shape check, then one row task per row
      of a, then the order-preserving join. `launched` counts the row tasks
      created. */
  method MultiplyMatricesAsync(a: Matrix, b: Matrix) returns (r: Result<Option<Matrix>>, launched: nat)
    ensures r == Ok(None) <==> Width(a) != |b|
    ensures launched == if Width(a) != |b| then 0 else |a|
    ensures r == Product(a, b)
  {
    var rowsA := |a|;
    var colsA := if rowsA > 0 then |a[0]| else 0;
    var rowsB := |b|;
    if colsA != rowsB {
      return Ok(None), 0;
    }
    var tasks: seq<seq<int>> := [];
    for i := 0 to rowsA
      invariant tasks == a[..i]
    {
      tasks := tasks + [a[i]];
    }
    assert tasks == a;
    launched := |tasks|;
    var rows: seq<seq<int>> := [];
    for i := 0 to |tasks|
      invariant |rows| == i
      invariant forall i' :: 0 <= i' < i ==> Fits(a[i'], b) && rows[i'] == RowTimes(a[i'], b)
    {
      var row := MultiplyRow(tasks[i], b);
      if row.Raised? {
        assert !Fits(a[i], b);
        return Raised(row.error), launched;
      }
      rows := rows + [row.value];
    }
    assert rows == seq(|a|, i requires 0 <= i < |a| => RowTimes(a[i], b));
    r := Ok(Some(rows));
  }

  /** The whole contract of `multiply_matrices_async`: `None` exactly on a
      shape mismatch, an IndexError exactly when some row of a does not fit
      b, and otherwise one output row per row of a, in a's order, with the
      dot products as entries. */
  lemma ProductShape(a: Matrix, b: Matrix)
    ensures Product(a, b) == Ok(None) <==> Width(a) != |b|
    ensures Product(a, b).Raised? <==> Width(a) == |b| && exists i :: 0 <= i < |a| && !Fits(a[i], b)
    ensures Product(a, b).Raised? ==> Product(a, b).error == IndexError
    ensures Product(a, b).Ok? && Product(a, b).value.Some? ==>
      var c := Product(a, b).value.value;
      |c| == |a| &&
      forall i :: 0 <= i < |a| ==>
        |c[i]| == Width(b) &&
        forall j :: 0 <= j < Width(b) ==> HasColumn(b, j, |a[i]|) && c[i][j] == Dot(a[i], b, j, |a[i]|)
  {
  }

  /** No rows and no rows: the check passes (0 == 0) and the result is empty;
      no rows against a non-empty b is rejected (0 != |b|). */
  lemma EmptyOperands(b: Matrix)
    ensures Product([], []) == Ok(Some([]))
    ensures |b| > 0 ==> Product([], b) == Ok(None)
  {
    assert Product([], []).value.value == [];
  }

  /** Ragged operands that pass the shape check. Only the first |row|
      rows of b are read, and only up to the width of b[0], so a short row of
      a, a longer later row of b, or an empty b[0] multiply without an error;
      a row of b below b[0]'s width that a row of a reaches raises. */
  lemma RaggedOperands()
    ensures Product([[1, 2], [3]], [[1], [2]]) == Ok(Some([[5], [3]]))
    ensures Product([[1, 1]], [[1], [2, 3]]) == Ok(Some([[3]]))
    ensures Product([[1, 2, 3], [4, 5]], [[], [1], [2]]) == Ok(Some([[], []]))
    ensures Product([[1, 2]], [[1], []]) == Raised(IndexError)
  {
    var a1, b1 := [[1, 2], [3]], [[1], [2]];
    assert Fits(a1[0], b1) && Fits(a1[1], b1);
    assert RowTimes(a1[0], b1) == [5] && RowTimes(a1[1], b1) == [3];
    assert Product(a1, b1).value.value == [RowTimes(a1[0], b1), RowTimes(a1[1], b1)];
    var a2, b2 := [[1, 1]], [[1], [2, 3]];
    assert Fits(a2[0], b2);
    assert RowTimes(a2[0], b2) == [3];
    assert Product(a2, b2).value.value == [RowTimes(a2[0], b2)];
    var a3, b3 := [[1, 2, 3], [4, 5]], [[], [1], [2]];
    assert Fits(a3[0], b3) && Fits(a3[1], b3);
    assert RowTimes(a3[0], b3) == [] && RowTimes(a3[1], b3) == [];
    assert Product(a3, b3).value.value == [RowTimes(a3[0], b3), RowTimes(a3[1], b3)];
    var a4, b4 := [[1, 2]], [[1], []];
    assert Width(b4) == 1 && |b4[1]| == 0;
    assert !Fits(a4[0], b4);
  }

  /** The worked example of `main`: a 2×3 times a 3×2 matrix. */
  lemma WorkedExample()
    ensures Product([[1, 2, 3], [4, 5, 6]], [[7, 8], [9, 10], [11, 12]]) == Ok(Some([[58, 64], [139, 154]]))
  {
    var a := [[1, 2, 3], [4, 5, 6]];
    var b := [[7, 8], [9, 10], [11, 12]];
    assert Fits(a[0], b) && Fits(a[1], b);
    assert RowTimes(a[0], b) == [58, 64];
    assert RowTimes(a[1], b) == [139, 154];
    assert Product(a, b).value.value == [RowTimes(a[0], b), RowTimes(a[1], b)];
  }

  /** The example that `main` announces as impossible to multiply: a 2×2
      times a 2×3 matrix passes the shape check (2 columns, 2 rows) and
      yields a 2×3 product, which `main` computes and discards. */
  lemma ImpossibleExampleMultiplies()
    ensures Product([[1, 2], [3, 4]], [[5, 6, 7], [8, 9, 10]]) == Ok(Some([[21, 24, 27], [47, 54, 61]]))
  {
    var c := [[1, 2], [3, 4]];
    var d := [[5, 6, 7], [8, 9, 10]];
    assert Fits(c[0], d) && Fits(c[1], d);
    assert RowTimes(c[0], d) == [21, 24, 27];
    assert RowTimes(c[1], d) == [47, 54, 61];
    assert Product(c, d).value.value == [RowTimes(c[0], d), RowTimes(c[1], d)];
  }

  /** The same two matrices in the other order (2×3 times 2×2) do hit the
      rejection: 3 columns against 2 rows, so `None` and no row task. */
  lemma SwappedExampleRejected()
    ensures Product([[5, 6, 7], [8, 9, 10]], [[1, 2], [3, 4]]) == Ok(None)
  {
  }
}
