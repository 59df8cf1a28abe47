/** Matrices as Python lists of lists of integers, and the dot product both
    matrix scripts compute entry by entry. */
module Matrices {

  /** A list of rows; nothing forces the rows to have equal lengths. */
  type Matrix = seq<seq<int>>

  /** Each of the first n rows of m is long enough to have a column j. */
  predicate HasColumn(m: Matrix, j: nat, n: nat)
  {
    n <= |m| && forall k :: 0 <= k < n ==> j < |m[k]|
  }

  /** Σ_{k < n} row[k] * m[k][j], accumulated for k = 0, 1, …, n - 1. */
  function Dot(row: seq<int>, m: Matrix, j: nat, n: nat): int
    requires n <= |row| && HasColumn(m, j, n)
  {
    if n == 0 then 0 else Dot(row, m, j, n - 1) + row[n - 1] * m[n - 1][j]
  }

  function Min(x: int, y: int): int
  {
    if x <= y then x else y
  }
}
