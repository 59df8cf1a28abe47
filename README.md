# Fan-out/join exercises: the sequential computations, verified

The scripts under `03_/` start one asyncio coroutine per work item and join them
with `asyncio.gather`, which hands back the results in argument order whatever
order the tasks finish in. This project models what each script computes once
that join is read as an order-preserving map. Each `async def` becomes an
ordinary function or method. `await asyncio.sleep(...)` does nothing. A
`gather(*[f(x) for x in xs])` becomes a map over `xs` in index order, and an
exception raised by one task becomes the outcome of the whole batch
(`Outcomes.Result.Raised`).

Modules, one per script, plus three shared ones:

- `Outcomes`: Python's `None` (`Option`) and "returned a value or raised an
  exception" (`Result`, with `IndexError` and `ValueError`).
- `Sums`: Python's `sum` over integers. `Matrices`: lists of rows and the dot
  product Σ_{k<n} row[k]·m[k][j].
- `RowMatrix` (03_/vs.py): matrix product with a shape check. `MultiplyRow`
  fills a pre-sized array with nested loops. `MultiplyMatricesAsync` returns
  `None` when `len(a[0])` (0 for an empty `a`) differs from `len(b)`. Otherwise
  it creates one row task per row of `a` and gathers them in order. A row
  task reads `b[k][j]` only for k below the length of its own row and j below
  `len(b[0])`. So it raises `IndexError` only when `len(b[0]) > 0` and either
  the row is longer than `len(b)` or one of the first `len(row)` rows of `b`
  is shorter than `b[0]`. The model returns that error. Every other ragged
  pair is multiplied: a short row of `a` is summed over its own length, and
  entries of `b` beyond the width of `b[0]` are ignored.
- `ZipMatrix` (03_/0307.py): matrix product through `zip`. There is no shape
  check. `zip(*m)` yields one column per index below the length of the shortest
  row, and `zip(row, col)` stops at the shorter of the two. Mismatched shapes
  are therefore truncated, never rejected. On rectangular, compatible operands
  it agrees with `RowMatrix`. `MultiplyRow` renders the imperative
  `for col in zip(*matrix)` loop and is proved equal to the function
  `RowTimes`. `MatrixMultiply`, the list comprehension of `matrix_multiply`, is
  built from that function because a function cannot call a method.
- `PrimeFilter` (03_/0303.py): trial division, and the filter that keeps the
  primes of a list in order.
- `SplitMin` (03_/0304.py): the minimum of the two halves of a list, split at
  `len(nums) // 2`. `min([])` raises `ValueError`, so lists shorter than 2 end
  in that error.
- `Squares` (03_/0305.py): the sum of the gathered squares.
- `TreeSum` (03_/0306.py): the recursive tree reduction over `None`-or-node
  trees.

Python lists are immutable sequence values here. So "a task does not modify its
inputs" and "the tree is only read" hold by construction.

Points where the code does less than its comments and headings suggest:

- 03_/vs.py:35 says the result is `None` when the matrices cannot be
  multiplied. The check at 03_/vs.py:43 compares only `len(a[0])` with
  `len(b)`, so ragged operands either pass or raise `IndexError` as described
  above.
- The heading printed at 03_/vs.py:91 announces the 2×2 × 2×3 pair as
  impossible to multiply. The check at 03_/vs.py:43 accepts it (see Findings).

## Model

| member | source | states |
|---|---|---|
| `RowMatrix.MultiplyRow` | 03_/vs.py:3-24 | raises IndexError exactly when some `b[k][j]` with k < len(row_a), j < cols_b is missing; otherwise the row has `len(b[0])` entries (0 for empty b) and entry j is Σ_{k<len(row_a)} row_a[k]·b[k][j]; equals `RowOutcome` |
| `RowMatrix.MultiplyMatricesAsync` | 03_/vs.py:26-54 | returns `None` exactly when cols(a) ≠ rows(b), and creates no row task then (`launched` = 0, otherwise len(a)); its result is `Product(a, b)` |
| `RowMatrix.ProductShape` | 03_/vs.py:37-54 | `None` iff cols(a) ≠ rows(b); IndexError iff the check passes and some row of a does not fit b; otherwise len(a) rows in a's order, row i of width cols(b) with entries Σ_k a[i][k]·b[k][j] |
| `RowMatrix.RaggedOperands` | 03_/vs.py:16-23 | a short row of a, a longer later row of b, and an empty b[0] all multiply without error (extra entries of b ignored); a row of b shorter than b[0] that a row of a reaches raises IndexError |
| `RowMatrix.EmptyOperands` | 03_/vs.py:37-45 | `[] × []` gives `[]`; `[] × b` with b non-empty gives `None` |
| `RowMatrix.WorkedExample` | 03_/vs.py:57-76 | [[1,2,3],[4,5,6]] × [[7,8],[9,10],[11,12]] = [[58,64],[139,154]] |
| `RowMatrix.ImpossibleExampleMultiplies` | 03_/vs.py:83-98 | the example announced as impossible passes the check and yields [[21,24,27],[47,54,61]] |
| `RowMatrix.SwappedExampleRejected` | 03_/vs.py:43-45 | the same two matrices in the other order are rejected with `None` |
| `ZipMatrix.ShortestRow` | 03_/0307.py:5 | the result is at most every row length of a non-empty matrix and equals one of them |
| `ZipMatrix.Columns` | 03_/0307.py:5 | `zip(*m)` has as many tuples as the shortest row is long (none for an empty m), and tuple j is column j |
| `ZipMatrix.ZipDot` | 03_/0307.py:6 | `sum(r * c for r, c in zip(row, col))`: the sum of the products over the common prefix of row and col; `ProductsSumToDot` proves that, for a column of a matrix, it is the dot product over the first min(len(row), len(col)) rows |
| `ZipMatrix.ProductsSumToDot` | 03_/0307.py:6 | the sum of the products over the first n pairs is the dot product over the first n rows |
| `ZipMatrix.RowTimesEntries` | 03_/0307.py:3-7 | one entry per column of `zip(*m)`; entry j is Σ_{k<min(len(row), len(m))} row[k]·m[k][j] |
| `ZipMatrix.MultiplyRow` | 03_/0307.py:3-7 | the appended row has one entry per column and entry j is the truncated dot product; equals `RowTimes` |
| `ZipMatrix.MatrixMultiply` | 03_/0307.py:9-12 | len(m1) rows in m1's order; each row has one entry per column of the shortest row of m2, with the truncated dot products; no input is rejected |
| `ZipMatrix.AgreesWithRowMatrix` | 03_/0307.py:3-12 | on rectangular operands with cols(a) = rows(b) the result equals what the 03_/vs.py version returns |
| `ZipMatrix.Example` | 03_/0307.py:18-20 | [[1,2],[3,4]] × [[5,6],[7,8]] = [[19,22],[43,50]] |
| `ZipMatrix.LongRowTruncated` | 03_/0307.py:9-12 | [[1,2,3]] × [[1],[2]] gives [[5]] (the third entry is dropped), while the 03_/vs.py version returns `None` |
| `ZipMatrix.RaggedColumnsTruncated` | 03_/0307.py:5 | [[1,2]] × [[1,2,3],[4,5]] gives [[9,12]]: the column beyond the shorter row is dropped |
| `PrimeFilter.IsPrime` | 03_/0303.py:3-9 | true iff n ≥ 2 and no i with 2 ≤ i, i·i ≤ n divides n; equivalently iff n is prime (so false for every n < 2) |
| `PrimeFilter.PrimeIffNoDivisorUpToRoot` | 03_/0303.py:6-9 | for n ≥ 2, trial division up to the square root is equivalent to having no divisor strictly between 1 and n |
| `PrimeFilter.Keep` | 03_/0303.py:14 | the comprehension over `zip(nums, flags)` returns a subsequence of nums no longer than either list, containing every nums[i] whose flag is true |
| `PrimeFilter.KeepPrimeFlags` | 03_/0303.py:12-14 | given the gathered flags (flag i is the primality of nums[i]), the comprehension over zip(nums, flags) keeps exactly the primes, in order |
| `PrimeFilter.FilterPrimes` | 03_/0303.py:11-14 | gathers one primality result per number in input order and returns the primes of nums in order |
| `PrimeFilter.OnlyPrimesKept` | 03_/0303.py:14 | every element of the output is prime |
| `PrimeFilter.EveryPrimeOccurrenceKept` | 03_/0303.py:12-14 | each prime occurs in the output exactly as often as in the input; a non-prime never occurs |
| `PrimeFilter.OrderKept` | 03_/0303.py:14 | the output is a subsequence of the input (order kept) and is no longer than it |
| `PrimeFilter.Example` | 03_/0303.py:11-14 | [1,2,3,4,5,6,7] filters to [2,3,5,7] |
| `SplitMin.Least` | 03_/0304.py:5 | `min` of a non-empty list is an element of it that is ≤ every element |
| `SplitMin.FindMin` | 03_/0304.py:3-5 | raises ValueError iff the list is empty; otherwise returns an element ≤ every element |
| `SplitMin.Halves` | 03_/0304.py:8-12 | the two slices at `len(nums) // 2` concatenate back to nums; the first has len(nums)//2 elements and the second the same or one more |
| `SplitMin.LeastOfParts` | 03_/0304.py:13-14 | the smaller of the minima of two non-empty parts is the minimum of their concatenation |
| `SplitMin.SplitMinimum` | 03_/0304.py:7-14 | ends in ValueError iff len(nums) < 2; otherwise the printed value is the minimum of the whole list |
| `SplitMin.Example` | 03_/0304.py:16-17 | [7,3,9,4,2,8,5,1] gives 1 |
| `Sums.Sum` | 03_/0305.py:10 | Python's `sum`, adding left to right from 0; `SumAppend` proves it additive over concatenation and `SumNonNegative` that it is ≥ 0 on non-negative lists |
| `Squares.Square` | 03_/0305.py:3-5 | the square is non-negative, and zero exactly when n is zero |
| `Squares.SumOfSquares` | 03_/0305.py:7-10 | the sum of the gathered squares is ≥ 0, and 0 for an empty list |
| `Squares.SumOfSquaresAppend` | 03_/0305.py:8-10 | the sum of squares of a concatenation is the sum of the two sums |
| `Squares.SumOfSquaresPermutation` | 03_/0305.py:8-10 | any rearrangement of the input gives the same result, so the join order does not matter for the sum |
| `Squares.Example` | 03_/0305.py:12 | [1,2,3,4,5] gives 55 |
| `TreeSum.ProcessNode` | 03_/0306.py:9-15 | the result is the sum of all node values of the tree (root, left subtree, right subtree) |
| `TreeSum.BaseCases` | 03_/0306.py:10-15 | an absent node gives 0; a leaf gives its own value |
| `TreeSum.MirrorSameTotal` | 03_/0306.py:12-15 | exchanging the two children of every node leaves the total unchanged |
| `TreeSum.Example` | 03_/0306.py:3-18 | the tree 10 with leaves 5 and 20 sums to 35 |

## Left out

- Scheduling by the event loop is not modelled: `asyncio.create_task`, the `asyncio.sleep` delays and the overlap in wall-clock time. Only the order-preserving result of `gather` is kept.
- `TreeSum.ProcessNode`: the value model cannot express that the node's value is added only after both child tasks have finished. It only states which value the sum has.
- `RowMatrix.MultiplyMatricesAsync`: stops at the first row that raises. In Python the remaining row tasks still run and their results are discarded, which gives the same outcome. The `launched` count is instrumentation that the script does not have.
- `PrimeFilter.IsPrime`: the loop bound `int(n ** 0.5)` is a float square root, read here as the integer condition `i * i <= n`. The two agree only while the float square root is exact.
- Tree nodes are dictionaries in 03_/0306.py. A node missing one of its keys would raise `KeyError`; the datatype always has all three fields.
- Matrix and list entries are integers. The scripts would also accept floats, and float arithmetic is not modelled.
- 03_/0301.py is not part of this model: its tasks append to a shared list after sleeping, so the output order depends on the timers.
- 03_/0302.py is not part of this model: it is file reading plus `str.split`.
- 04_/0400_.py, 04_/0400__.py and 04_/0400___.py are not part of this model: they are HTTP handlers and a WebSocket client.
- Reading input with `input()` and all `print` output are not modelled.

## Findings

| source | as written | input that shows it | evidently intended | confidence | as-written member | corrected member |
|---|---|---|---|---|---|---|
| 03_/vs.py:83-98 | the example under the heading "example where multiplication is impossible" multiplies a 2×2 by a 2×3 matrix. Its 2 columns match the 2 rows, so the check at line 43 passes and a 2×3 product is computed and discarded | C = [[1,2],[3,4]], D = [[5,6,7],[8,9,10]] | an operand pair that the check rejects, for example D × C (3 columns against 2 rows) | medium, not executed | `RowMatrix.ImpossibleExampleMultiplies` | `RowMatrix.SwappedExampleRejected` |
