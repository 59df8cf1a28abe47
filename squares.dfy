/** Sum of squares over a batch of `square` tasks (03_/0305.py). */
module Squares {
  import opened Sums

  /** `square`: after its simulated delay, the number times itself. */
  function Square(n: int): (r: int)
    ensures r >= 0
    ensures r == 0 <==> n == 0
  {
    n * n
  }

  /** `sum` of the gathered `square` results, which keep the input order. */
  function SumOfSquares(nums: seq<int>): (total: int)
    ensures total >= 0
    ensures |nums| == 0 ==> total == 0
  {
    var results := seq(|nums|, i requires 0 <= i < |nums| => Square(nums[i]));
    SumNonNegative(results);
    Sum(results)
  }

  lemma SumOfSquaresAppend(xs: seq<int>, ys: seq<int>)
    ensures SumOfSquares(xs + ys) == SumOfSquares(xs) + SumOfSquares(ys)
  {
    var zs := xs + ys;
    var sx := seq(|xs|, i requires 0 <= i < |xs| => Square(xs[i]));
    var sy := seq(|ys|, i requires 0 <= i < |ys| => Square(ys[i]));
    assert seq(|zs|, i requires 0 <= i < |zs| => Square(zs[i])) == sx + sy;
    SumAppend(sx, sy);
  }

  /** The order in which gather hands back the results does not matter:
      any rearrangement of the input has the same sum of squares. */
  lemma {:induction false} SumOfSquaresPermutation(xs: seq<int>, ys: seq<int>)
    requires multiset(xs) == multiset(ys)
    ensures SumOfSquares(xs) == SumOfSquares(ys)
    decreases |xs|
  {
    if |xs| == 0 {
      assert |ys| == |multiset(ys)| == 0;
    } else {
      var n := |xs|;
      var x := xs[n - 1];
      assert xs == xs[..n - 1] + [x];
      assert x in multiset(ys);
      var i :| 0 <= i < |ys| && ys[i] == x;
      assert ys == ys[..i] + [x] + ys[i + 1..];
      var rest := ys[..i] + ys[i + 1..];
      assert multiset(xs[..n - 1]) == multiset(rest) by {
        assert multiset(xs) == multiset(xs[..n - 1]) + multiset{x};
        assert multiset(ys) == multiset(ys[..i]) + multiset{x} + multiset(ys[i + 1..]);
        assert multiset(rest) == multiset(ys[..i]) + multiset(ys[i + 1..]);
        assert multiset(xs[..n - 1]) == multiset(xs) - multiset{x};
        assert multiset(rest) == multiset(ys) - multiset{x};
      }
      SumOfSquaresPermutation(xs[..n - 1], rest);
      SumOfSquaresAppend(xs[..n - 1], [x]);
      SumOfSquaresAppend(ys[..i] + [x], ys[i + 1..]);
      SumOfSquaresAppend(ys[..i], [x]);
      SumOfSquaresAppend(ys[..i], ys[i + 1..]);
    }
  }

  /** The list of the script: 1 + 4 + 9 + 16 + 25. */
  lemma Example()
    ensures SumOfSquares([1, 2, 3, 4, 5]) == 55
  {
    var nums := [1, 2, 3, 4, 5];
    var results := [1, 4, 9, 16, 25];
    assert seq(5, i requires 0 <= i < 5 => Square(nums[i])) == results;
    assert [1][..0] == [] && [1, 4][..1] == [1] && [1, 4, 9][..2] == [1, 4];
    assert [1, 4, 9, 16][..3] == [1, 4, 9] && results[..4] == [1, 4, 9, 16];
    assert Sum([1, 4]) == 5;
    assert Sum([1, 4, 9]) == 14;
    assert Sum([1, 4, 9, 16]) == 30;
  }
}
