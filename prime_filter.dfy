/** Primality by trial division and an order-preserving prime filter
    (03_/0303.py). `filter_primes` gathers one `is_prime` task per number
    and keeps, in input order, the numbers whose task returned true. */
module PrimeFilter {

  /** n is a prime number: at least 2 and without a divisor strictly
      between 1 and n. */
  predicate Prime(n: int)
  {
    n >= 2 && forall d :: 2 <= d < n ==> n % d != 0
  }

  /** No trial divisor d with 2 <= d and d * d <= n divides n. */
  ghost predicate NoDivisorUpToRoot(n: int)
  {
    forall d :: 2 <= d && d * d <= n ==> n % d != 0
  }

  lemma MulMonotone(x: int, y: int, z: int)
    requires 0 <= x <= y && z >= 0
    ensures z * x <= z * y
  {
    assert z * (y - x) >= 0;
  }

  /** A trial divisor with d * d <= n lies below n. */
  lemma TrialDivisorBelow(n: int, d: int)
    requires 2 <= d && d * d <= n
    ensures d < n
  {
    MulMonotone(2, d, d);
  }

  /** If e * d == n with e > 0, then e divides n. */
  lemma FactorDivides(n: int, d: int, e: int)
    requires e > 0 && d >= 0 && n == e * d
    ensures n % e == 0
  {
    var q, r := n / e, n % e;
    assert n == e * q + r;
    assert 0 <= r < e;
    assert e * d - e * q == r;
    assert e * (d - q) == r;
    // The quotient is d: any other quotient would leave a remainder of at least e.
    if d - q >= 1 {
      assert false;
    } else if d - q <= -1 {
      assert false;
    }
  }

  /** A divisor d of n with 2 <= d < n has a partner e >= 2 with d * e == n. */
  lemma Cofactor(n: int, d: int) returns (e: int)
    requires 2 <= d < n && n % d == 0
    ensures e >= 2 && n == d * e
  {
    e := n / d;
    assert n == d * e + n % d;
  }

  /** The smaller of a divisor and its partner is a trial divisor whose
      square is at most n. */
  lemma SmallDivisorExists(n: int, d: int)
    requires 2 <= d < n && n % d == 0
    ensures !NoDivisorUpToRoot(n)
  {
    var e := Cofactor(n, d);
    FactorDivides(n, e, d);
    FactorDivides(n, d, e);
    if d <= e {
      MulMonotone(d, e, d);
      assert 2 <= d && d * d <= n && n % d == 0;
    } else {
      MulMonotone(e, d, e);
      assert e * d == n;
      assert 2 <= e && e * e <= n && n % e == 0;
    }
  }

  /** Trial division up to the square root decides primality. */
  lemma PrimeIffNoDivisorUpToRoot(n: int)
    requires n >= 2
    ensures Prime(n) <==> NoDivisorUpToRoot(n)
  {
    if Prime(n) {
      forall d | 2 <= d && d * d <= n
        ensures n % d != 0
      {
        TrialDivisorBelow(n, d);
      }
    } else {
      var d :| 2 <= d < n && n % d == 0;
      SmallDivisorExists(n, d);
    }
  }

  /** `is_prime`: false below 2, then trial division by every i with
      i * i <= n, returning false at the first divisor. */
  method IsPrime(n: int) returns (p: bool)
    ensures p <==> n >= 2 && NoDivisorUpToRoot(n)
    ensures p <==> Prime(n)
  {
    if n < 2 {
      return false;
    }
    var i := 2;
    while i * i <= n
      invariant 2 <= i <= n
      invariant forall d :: 2 <= d < i ==> n % d != 0
      decreases n - i
    {
      if n % i == 0 {
        PrimeIffNoDivisorUpToRoot(n);
        return false;
      }
      TrialDivisorBelow(n, i);
      i := i + 1;
    }
    forall d | 2 <= d && d * d <= n
      ensures n % d != 0
    {
      if d >= i {
        MulMonotone(i, d, i);
        MulMonotone(i, d, d);
      }
    }
    PrimeIffNoDivisorUpToRoot(n);
    return true;
  }

  /** `[n for n, prime in zip(nums, flags) if prime]`; `zip` stops at the
      shorter list. */
  function Keep(nums: seq<int>, flags: seq<bool>): (kept: seq<int>)
    ensures IsSubsequence(kept, nums)
    ensures |kept| <= |nums| && |kept| <= |flags|
    ensures forall i :: 0 <= i < |nums| && i < |flags| && flags[i] ==> nums[i] in kept
  {
    if |nums| == 0 || |flags| == 0 then []
    else
      var rest := Keep(nums[1..], flags[1..]);
      assert forall i :: 1 <= i < |nums| && i < |flags| ==> nums[1..][i - 1] == nums[i] && flags[1..][i - 1] == flags[i];
      if flags[0] then
        assert ([nums[0]] + rest)[1..] == rest;
        [nums[0]] + rest
      else
        SubsequenceOfTail(rest, nums);
        rest
  }

  /** The reference filter: the primes of nums, in order, duplicates kept. */
  function PrimesIn(nums: seq<int>): seq<int>
  {
    if |nums| == 0 then []
    else (if Prime(nums[0]) then [nums[0]] else []) + PrimesIn(nums[1..])
  }

  /** xs is a subsequence of ys: ys with some elements deleted. */
  predicate IsSubsequence(xs: seq<int>, ys: seq<int>)
  {
    if |xs| == 0 then true
    else if |ys| == 0 then false
    else (xs[0] == ys[0] && IsSubsequence(xs[1..], ys[1..])) || IsSubsequence(xs, ys[1..])
  }

  /** With the flags that the gathered `is_prime` tasks return, the
      comprehension keeps exactly the primes. */
  lemma {:induction false} KeepPrimeFlags(nums: seq<int>, flags: seq<bool>)
    requires |flags| == |nums|
    requires forall i :: 0 <= i < |nums| ==> flags[i] == Prime(nums[i])
    ensures Keep(nums, flags) == PrimesIn(nums)
  {
    if |nums| > 0 {
      KeepPrimeFlags(nums[1..], flags[1..]);
    }
  }

  /** `filter_primes`: one `is_prime` task per number, gathered in input
      order, then the comprehension over `zip(nums, results)`. */
  method FilterPrimes(nums: seq<int>) returns (primes: seq<int>)
    ensures primes == PrimesIn(nums)
  {
    var results: seq<bool> := [];
    for i := 0 to |nums|
      invariant |results| == i
      invariant forall i' :: 0 <= i' < i ==> results[i'] == Prime(nums[i'])
    {
      var p := IsPrime(nums[i]);
      results := results + [p];
    }
    primes := Keep(nums, results);
    KeepPrimeFlags(nums, results);
  }

  /** Every number kept is prime. */
  lemma {:induction false} OnlyPrimesKept(nums: seq<int>)
    ensures forall x :: x in PrimesIn(nums) ==> Prime(x)
  {
    if |nums| > 0 {
      OnlyPrimesKept(nums[1..]);
    }
  }

  /** Each prime occurs in the output as often as in the input, and no
      other number occurs at all. */
  lemma {:induction false} EveryPrimeOccurrenceKept(nums: seq<int>, x: int)
    ensures multiset(PrimesIn(nums))[x] == if Prime(x) then multiset(nums)[x] else 0
  {
    if |nums| > 0 {
      EveryPrimeOccurrenceKept(nums[1..], x);
      assert nums == [nums[0]] + nums[1..];
    }
  }

  /** The output keeps the input order: it is the input with the non-primes
      deleted, so it is no longer than the input. */
  lemma {:induction false} OrderKept(nums: seq<int>)
    ensures IsSubsequence(PrimesIn(nums), nums)
    ensures |PrimesIn(nums)| <= |nums|
  {
    if |nums| > 0 {
      OrderKept(nums[1..]);
      var rest := PrimesIn(nums[1..]);
      if Prime(nums[0]) {
        assert PrimesIn(nums) == [nums[0]] + rest;
        assert ([nums[0]] + rest)[1..] == rest;
      } else {
        assert PrimesIn(nums) == rest;
        SubsequenceOfTail(rest, nums);
      }
    }
  }

  /** Deleting one more element at the front keeps a subsequence. */
  lemma {:induction false} SubsequenceOfTail(xs: seq<int>, ys: seq<int>)
    requires |ys| > 0 && IsSubsequence(xs, ys[1..])
    ensures IsSubsequence(xs, ys)
  {
  }

  /** An example input: 1 to 7 filters to 2, 3, 5, 7. */
  lemma Example()
    ensures PrimesIn([1, 2, 3, 4, 5, 6, 7]) == [2, 3, 5, 7]
  {
    assert !Prime(1);
    assert Prime(2);
    assert Prime(3) by {
      forall d | 2 <= d < 3
        ensures 3 % d != 0
      {
        assert d == 2;
      }
    }
    assert !Prime(4) by {
      assert 4 % 2 == 0;
    }
    assert Prime(5) by {
      forall d | 2 <= d < 5
        ensures 5 % d != 0
      {
        assert d == 2 || d == 3 || d == 4;
      }
    }
    assert !Prime(6) by {
      assert 6 % 2 == 0;
    }
    assert Prime(7) by {
      forall d | 2 <= d < 7
        ensures 7 % d != 0
      {
        assert d == 2 || d == 3 || d == 4 || d == 5 || d == 6;
      }
    }
    var nums := [1, 2, 3, 4, 5, 6, 7];
    assert nums[1..] == [2, 3, 4, 5, 6, 7];
    assert nums[1..][1..] == [3, 4, 5, 6, 7];
    assert nums[1..][1..][1..] == [4, 5, 6, 7];
    assert nums[1..][1..][1..][1..] == [5, 6, 7];
    assert nums[1..][1..][1..][1..][1..] == [6, 7];
    assert nums[1..][1..][1..][1..][1..][1..] == [7];
  }
}
