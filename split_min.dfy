/** Minimum of a list computed over its two halves (03_/0304.py). `main`
    splits the list at `len(nums) // 2`, gathers `find_min` of both halves
    and prints the smaller of the two results. */
module SplitMin {
  import opened Outcomes

  /** `min` of a non-empty list: scans left to right, keeping the current
      element only when it is strictly smaller. */
  function Least(xs: seq<int>): (m: int)
    requires |xs| > 0
    ensures m in xs
    ensures forall x :: x in xs ==> m <= x
  {
    if |xs| == 1 then xs[0]
    else
      var m := Least(xs[..|xs| - 1]);
      assert xs == xs[..|xs| - 1] + [xs[|xs| - 1]];
      if xs[|xs| - 1] < m then xs[|xs| - 1] else m
  }

  /** `find_min`: `min(nums)`, which raises ValueError on an empty list. */
  function FindMin(nums: seq<int>): (r: Result<int>)
    ensures r.Raised? <==> |nums| == 0
    ensures r.Raised? ==> r.error == ValueError
    ensures r.Ok? ==> r.value in nums && forall x :: x in nums ==> r.value <= x
  {
    if |nums| == 0 then Raised(ValueError) else Ok(Least(nums))
  }

  /** The two work items of `main`. */
  function Halves(nums: seq<int>): (h: (seq<int>, seq<int>))
    ensures h.0 + h.1 == nums
    ensures |h.0| == |nums| / 2 && |h.0| <= |h.1| <= |h.0| + 1
  {
    var middle := |nums| / 2;
    (nums[..middle], nums[middle..])
  }

  /** The smaller of the minima of two non-empty lists is the minimum of
      their concatenation. */
  lemma LeastOfParts(xs: seq<int>, ys: seq<int>)
    requires |xs| > 0 && |ys| > 0
    ensures Least([Least(xs), Least(ys)]) == Least(xs + ys)
  {
    var m := Least(xs + ys);
    assert m in xs || m in ys;
    assert Least(xs) in xs + ys && Least(ys) in xs + ys;
  }

  /** The value `main` prints: gather re-raises the first task's exception,
      otherwise `min` of the two partial minima. */
  function SplitMinimum(nums: seq<int>): (r: Result<int>)
    ensures r.Raised? <==> |nums| < 2
    ensures r.Raised? ==> r.error == ValueError
    ensures r.Ok? ==> r == FindMin(nums)
  {
    var halves := Halves(nums);
    var low := FindMin(halves.0);
    var high := FindMin(halves.1);
    if low.Raised? then low
    else if high.Raised? then high
    else
      LeastOfParts(halves.0, halves.1);
      FindMin([low.value, high.value])
  }

  /** The list of the script. */
  lemma Example()
    ensures SplitMinimum([7, 3, 9, 4, 2, 8, 5, 1]) == Ok(1)
  {
    var nums := [7, 3, 9, 4, 2, 8, 5, 1];
    assert 1 in nums;
  }
}
