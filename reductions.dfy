/** Minimum, maximum and sum of an integer array: the library one-liners as
    functions, and the accumulator loops the reduction clauses parallelise as
    methods run on one thread, each proved to return what its one-liner returns. */
module Reductions {

  /** The smaller of two values; the first when they tie. */
  function StdMin(a: int, b: int): (m: int)
    ensures m <= a && m <= b && (m == a || m == b)
  {
    if b < a then b else a
  }

  /** The larger of two values; the first when they tie. */
  function StdMax(a: int, b: int): (m: int)
    ensures m >= a && m >= b && (m == a || m == b)
  {
    if a < b then b else a
  }

  /** The position a left-to-right search for the smallest element settles on:
      the first of the smallest elements. */
  function MinElement(a: seq<int>): (k: nat)
    requires |a| > 0
    ensures k < |a|
    ensures forall j :: 0 <= j < |a| ==> a[k] <= a[j]
    ensures forall j :: 0 <= j < k ==> a[k] < a[j]
  {
    if |a| == 1 then 0
    else
      var k := MinElement(a[..|a| - 1]);
      if a[|a| - 1] < a[k] then |a| - 1 else k
  }

  /** The position a left-to-right search for the largest element settles on:
      the first of the largest elements. */
  function MaxElement(a: seq<int>): (k: nat)
    requires |a| > 0
    ensures k < |a|
    ensures forall j :: 0 <= j < |a| ==> a[j] <= a[k]
    ensures forall j :: 0 <= j < k ==> a[j] < a[k]
  {
    if |a| == 1 then 0
    else
      var k := MaxElement(a[..|a| - 1]);
      if a[k] < a[|a| - 1] then |a| - 1 else k
  }

  /** The smallest element: one of the elements, no larger than any of them. */
  function SequentialMin(a: seq<int>): (m: int)
    requires |a| > 0
    ensures m in a
    ensures forall j :: 0 <= j < |a| ==> m <= a[j]
  {
    a[MinElement(a)]
  }

  /** The largest element: one of the elements, no smaller than any of them. */
  function SequentialMax(a: seq<int>): (m: int)
    requires |a| > 0
    ensures m in a
    ensures forall j :: 0 <= j < |a| ==> a[j] <= m
  {
    a[MaxElement(a)]
  }

  /** The elements added up from the left, starting from zero. */
  function SequentialSum(a: seq<int>): (r: int)
    ensures (forall j :: 0 <= j < |a| ==> a[j] >= 0) ==> r >= 0
  {
    if a == [] then 0 else SequentialSum(a[..|a| - 1]) + a[|a| - 1]
  }

  /** The sum of two pieces adds up to the sum of the whole, so partial sums over
      any split of the array combine to the same total. */
  lemma {:induction false} SumConcat(a: seq<int>, b: seq<int>)
    ensures SequentialSum(a + b) == SequentialSum(a) + SequentialSum(b)
    decreases |b|
  {
    if b == [] {
      assert a + b == a;
    } else {
      assert (a + b)[..|a + b| - 1] == a + b[..|b| - 1];
      SumConcat(a, b[..|b| - 1]);
    }
  }

  /** The minimum of two pieces is the smaller of their minima. */
  lemma MinConcat(a: seq<int>, b: seq<int>)
    requires |a| > 0 && |b| > 0
    ensures SequentialMin(a + b) == StdMin(SequentialMin(a), SequentialMin(b))
  {
    var m := SequentialMin(a + b);
    forall j | 0 <= j < |a| ensures m <= a[j] {
      assert a[j] == (a + b)[j];
    }
    forall j | 0 <= j < |b| ensures m <= b[j] {
      assert b[j] == (a + b)[|a| + j];
    }
  }

  /** The maximum of two pieces is the larger of their maxima. */
  lemma MaxConcat(a: seq<int>, b: seq<int>)
    requires |a| > 0 && |b| > 0
    ensures SequentialMax(a + b) == StdMax(SequentialMax(a), SequentialMax(b))
  {
    var m := SequentialMax(a + b);
    forall j | 0 <= j < |a| ensures a[j] <= m {
      assert a[j] == (a + b)[j];
    }
    forall j | 0 <= j < |b| ensures b[j] <= m {
      assert b[j] == (a + b)[|a| + j];
    }
  }

  lemma MulSucc(k: int, x: int)
    ensures (k + 1) * x == k * x + x
  {
  }

  /** A sum of `n` values each within `[lo, hi]` lies within `[n * lo, n * hi]`. */
  lemma {:induction false} SumBounds(a: seq<int>, lo: int, hi: int)
    requires forall j :: 0 <= j < |a| ==> lo <= a[j] <= hi
    ensures |a| * lo <= SequentialSum(a) <= |a| * hi
  {
    if a != [] {
      var p := a[..|a| - 1];
      SumBounds(p, lo, hi);
      MulSucc(|p|, lo);
      MulSucc(|p|, hi);
    }
  }

  /** With the demonstration's data, 100000 values each in `[0, 999]`, every partial
      sum the accumulator holds is non-negative and below 2^31, so a 32-bit signed
      accumulator never overflows. */
  lemma DemoSumFits(a: seq<int>)
    requires |a| == 100000
    requires forall j :: 0 <= j < |a| ==> 0 <= a[j] < 1000
    ensures forall i :: 0 <= i <= |a| ==> 0 <= SequentialSum(a[..i]) < 0x8000_0000
  {
    forall i | 0 <= i <= |a| ensures 0 <= SequentialSum(a[..i]) < 0x8000_0000 {
      SumBounds(a[..i], 0, 999);
    }
  }

  /** The minimum by an accumulator that starts at the first element and takes the
      smaller of itself and each element in turn. */
  method ParallelMin(arr: seq<int>) returns (result: int)
    requires |arr| > 0
    ensures result == SequentialMin(arr)
  {
    result := arr[0];
    for i := 0 to |arr|
      invariant result == SequentialMin(arr[..if i == 0 then 1 else i])
    {
      if i > 0 {
        assert arr[..i + 1][..i] == arr[..i];
      }
      result := StdMin(result, arr[i]);
    }
    assert arr[..|arr|] == arr;
  }

  /** The maximum by an accumulator that starts at the first element and takes the
      larger of itself and each element in turn. */
  method ParallelMax(arr: seq<int>) returns (result: int)
    requires |arr| > 0
    ensures result == SequentialMax(arr)
  {
    result := arr[0];
    for i := 0 to |arr|
      invariant result == SequentialMax(arr[..if i == 0 then 1 else i])
    {
      if i > 0 {
        assert arr[..i + 1][..i] == arr[..i];
      }
      result := StdMax(result, arr[i]);
    }
    assert arr[..|arr|] == arr;
  }

  /** The sum by an accumulator that starts at zero and adds each element in turn. */
  method ParallelSum(arr: seq<int>) returns (result: int)
    ensures result == SequentialSum(arr)
  {
    result := 0;
    for i := 0 to |arr|
      invariant result == SequentialSum(arr[..i])
    {
      assert arr[..i + 1][..i] == arr[..i];
      result := result + arr[i];
    }
    assert arr[..|arr|] == arr;
  }
}
