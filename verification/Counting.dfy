/** Sizes of sets and sums of sequences. */
module Counting {

  lemma SubsetSize<T>(a: set<T>, b: set<T>)
    requires a <= b
    ensures |a| <= |b| && (|a| == |b| ==> a == b)
  {
    assert |b - a| + |a| == |b| by {
      assert (b - a) + a == b;
    }
  }

  /** The sum of the first k numbers. */
  function Sum(s: seq<nat>, k: nat): (t: nat)
    requires k <= |s|
  {
    if k == 0 then 0 else Sum(s, k - 1) + s[k - 1]
  }

  lemma {:induction false} SumUpdate(s: seq<nat>, k: nat, i: nat, x: nat)
    requires i < |s| && k <= |s|
    ensures Sum(s[i := x], k) == Sum(s, k) + if i < k then x - s[i] else 0
  {
    if k > 0 {
      SumUpdate(s, k - 1, i, x);
    }
  }
}
