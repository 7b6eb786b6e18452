/** The greedy argmax of the Java `Utility` class. */
module Utility {

  /** `r` is the first index of `v` that holds a maximal value. */
  predicate IsFirstMax(v: seq<real>, r: int)
  {
    && 0 <= r < |v|
    && (forall k :: 0 <= k < |v| ==> v[k] <= v[r])
    && (forall k :: 0 <= k < r ==> v[k] < v[r])
  }

  /** The left-to-right scan of `getMaxIndex` as a fold over ever longer prefixes:
      the candidate moves only on a strictly greater value. */
  function MaxIndex(v: seq<real>): (r: nat)
    ensures |v| == 0 ==> r == 0
    ensures |v| > 0 ==> IsFirstMax(v, r)
    decreases |v|
  {
    if |v| <= 1 then 0
    else
      var m := MaxIndex(v[..|v| - 1]);
      assert forall k :: 0 <= k < |v| - 1 ==> v[..|v| - 1][k] == v[k];
      if v[|v| - 1] > v[m] then |v| - 1 else m
  }

  /** `Utility.getMaxIndex(values)`: the loop itself. On an empty array the loop body
      never runs and the answer is 0. */
  method GetMaxIndex(values: seq<real>) returns (maxIndex: nat)
    ensures |values| == 0 ==> maxIndex == 0
    ensures |values| > 0 ==> IsFirstMax(values, maxIndex)
    ensures maxIndex == MaxIndex(values)
  {
    maxIndex := 0;
    var i := 0;
    while i < |values|
      invariant 0 <= i <= |values|
      invariant maxIndex == 0 || maxIndex < i
      invariant i > 0 ==> maxIndex == MaxIndex(values[..i])
      invariant 0 < i ==> IsFirstMax(values[..i], maxIndex)
    {
      if values[i] > values[maxIndex] {
        maxIndex := i;
      }
      assert values[..i + 1][..i] == values[..i];
      i := i + 1;
    }
    assert values[..|values|] == values;
  }

  /** The first-maximum property pins down a single index. */
  lemma FirstMaxIsUnique(v: seq<real>, r: int, s: int)
    requires IsFirstMax(v, r) && IsFirstMax(v, s)
    ensures r == s
  {
    assert v[r] <= v[s] && v[s] <= v[r];
  }

  /** When every value is equal the scan never moves: the answer is index 0. */
  lemma AllEqualGivesZero(v: seq<real>)
    requires forall k :: 0 <= k < |v| ==> v[k] == v[0]
    ensures MaxIndex(v) == 0
  {
  }
}
