/** slice.go: equality of byte slices and membership tests on string slices. */
module Slice {

  import opened GoInt

  /** The same length and the same element at every index. */
  predicate ElementwiseEqual(a: seq<byte>, b: seq<byte>) {
    |a| == |b| && forall i :: 0 <= i < |a| ==> a[i] == b[i]
  }

  /** Element-wise equality is exactly sequence equality, hence reflexive and symmetric. */
  lemma ElementwiseEqualIsEquality(a: seq<byte>, b: seq<byte>)
    ensures ElementwiseEqual(a, b) <==> a == b
    ensures ElementwiseEqual(a, a)
    ensures ElementwiseEqual(a, b) == ElementwiseEqual(b, a)
  {
    if ElementwiseEqual(a, b) {
      assert a == b;
    }
  }

  /**
   * IsSliceEqual: the lengths first, then the elements left to right, stopping
   * at the first difference. `probes` counts the element comparisons made.
   */
  method IsSliceEqual(a: seq<byte>, b: seq<byte>) returns (equal: bool, ghost probes: nat)
    ensures equal == ElementwiseEqual(a, b)
    ensures |a| != |b| ==> probes == 0
    ensures probes <= |a|
    ensures !equal && |a| == |b| ==>
              && probes > 0 && a[probes - 1] != b[probes - 1]
              && forall j :: 0 <= j < probes - 1 ==> a[j] == b[j]
  {
    probes := 0;
    if |a| != |b| {
      return false, probes;
    }
    var i := 0;
    while i < |a|
      invariant 0 <= i <= |a| && probes == i
      invariant forall j :: 0 <= j < i ==> a[j] == b[j]
    {
      probes := probes + 1;
      if a[i] != b[i] {
        return false, probes;
      }
      i := i + 1;
    }
    return true, probes;
  }

  /** ContainString: a scan of `m` that stops at the first element equal to `s`. */
  method ContainString(m: seq<string>, s: string) returns (found: bool)
    ensures found <==> s in m
    ensures m == [] ==> !found
  {
    for i := 0 to |m|
      invariant s !in m[..i]
    {
      if s == m[i] {
        return true;
      }
    }
    return false;
  }

  /** EqualToLast: whether `s` is the last element of `m`; false for an empty `m`. */
  function EqualToLast(m: seq<string>, s: string): (r: bool)
    ensures r <==> |m| > 0 && s == m[|m| - 1]
    ensures m == [] ==> !r
    ensures r ==> s in m
  {
    if |m| == 0 then false else s == m[|m| - 1]
  }
}
