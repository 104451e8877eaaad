/** Searching a list, and the sizes of sets. */
module Collections {

  /** The first place that satisfies a test; the length when none does. */
  function Place<T>(s: seq<T>, test: T -> bool): (i: nat)
    ensures i <= |s|
    ensures i < |s| ==> test(s[i])
    ensures forall k | 0 <= k < i :: !test(s[k])
  {
    if s == [] || test(s[0]) then 0 else 1 + Place(s[1..], test)
  }

  lemma SubsetSize<T>(a: set<T>, b: set<T>)
    requires a <= b
    ensures |a| <= |b|
    ensures |a| == |b| ==> a == b
  {
    assert b == a + (b - a);
    assert |b| == |a| + |b - a|;
  }
}
