/** Finding the first element that satisfies a predicate, as `first(callback)` and `->first()` do. */
module Collections {
  import opened Wrappers

  /** The index of the first element of `s` satisfying `p`, or None if there is none. */
  function FirstIndex<T>(s: seq<T>, p: T -> bool): (r: Option<nat>)
    ensures r.Some? ==> r.value < |s| && p(s[r.value])
    ensures r.Some? ==> forall j :: 0 <= j < r.value ==> !p(s[j])
    ensures r.None? <==> forall j :: 0 <= j < |s| ==> !p(s[j])
  {
    if |s| == 0 then None
    else if p(s[0]) then Some(0)
    else match FirstIndex(s[1..], p)
      case None => None
      case Some(k) => Some(k + 1)
  }

  /** What follows the first match cannot change which element is found. */
  lemma {:induction false} FirstIndexIgnoresSuffix<T>(s: seq<T>, rest: seq<T>, p: T -> bool)
    requires FirstIndex(s, p).Some?
    ensures FirstIndex(s + rest, p) == FirstIndex(s, p)
  {
    if !p(s[0]) {
      assert (s + rest)[1..] == s[1..] + rest;
      FirstIndexIgnoresSuffix(s[1..], rest, p);
    }
  }
}
