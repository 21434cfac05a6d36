/**
 * JavaScript's `Array.prototype.find`, as the position of the element it
 * returns: the first element satisfying the predicate, or nothing.
 */
module Search {
  import opened Wrappers

  function FindFirst<T>(s: seq<T>, p: T -> bool): (r: Option<nat>)
    ensures r.Some? ==> r.value < |s| && p(s[r.value])
    decreases |s|
  {
    if s == [] then None
    else if p(s[0]) then Some(0)
    else
      match FindFirst(s[1..], p)
      case Some(i) => Some(i + 1)
      case None => None
  }

  /** `find` stops at the first match, and finds nothing only when no element matches. */
  lemma {:induction false} FindFirstIsFirst<T>(s: seq<T>, p: T -> bool)
    ensures FindFirst(s, p).Some? ==> forall k :: 0 <= k < FindFirst(s, p).value ==> !p(s[k])
    ensures FindFirst(s, p).None? <==> forall k :: 0 <= k < |s| ==> !p(s[k])
    decreases |s|
  {
    if s != [] && !p(s[0]) {
      FindFirstIsFirst(s[1..], p);
      assert forall k :: 1 <= k < |s| ==> s[k] == s[1..][k - 1];
    }
  }
}
