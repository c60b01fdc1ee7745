/** The "return the first element that passes a test" loop the extractor
    uses twice, once over call signatures and once over construct signatures. */
module Seqs {
  import opened Wrappers

  /** `i` is the position of the first element of `s` that passes `p`. */
  ghost predicate IsFirst<T>(s: seq<T>, p: T -> bool, i: int)
  {
    0 <= i < |s| && p(s[i]) && forall j :: 0 <= j < i ==> !p(s[j])
  }

  /** The index a `for (const x of s) if (p(x)) return x;` loop stops at, if any. */
  function FirstWhere<T>(s: seq<T>, p: T -> bool): (r: Option<nat>)
    ensures r.Some? ==> IsFirst(s, p, r.value)
    ensures r.None? <==> forall j :: 0 <= j < |s| ==> !p(s[j])
  {
    if |s| == 0 then None
    else if p(s[0]) then Some(0)
    else
      match FirstWhere(s[1..], p)
      case Some(k) => Some(k + 1)
      case None => None
  }
}
