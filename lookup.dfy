/**
 * The document store's single-record queries (`findOne`, `findById`) over an
 * in-memory collection: the first record in store order that satisfies the
 * query. The database itself does not promise which match it returns first
 * when several records match.
 */
module Lookup {
  import opened Wrappers

  function FindFirst<T>(s: seq<T>, p: T -> bool): (r: Option<nat>)
    ensures r.Some? ==> r.value < |s| && p(s[r.value])
    ensures r.Some? ==> forall i :: 0 <= i < r.value ==> !p(s[i])
    ensures r.None? <==> forall i :: 0 <= i < |s| ==> !p(s[i])
  {
    if |s| == 0 then None
    else if p(s[0]) then Some(0)
    else match FindFirst(s[1..], p)
      case None => None
      case Some(k) => Some(k + 1)
  }
}
