/** Shared vocabulary: an optional value and "the first match in store order". */
module Common {

  datatype Option<+T> = None | Some(value: T)

  /** `i` is the position of the first element of `s` that satisfies `p`. */
  ghost predicate IsFirst<T>(s: seq<T>, p: T -> bool, i: nat)
  {
    i < |s| && p(s[i]) && forall j :: 0 <= j < i ==> !p(s[j])
  }

  /** No element of `s` satisfies `p`. */
  ghost predicate NoneMatch<T>(s: seq<T>, p: T -> bool)
  {
    forall j :: 0 <= j < |s| ==> !p(s[j])
  }

  /** At most one position is the first match. */
  lemma FirstIsUnique<T>(s: seq<T>, p: T -> bool)
    ensures forall i: nat, j: nat :: IsFirst(s, p, i) && IsFirst(s, p, j) ==> i == j
  {
  }

  /** The index of the first element of `s` satisfying `p`: what a database query's
      `.first()` returns, the store's own order being the order of `s`. */
  function First<T>(s: seq<T>, p: T -> bool): (r: Option<nat>)
    ensures r.Some? ==> IsFirst(s, p, r.value)
    ensures r.None? <==> NoneMatch(s, p)
    decreases |s|
  {
    if |s| == 0 then None
    else if p(s[0]) then Some(0)
    else match First(s[1..], p)
      case None => None
      case Some(k) => Some(k + 1)
  }
}
