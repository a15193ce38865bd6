/**
 * The few array built-ins the scripts rely on (`indexOf`, `includes`, `map`),
 * stated over Dafny sequences.
 */
module Sequences {

  /** No element occurs twice. */
  ghost predicate Distinct<T>(s: seq<T>)
  {
    forall i, j :: 0 <= i < j < |s| ==> s[i] != s[j]
  }

  /**
   * `Array.prototype.indexOf`: the first position holding `x`, or -1 when
   * `x` does not occur.
   */
  function IndexOf<T(==)>(s: seq<T>, x: T): (r: int)
    ensures -1 <= r < |s|
    ensures r == -1 <==> x !in s
    ensures 0 <= r ==> s[r] == x && forall k :: 0 <= k < r ==> s[k] != x
  {
    if s == [] then -1
    else if s[0] == x then 0
    else
      var r := IndexOf(s[1..], x);
      if r == -1 then -1 else r + 1
  }

  /** In a sequence without duplicates, `indexOf` finds every element at its own position. */
  lemma IndexOfDistinct<T>(s: seq<T>, i: int)
    requires Distinct(s) && 0 <= i < |s|
    ensures IndexOf(s, s[i]) == i
  {
  }

  /** `Array.prototype.map`. */
  function MapSeq<A, B>(f: A -> B, s: seq<A>): (r: seq<B>)
  {
    seq(|s|, k requires 0 <= k < |s| => f(s[k]))
  }

  /** One step forward on a cycle of length `n`, as a remainder. */
  lemma ModSucc(i: int, n: int)
    requires 0 <= i < n
    ensures (i + 1) % n == if i < n - 1 then i + 1 else 0
  {
  }

  /** One step back on a cycle of length `n`, as a remainder. */
  lemma ModPred(i: int, n: int)
    requires 0 <= i < n
    ensures (i - 1) % n == if i > 0 then i - 1 else n - 1
  {
  }
}
