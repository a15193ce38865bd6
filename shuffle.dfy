/**
 * `shuffleArray` of scripts/quiz.js: the Durstenfeld form of the
 * Fisher-Yates shuffle, run on a copy of its argument.
 *
 * `Math.random` is replaced by an injected draw sequence: `draws[i]` is the
 * partner index `j` that step `i` swaps with, and a valid draw sequence has
 * `0 <= draws[i] <= i`, which is what `Math.floor(Math.random() * (i + 1))`
 * yields. With the draws fixed, the shuffle is a function of its input.
 */
module Shuffle {
  import opened Sequences

  /** The draws for shuffling `n` elements: one per position, each at most its position. */
  predicate ValidDraws(draws: seq<nat>, n: nat)
  {
    |draws| == n && forall i :: 0 <= i < n ==> draws[i] <= i
  }

  /** One step of the shuffle: exchange positions `i` and `j`, nothing else changes. */
  function Swap<T>(s: seq<T>, i: nat, j: nat): (r: seq<T>)
    requires i < |s| && j < |s|
    ensures |r| == |s| && r[i] == s[j] && r[j] == s[i]
    ensures forall k :: 0 <= k < |s| && k != i && k != j ==> r[k] == s[k]
  {
    s[i := s[j]][j := s[i]]
  }

  lemma SwapPermutes<T>(s: seq<T>, i: nat, j: nat)
    requires i < |s| && j < |s|
    ensures multiset(Swap(s, i, j)) == multiset(s)
  {
  }

  /**
   * The steps `i, i - 1, ..., 1` of the shuffle, applied to `s`. Each step
   * swaps within the positions up to its own, so the positions above `i`
   * are left as they were.
   */
  function ShuffleSteps<T>(s: seq<T>, draws: seq<nat>, i: nat): (r: seq<T>)
    requires i < |s| && ValidDraws(draws, |s|)
    ensures |r| == |s| && forall k :: i < k < |s| ==> r[k] == s[k]
    decreases i
  {
    if i == 0 then s else ShuffleSteps(Swap(s, i, draws[i]), draws, i - 1)
  }

  /** The whole shuffle: steps from the last index down to 1. A list of at most one element is left as it is. */
  function Shuffled<T>(s: seq<T>, draws: seq<nat>): (r: seq<T>)
    requires ValidDraws(draws, |s|)
    ensures |r| == |s| && (|s| <= 1 ==> r == s)
  {
    if |s| == 0 then s else ShuffleSteps(s, draws, |s| - 1)
  }

  lemma {:induction false} ShuffleStepsPermutes<T>(s: seq<T>, draws: seq<nat>, i: nat)
    requires i < |s| && ValidDraws(draws, |s|)
    ensures |ShuffleSteps(s, draws, i)| == |s|
    ensures multiset(ShuffleSteps(s, draws, i)) == multiset(s)
    decreases i
  {
    if i > 0 {
      SwapPermutes(s, i, draws[i]);
      ShuffleStepsPermutes(Swap(s, i, draws[i]), draws, i - 1);
    }
  }

  /** The shuffle returns a permutation of its input: same length, same multiset. */
  lemma ShuffledIsPermutation<T>(s: seq<T>, draws: seq<nat>)
    requires ValidDraws(draws, |s|)
    ensures |Shuffled(s, draws)| == |s|
    ensures multiset(Shuffled(s, draws)) == multiset(s)
  {
    if |s| > 0 {
      ShuffleStepsPermutes(s, draws, |s| - 1);
    }
  }

  /** The shuffle neither adds nor drops elements. */
  lemma ShuffledKeepsElements<T>(s: seq<T>, draws: seq<nat>)
    requires ValidDraws(draws, |s|)
    ensures forall x :: x in Shuffled(s, draws) <==> x in s
  {
    ShuffledIsPermutation(s, draws);
    forall x ensures x in Shuffled(s, draws) <==> x in s {
      assert x in Shuffled(s, draws) <==> x in multiset(Shuffled(s, draws));
      assert x in s <==> x in multiset(s);
    }
  }

  lemma SwapKeepsDistinct<T>(s: seq<T>, i: nat, j: nat)
    requires i < |s| && j < |s| && Distinct(s)
    ensures Distinct(Swap(s, i, j))
  {
    var r := Swap(s, i, j);
    forall p, q | 0 <= p < q < |r|
      ensures r[p] != r[q]
    {
      var p' := if p == i then j else if p == j then i else p;
      var q' := if q == i then j else if q == j then i else q;
      assert r[p] == s[p'] && r[q] == s[q'] && p' != q';
    }
  }

  lemma {:induction false} ShuffleStepsKeepDistinct<T>(s: seq<T>, draws: seq<nat>, i: nat)
    requires i < |s| && ValidDraws(draws, |s|) && Distinct(s)
    ensures Distinct(ShuffleSteps(s, draws, i))
    decreases i
  {
    if i > 0 {
      SwapKeepsDistinct(s, i, draws[i]);
      ShuffleStepsKeepDistinct(Swap(s, i, draws[i]), draws, i - 1);
    }
  }

  /** Shuffling a sequence without duplicates gives one without duplicates. */
  lemma ShuffledKeepsDistinct<T>(s: seq<T>, draws: seq<nat>)
    requires ValidDraws(draws, |s|) && Distinct(s)
    ensures Distinct(Shuffled(s, draws))
  {
    if |s| > 0 {
      ShuffleStepsKeepDistinct(s, draws, |s| - 1);
    }
  }

  lemma SwapCommutesWithMap<A, B>(f: A -> B, s: seq<A>, i: nat, j: nat)
    requires i < |s| && j < |s|
    ensures MapSeq(f, Swap(s, i, j)) == Swap(MapSeq(f, s), i, j)
  {
    var l, r := MapSeq(f, Swap(s, i, j)), Swap(MapSeq(f, s), i, j);
    assert |l| == |r|;
    forall k | 0 <= k < |l|
      ensures l[k] == r[k]
    {
    }
  }

  lemma {:induction false} ShuffleStepsCommutesWithMap<A, B>(f: A -> B, s: seq<A>, draws: seq<nat>, i: nat)
    requires i < |s| && ValidDraws(draws, |s|)
    ensures MapSeq(f, ShuffleSteps(s, draws, i)) == ShuffleSteps(MapSeq(f, s), draws, i)
    decreases i
  {
    if i > 0 {
      var j := draws[i];
      var t := Swap(s, i, j);
      ShuffleStepsCommutesWithMap(f, t, draws, i - 1);
      SwapCommutesWithMap(f, s, i, j);
      assert ShuffleSteps(s, draws, i) == ShuffleSteps(t, draws, i - 1);
      assert ShuffleSteps(MapSeq(f, s), draws, i) == ShuffleSteps(Swap(MapSeq(f, s), i, j), draws, i - 1);
    }
  }

  /**
   * The shuffle moves positions, never looks at values: shuffling the
   * images of `s` under `f` with the same draws is the image of the
   * shuffled `s`.
   */
  lemma ShuffledCommutesWithMap<A, B>(f: A -> B, s: seq<A>, draws: seq<nat>)
    requires ValidDraws(draws, |s|)
    ensures MapSeq(f, Shuffled(s, draws)) == Shuffled(MapSeq(f, s), draws)
  {
    if |s| > 0 {
      ShuffleStepsCommutesWithMap(f, s, draws, |s| - 1);
    }
  }

  /**
   * `shuffleArray`: copy the argument into a fresh array and, for `i` from
   * the last index down to 1, swap position `i` with position `draws[i]`.
   */
  method ShuffleArray<T>(input: seq<T>, draws: seq<nat>) returns (shuffled: seq<T>)
    requires ValidDraws(draws, |input|)
    ensures shuffled == Shuffled(input, draws)
    ensures |shuffled| == |input| && multiset(shuffled) == multiset(input)
  {
    var a := new T[|input|](k requires 0 <= k < |input| => input[k]);
    ghost var current := input;
    assert a[..] == current;
    var i := a.Length - 1;
    while i > 0
      invariant -1 <= i < a.Length == |current| == |input|
      invariant a[..] == current
      invariant 0 <= i ==> ShuffleSteps(current, draws, i) == Shuffled(input, draws)
      invariant i < 0 ==> current == input == []
    {
      var j := draws[i];
      var t := a[i];
      a[i] := a[j];
      a[j] := t;
      current := Swap(current, i, j);
      i := i - 1;
    }
    shuffled := a[..];
    ShuffledIsPermutation(input, draws);
  }
}
