/** In-place Fisher–Yates shuffle.  The random partner of position `i` is an
    oracle: `picks[i]` stands for `Math.floor(Math.random() * (i + 1))`. */
module Shuffle {

  /** The picks the random source can produce for an array of length `n`:
      one per position, the partner of position `i` lying in [0, i]. */
  predicate ValidPicks(picks: seq<nat>, n: nat) {
    |picks| == n && forall i :: 0 <= i < n ==> picks[i] <= i
  }

  /** Exchange the elements at positions `i` and `j`. */
  function Swap<T>(s: seq<T>, i: nat, j: nat): (r: seq<T>)
    requires i < |s| && j < |s|
    ensures |r| == |s|
  {
    s[i := s[j]][j := s[i]]
  }

  /** A swap exchanges two elements, leaves the others and keeps the multiset. */
  lemma SwapExchanges<T>(s: seq<T>, i: nat, j: nat)
    requires i < |s| && j < |s|
    ensures Swap(s, i, j)[i] == s[j] && Swap(s, i, j)[j] == s[i]
    ensures forall k :: 0 <= k < |s| && k != i && k != j ==> Swap(s, i, j)[k] == s[k]
    ensures multiset(Swap(s, i, j)) == multiset(s)
  {
  }

  /** The sequence after the loop body has run for `i`, `i - 1`, ..., 1. */
  function ShuffleFrom<T>(s: seq<T>, picks: seq<nat>, i: int): (r: seq<T>)
    requires i < |s| && ValidPicks(picks, |s|)
    ensures |r| == |s|
    decreases i
  {
    if i <= 0 then s else ShuffleFrom(Swap(s, i, picks[i]), picks, i - 1)
  }

  /** The whole shuffle: the loop starts at the last position. */
  function Shuffled<T>(s: seq<T>, picks: seq<nat>): (r: seq<T>)
    requires ValidPicks(picks, |s|)
    ensures |r| == |s|
  {
    ShuffleFrom(s, picks, |s| - 1)
  }

  /** Only swaps happen, so the result is a permutation of the input. */
  lemma {:induction false} ShuffleFromPermutes<T>(s: seq<T>, picks: seq<nat>, i: int)
    requires i < |s| && ValidPicks(picks, |s|)
    ensures |ShuffleFrom(s, picks, i)| == |s|
    ensures multiset(ShuffleFrom(s, picks, i)) == multiset(s)
    decreases i
  {
    if i > 0 {
      var t := Swap(s, i, picks[i]);
      SwapExchanges(s, i, picks[i]);
      ShuffleFromPermutes(t, picks, i - 1);
      assert ShuffleFrom(s, picks, i) == ShuffleFrom(t, picks, i - 1);
    }
  }

  /** Positions above `i` are never written by the remaining iterations. */
  lemma {:induction false} ShuffleFromKeepsAbove<T>(s: seq<T>, picks: seq<nat>, i: int)
    requires i < |s| && ValidPicks(picks, |s|)
    ensures |ShuffleFrom(s, picks, i)| == |s|
    ensures forall k :: 0 <= k < |s| && k > i ==> ShuffleFrom(s, picks, i)[k] == s[k]
    decreases i
  {
    if i > 0 {
      var t := Swap(s, i, picks[i]);
      SwapExchanges(s, i, picks[i]);
      ShuffleFromKeepsAbove(t, picks, i - 1);
      var r := ShuffleFrom(t, picks, i - 1);
      assert ShuffleFrom(s, picks, i) == r;
      forall k | 0 <= k < |s| && k > i
        ensures r[k] == s[k]
      {
        assert r[k] == t[k];
      }
    }
  }

  lemma ShuffledPermutes<T>(s: seq<T>, picks: seq<nat>)
    requires ValidPicks(picks, |s|)
    ensures |Shuffled(s, picks)| == |s|
    ensures multiset(Shuffled(s, picks)) == multiset(s)
  {
    ShuffleFromPermutes(s, picks, |s| - 1);
  }

  /** Arrays of length 0 or 1 never enter the loop. */
  lemma ShortIsUnchanged<T>(s: seq<T>, picks: seq<nat>)
    requires ValidPicks(picks, |s|) && |s| <= 1
    ensures Shuffled(s, picks) == s
  {
  }

  /** `shuffleArray`: the loop from the last position down to 1, swapping each
      position with its partner. */
  method ShuffleArray<T>(a: array<T>, picks: seq<nat>)
    requires ValidPicks(picks, a.Length)
    modifies a
    ensures a[..] == Shuffled(old(a[..]), picks)
    ensures multiset(a[..]) == multiset(old(a[..]))
  {
    ghost var result := Shuffled(a[..], picks);
    ShuffledPermutes(a[..], picks);
    var i := a.Length - 1;
    while i > 0
      invariant -1 <= i < a.Length
      invariant ShuffleFrom(a[..], picks, i) == result
      invariant forall k :: 0 <= k < a.Length && k > i ==> a[k] == result[k]
      invariant multiset(a[..]) == multiset(old(a[..]))
    {
      var j := picks[i];
      ghost var before := a[..];
      ghost var after := Swap(before, i, j);
      assert ShuffleFrom(before, picks, i) == ShuffleFrom(after, picks, i - 1);
      SwapExchanges(before, i, j);
      a[i], a[j] := a[j], a[i];
      assert a[..] == after;
      i := i - 1;
      ShuffleFromKeepsAbove(after, picks, i);
    }
  }
}
