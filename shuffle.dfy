/** The shuffle order behind TrackManager.generateShuffleOrder: the identity
    order [0, n) and the in-place Fisher-Yates swap loop that permutes it.
    Math.random is not modelled: the draw taken at loop index i is an input
    `draws[i]` with 0 <= draws[i] <= i, the range Math.floor(Math.random() * (i + 1))
    can produce. */
module Shuffle {

  /** The array `[...Array(n).keys()]`: 0, 1, ..., n - 1. */
  function Range(n: nat): (r: seq<int>)
    ensures |r| == n
    ensures forall k :: 0 <= k < n ==> r[k] == k
  {
    if n == 0 then [] else Range(n - 1) + [n - 1]
  }

  /** Exchanges positions i and j: the destructuring assignment
      `[a[i], a[j]] = [a[j], a[i]]`. */
  function Swap(s: seq<int>, i: nat, j: nat): (r: seq<int>)
    requires i < |s| && j < |s|
    ensures |r| == |s| && r[i] == s[j] && r[j] == s[i]
    ensures forall k :: 0 <= k < |s| && k != i && k != j ==> r[k] == s[k]
  {
    s[i := s[j]][j := s[i]]
  }

  lemma SwapPreservesElements(s: seq<int>, i: nat, j: nat)
    requires i < |s| && j < |s|
    ensures multiset(Swap(s, i, j)) == multiset(s)
  {
  }

  /** The random draws the loop consumes: one per index i in (0, n),
      each within [0, i]. draws[0] is never read. */
  predicate ValidDraws(draws: seq<int>, n: nat) {
    |draws| == n && forall i :: 0 < i < n ==> 0 <= draws[i] <= i
  }

  /** The loop `for (i = ...; i > 0; i--)` from index i down to 1, each step
      swapping position i with the position drawn for it. */
  function ShuffleDown(s: seq<int>, draws: seq<int>, i: nat): (r: seq<int>)
    requires i < |s| && ValidDraws(draws, |s|)
    ensures |r| == |s|
    decreases i
  {
    if i == 0 then s else ShuffleDown(Swap(s, i, draws[i]), draws, i - 1)
  }

  /** The order generateShuffleOrder leaves behind for n tracks. */
  function FisherYates(n: nat, draws: seq<int>): (r: seq<int>)
    requires ValidDraws(draws, n)
    ensures |r| == n
  {
    if n == 0 then [] else ShuffleDown(Range(n), draws, n - 1)
  }

  /** s holds each of 0, ..., n - 1 exactly once. */
  ghost predicate IsPermutation(s: seq<int>, n: nat) {
    multiset(s) == multiset(Range(n))
  }

  lemma {:induction false} ShuffleDownPreservesElements(s: seq<int>, draws: seq<int>, i: nat)
    requires i < |s| && ValidDraws(draws, |s|)
    ensures multiset(ShuffleDown(s, draws, i)) == multiset(s)
    decreases i
  {
    if i > 0 {
      assert 0 <= draws[i] <= i;
      var t := Swap(s, i, draws[i]);
      SwapPreservesElements(s, i, draws[i]);
      ShuffleDownPreservesElements(t, draws, i - 1);
      assert ShuffleDown(s, draws, i) == ShuffleDown(t, draws, i - 1);
    } else {
      assert ShuffleDown(s, draws, i) == s;
    }
  }

  /** Whatever the draws, the generated order is a permutation of [0, n). */
  lemma FisherYatesIsPermutation(n: nat, draws: seq<int>)
    requires ValidDraws(draws, n)
    ensures |FisherYates(n, draws)| == n
    ensures IsPermutation(FisherYates(n, draws), n)
  {
    if n > 0 {
      ShuffleDownPreservesElements(Range(n), draws, n - 1);
    }
  }

  lemma {:induction false} RangeOccurrences(n: nat, x: int)
    ensures multiset(Range(n))[x] == if 0 <= x < n then 1 else 0
  {
    if n > 0 {
      RangeOccurrences(n - 1, x);
      assert multiset(Range(n)) == multiset(Range(n - 1)) + multiset{n - 1};
    }
  }

  /** What being a permutation of [0, n) gives a caller: length n, every entry
      a valid index, every index present, and no entry repeated. */
  lemma PermutationFacts(s: seq<int>, n: nat)
    requires IsPermutation(s, n)
    ensures |s| == n
    ensures forall k :: 0 <= k < |s| ==> 0 <= s[k] < n
    ensures forall x :: 0 <= x < n ==> x in s
    ensures forall a, b :: 0 <= a < b < |s| ==> s[a] != s[b]
  {
    assert |s| == |multiset(s)| == |multiset(Range(n))| == n;
    forall k | 0 <= k < |s| ensures 0 <= s[k] < n {
      assert s[k] in multiset(s);
      RangeOccurrences(n, s[k]);
    }
    forall x | 0 <= x < n ensures x in s {
      RangeOccurrences(n, x);
      assert x in multiset(s);
    }
    forall a, b | 0 <= a < b < |s| ensures s[a] != s[b] {
      if s[a] == s[b] {
        assert s == s[..b] + s[b..];
        assert s[a] in multiset(s[..b]);
        assert s[b] in multiset(s[b..]);
        assert multiset(s)[s[a]] == multiset(s[..b])[s[a]] + multiset(s[b..])[s[a]] >= 2;
        RangeOccurrences(n, s[a]);
        assert false;
      }
    }
  }
}
