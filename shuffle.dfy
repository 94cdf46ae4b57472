/** The Fisher–Yates shuffle the game applies to a fresh deck and to a recycled discard pile. */
module Shuffling {

  /** A value drawn from the platform's random source: a real in [0, 1). */
  type Unit = r: real | 0.0 <= r < 1.0

  /**
   * An infinite stream of random draws; step `i` of a shuffle uses `rng(i)`.
   * The random source itself is not modelled: every property holds for every stream.
   */
  type Rng = nat -> Unit

  lemma ScaledBelow(r: Unit, m: nat)
    requires m > 0
    ensures 0.0 <= r * m as real < m as real
  {
    assert r * m as real < 1.0 * m as real;
  }

  /** The swap partner of position `i`: floor(r * (i + 1)), which lies in [0, i]. */
  function Pick(r: Unit, i: nat): (j: nat)
    ensures j <= i
  {
    ScaledBelow(r, i + 1);
    (r * (i + 1) as real).Floor
  }

  /** `s` with the elements at `i` and `j` exchanged. */
  function Swap<T>(s: seq<T>, i: nat, j: nat): (r: seq<T>)
    requires i < |s| && j < |s|
    ensures |r| == |s| && r[i] == s[j] && r[j] == s[i]
    ensures forall k :: 0 <= k < |s| && k != i && k != j ==> r[k] == s[k]
  {
    s[i := s[j]][j := s[i]]
  }

  /** The rest of the shuffle once positions above `i` are settled: steps i, i-1, ..., 1. */
  function ShuffleFrom<T>(s: seq<T>, i: int, rng: Rng): seq<T>
    requires i < |s|
    decreases i
  {
    if i <= 0 then s
    else ShuffleFrom(Swap(s, i, Pick(rng(i), i)), i - 1, rng)
  }

  /** The whole shuffle of `s` under the random draws `rng`. */
  function Shuffled<T>(s: seq<T>, rng: Rng): seq<T> {
    ShuffleFrom(s, |s| - 1, rng)
  }

  lemma {:induction false} SwapPermutes<T>(s: seq<T>, i: nat, j: nat)
    requires i < |s| && j < |s|
    ensures multiset(Swap(s, i, j)) == multiset(s)
  {
    var t := s[i := s[j]];
    assert multiset(t) == multiset(s) - multiset{s[i]} + multiset{s[j]};
    assert multiset(t[j := s[i]]) == multiset(t) - multiset{t[j]} + multiset{s[i]};
  }

  lemma {:induction false} ShuffleFromPermutes<T>(s: seq<T>, i: int, rng: Rng)
    requires i < |s|
    ensures |ShuffleFrom(s, i, rng)| == |s|
    ensures multiset(ShuffleFrom(s, i, rng)) == multiset(s)
    decreases i
  {
    if i > 0 {
      var j := Pick(rng(i), i);
      SwapPermutes(s, i, j);
      ShuffleFromPermutes(Swap(s, i, j), i - 1, rng);
    }
  }

  /** A shuffle is a permutation: same length, same multiset of elements. */
  lemma ShufflePermutes<T>(s: seq<T>, rng: Rng)
    ensures |Shuffled(s, rng)| == |s|
    ensures multiset(Shuffled(s, rng)) == multiset(s)
  {
    ShuffleFromPermutes(s, |s| - 1, rng);
  }

  /**
   * Fisher–Yates over a fresh copy of `arr`: for i from the last index down to 1,
   * swap position i with a position picked in [0, i]. The argument is a value,
   * so the caller's sequence is untouched.
   */
  method Shuffle<T>(arr: seq<T>, rng: Rng) returns (r: seq<T>)
    ensures r == Shuffled(arr, rng)
    ensures |r| == |arr| && multiset(r) == multiset(arr)
  {
    var a := new T[|arr|](k requires 0 <= k < |arr| => arr[k]);
    var i := |arr| - 1;
    assert a[..] == arr;
    while i > 0
      invariant -1 <= i < a.Length == |arr|
      invariant ShuffleFrom(a[..], i, rng) == Shuffled(arr, rng)
      decreases i
    {
      var j := Pick(rng(i), i);
      var t := a[i];
      a[i] := a[j];
      a[j] := t;
      i := i - 1;
    }
    r := a[..];
    ShufflePermutes(arr, rng);
  }
}
