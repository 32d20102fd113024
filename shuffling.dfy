/** `shuffle`: `rand.Shuffle` over the pool, whose only effect on the slice is the
    swap callback. The random choices are an input: `js[k]` is the index the
    library picks for the k-th call, which swaps position `n - 1 - k` with `js[k]`
    (positions `n - 1` down to `1`, each with a target in `[0, i]`). */
module Shuffling {

  /** The callback: exchange the elements at positions i and j. */
  function Swap<T>(s: seq<T>, i: nat, j: nat): (r: seq<T>)
    requires i < |s| && j < |s|
    ensures |r| == |s|
    ensures r[i] == s[j] && r[j] == s[i]
    ensures forall k :: 0 <= k < |s| && k != i && k != j ==> r[k] == s[k]
  {
    s[i := s[j]][j := s[i]]
  }

  /** The callback only exchanges: the multiset of elements is unchanged. */
  lemma SwapIsPermutation<T>(s: seq<T>, i: nat, j: nat)
    requires i < |s| && j < |s|
    ensures multiset(Swap(s, i, j)) == multiset(s)
  {
  }

  /** A whole run over n elements: exactly `n - 1` callbacks (none when n is 0), and
      call k (from 0), which swaps position `n - 1 - k`, has a target in
      `[0, n - 1 - k]`. */
  predicate FullRun(n: nat, js: seq<nat>)
  {
    && |js| == (if n == 0 then 0 else n - 1)
    && forall k :: 0 <= k < |js| ==> js[k] <= n - 1 - k
  }

  /** The sequence after the first `count` callbacks for targets `js`. Callback k
      exchanges position `i = |s| - 1 - k` with `js[k]`; a target outside `[0, i]`,
      which the library never produces, leaves the sequence as it is. */
  function Shuffled<T>(s: seq<T>, js: seq<nat>, count: nat): (r: seq<T>)
    requires count <= |js| && count <= |s|
    ensures |r| == |s|
  {
    if count == 0 then s
    else if js[count - 1] <= |s| - count then Swap(Shuffled(s, js, count - 1), |s| - count, js[count - 1])
    else Shuffled(s, js, count - 1)
  }

  /** One callback keeps the multiset of elements. */
  lemma ShuffledStepIsPermutation<T>(s: seq<T>, js: seq<nat>, count: nat)
    requires 0 < count <= |js| && count <= |s|
    ensures multiset(Shuffled(s, js, count)) == multiset(Shuffled(s, js, count - 1))
  {
  }

  /** Shuffling only reorders: any number of callbacks keeps the multiset of
      elements. */
  lemma {:induction false} ShuffledIsPermutation<T>(s: seq<T>, js: seq<nat>, count: nat)
    requires count <= |js| && count <= |s|
    ensures multiset(Shuffled(s, js, count)) == multiset(s)
  {
    if count > 0 {
      ShuffledIsPermutation(s, js, count - 1);
      ShuffledStepIsPermutation(s, js, count);
    }
  }

  /** The swap callback on the array: `a[i], a[j] = a[j], a[i]`. */
  method Exchange<T>(a: array<T>, i: nat, j: nat)
    requires i < a.Length && j < a.Length
    modifies a
    ensures a[..] == Swap(old(a[..]), i, j)
  {
    a[i], a[j] := a[j], a[i];
  }

  /** `shuffle(randomWords)`: runs the swap callback for i from n - 1 down to 1
      (call k swaps position `n - 1 - k`). */
  method Shuffle<T>(a: array<T>, js: seq<nat>)
    requires FullRun(a.Length, js)
    modifies a
    ensures a[..] == Shuffled(old(a[..]), js, |js|)
  {
    ghost var original := a[..];
    var k := 0;
    while k < |js|
      invariant 0 <= k <= |js|
      invariant |original| == a.Length
      invariant a[..] == Shuffled(original, js, k)
    {
      Exchange(a, a.Length - 1 - k, js[k]);
      k := k + 1;
    }
  }
}
