/** Building the session's word pool from the filtered dictionary, and splitting
    it into the words still shown and the words to be recalled. */
module WordPool {

  /** Outcome of the draw loop: the pool, or the panic of `rand.Intn(0)` when the
      filtered dictionary is empty and at least one word is to be drawn. */
  datatype Drawn = Pool(words: seq<string>) | IntnPanic

  /** The random indices handed out by `rand.Intn(n)`: each one below n. */
  predicate IndicesBelow(draws: seq<nat>, n: nat)
  {
    forall k :: 0 <= k < |draws| ==> draws[k] < n
  }

  /** The draw loop: `numberOfWords` times, append `data[rand.Intn(len(data))]`.
      `draws[k]` is the index returned by the k-th call; when `data` is empty the
      first call panics and `draws` is never consulted. */
  method DrawPool(data: seq<string>, numberOfWords: nat, draws: seq<nat>) returns (r: Drawn)
    requires |draws| == numberOfWords
    requires data != [] ==> IndicesBelow(draws, |data|)
    ensures r.IntnPanic? <==> data == [] && numberOfWords > 0
    ensures r.Pool? ==> |r.words| == numberOfWords
    ensures r.Pool? ==> forall k :: 0 <= k < |r.words| ==> draws[k] < |data| && r.words[k] == data[draws[k]]
    ensures r.Pool? ==> forall w :: w in r.words ==> w in data
  {
    var randomWords: seq<string> := [];
    for idx := 0 to numberOfWords
      invariant |randomWords| == idx
      invariant idx > 0 ==> data != []
      invariant forall k :: 0 <= k < idx ==> draws[k] < |data| && randomWords[k] == data[draws[k]]
    {
      if data == [] {
        return IntnPanic;
      }
      randomWords := randomWords + [data[draws[idx]]];
    }
    r := Pool(randomWords);
  }

  /** `missingWords := randomWords[len-m:]`, `randomWords := randomWords[:len-m]`:
      the visible prefix and the last m words. */
  function Split(pool: seq<string>, m: nat): (r: (seq<string>, seq<string>))
    requires m <= |pool|
    ensures |r.1| == m && |r.0| == |pool| - m
    ensures r.0 + r.1 == pool
  {
    (pool[..|pool| - m], pool[|pool| - m..])
  }

  /** The visible and the missing words together are exactly the pool's words. */
  lemma SplitKeepsWords(pool: seq<string>, m: nat)
    requires m <= |pool|
    ensures multiset(Split(pool, m).0) + multiset(Split(pool, m).1) == multiset(pool)
  {
  }
}
