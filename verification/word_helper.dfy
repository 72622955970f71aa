/** `get_synonyms` of src/word_helper.py: WordNet synonyms of a word, memoised
    in a process-wide cache. The cache is an explicit map threaded through each
    call; WordNet is the `synsets` oracle (lemma names of each synset). */
module WordHelper {
  type Cache = map<string, set<string>>

  /** The lemma names of all the given synsets. */
  function LemmaNames(synsets: seq<seq<string>>): set<string> {
    if |synsets| == 0 then {}
    else (set j | 0 <= j < |synsets[0]| :: synsets[0][j]) + LemmaNames(synsets[1..])
  }

  /** A name is a lemma name exactly when some synset lists it. */
  lemma {:induction false} LemmaNamesMembers(synsets: seq<seq<string>>, n: string)
    ensures n in LemmaNames(synsets) <==>
      exists i, j :: 0 <= i < |synsets| && 0 <= j < |synsets[i]| && synsets[i][j] == n
  {
    if |synsets| > 0 {
      LemmaNamesMembers(synsets[1..], n);
      if n in LemmaNames(synsets[1..]) {
        var i, j :| 0 <= i < |synsets[1..]| && 0 <= j < |synsets[1..][i]| && synsets[1..][i][j] == n;
        assert synsets[i + 1][j] == n;
      }
      if exists i, j :: 0 <= i < |synsets| && 0 <= j < |synsets[i]| && synsets[i][j] == n {
        var i, j :| 0 <= i < |synsets| && 0 <= j < |synsets[i]| && synsets[i][j] == n;
        if i > 0 {
          assert synsets[1..][i - 1][j] == n;
        }
      }
    }
  }

  /** What `get_synonyms` computes on a cache miss: every lemma name of every
      synset of `word`, except `word` itself. */
  function Synonyms(synsets: string -> seq<seq<string>>, word: string): (r: set<string>)
    ensures word !in r
    ensures |synsets(word)| == 0 ==> r == {}
  {
    LemmaNames(synsets(word)) - {word}
  }

  /** A name is a synonym of `word` exactly when it differs from `word` and
      some synset of `word` lists it. */
  lemma SynonymsMembers(synsets: string -> seq<seq<string>>, word: string, n: string)
    ensures n in Synonyms(synsets, word) <==> (n != word &&
      exists i, j :: 0 <= i < |synsets(word)| && 0 <= j < |synsets(word)[i]| && synsets(word)[i][j] == n)
  {
    LemmaNamesMembers(synsets(word), n);
  }

  /** A cache holds, for each word it knows, exactly that word's synonyms: the
      state every cache written only by `get_synonyms` is in. */
  ghost predicate Coherent(cache: Cache, synsets: string -> seq<seq<string>>) {
    forall w :: w in cache ==> cache[w] == Synonyms(synsets, w)
  }

  /** The result of one `get_synonyms` call and the cache after it. */
  datatype Lookup = Lookup(synonyms: set<string>, cache: Cache, consulted: bool)

  /** One `get_synonyms(word)` call as a state transition: a hit returns the
      stored set and leaves the cache and WordNet alone; a miss asks WordNet
      once and stores the answer under `word` only. */
  function GetSynonymsStep(cache: Cache, synsets: string -> seq<seq<string>>, word: string): (r: Lookup)
    ensures r.consulted <==> word !in cache
    ensures word in cache ==> r.synonyms == cache[word] && r.cache == cache
    ensures word !in cache ==> r.synonyms == Synonyms(synsets, word)
    ensures r.cache.Keys == cache.Keys + {word}
    ensures r.cache[word] == r.synonyms
    ensures forall w :: w in cache && w != word ==> r.cache[w] == cache[w]
  {
    if word in cache then Lookup(cache[word], cache, false)
    else
      var s := Synonyms(synsets, word);
      Lookup(s, cache[word := s], true)
  }

  /** `get_synonyms` itself: on a miss it walks every lemma of every synset,
      adds its name to a set, discards `word`, and stores the set. */
  method GetSynonyms(cache: Cache, synsets: string -> seq<seq<string>>, word: string)
    returns (r: set<string>, cache': Cache, consulted: bool)
    ensures consulted <==> word !in cache
    ensures word in cache ==> r == cache[word] && cache' == cache
    ensures word !in cache ==> word !in r && forall n :: n in r <==> (n != word &&
      exists i, j :: 0 <= i < |synsets(word)| && 0 <= j < |synsets(word)[i]| && synsets(word)[i][j] == n)
    ensures cache' == cache[word := r]
  {
    if word in cache {
      return cache[word], cache, false;
    }
    var groups := synsets(word);
    var names: set<string> := {};
    for i := 0 to |groups|
      invariant forall n :: n in names <==>
        exists a, b :: 0 <= a < i && 0 <= b < |groups[a]| && groups[a][b] == n
    {
      var lemmas := groups[i];
      for j := 0 to |lemmas|
        invariant forall n :: n in names <==>
          (exists a, b :: 0 <= a < i && 0 <= b < |groups[a]| && groups[a][b] == n)
          || (exists b :: 0 <= b < j && lemmas[b] == n)
      {
        names := names + {lemmas[j]};
      }
    }
    names := names - {word};
    r, cache', consulted := names, cache[word := names], true;
  }

  /** Asking twice for the same word gives the same set, and the second call
      is a hit that changes nothing. */
  lemma GetSynonymsIdempotent(cache: Cache, synsets: string -> seq<seq<string>>, word: string)
    ensures var first := GetSynonymsStep(cache, synsets, word);
      var second := GetSynonymsStep(first.cache, synsets, word);
      && second.synonyms == first.synonyms
      && second.cache == first.cache
      && !second.consulted
  {
  }

  /** Every call keeps a coherent cache coherent, and from a coherent cache the
      answer is exactly the word's synonyms, hence never the word itself. */
  lemma GetSynonymsCoherent(cache: Cache, synsets: string -> seq<seq<string>>, word: string)
    requires Coherent(cache, synsets)
    ensures var r := GetSynonymsStep(cache, synsets, word);
      && r.synonyms == Synonyms(synsets, word)
      && word !in r.synonyms
      && Coherent(r.cache, synsets)
  {
  }
}
