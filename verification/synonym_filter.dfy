/** `NLTKSynonymFilter`, the Whoosh filter that follows every token with one
    copy of it per WordNet synonym. The three analyzers of the repository carry
    the class verbatim; this module models it once. `Chain` is the analyzer
    that ends with it (no duplicate removal). */
module SynonymFilter {
  import opened Seqs
  import opened Nltk
  import opened Tokens
  import WordHelper

  /** The synonyms of a token text in the order the filter iterates them. */
  type SynonymSource = string -> seq<string>

  /** `get_synonyms(w)` from a coherent cache (see WordHelper), iterated in
      Python set order. */
  function FromWordNet(nlp: Nlp): SynonymSource {
    w => SynonymList(nlp, w)
  }

  /** `get_synonyms(w)` iterated in Python set order. */
  function SynonymList(nlp: Nlp, w: string): seq<string> {
    nlp.order(WordHelper.Synonyms(nlp.synsets, w))
  }

  /** The output position at which the `i`-th input token is emitted: each
      earlier token took one slot for itself and one per synonym. */
  function Offset(tokens: seq<Token>, syn: SynonymSource, i: nat): nat
    requires i <= |tokens|
  {
    if i == 0 then 0
    else Offset(tokens, syn, i - 1) + 1 + |syn(tokens[i - 1].text)|
  }

  /** The copies of `t` that carry the given texts (`token.copy()` with only
      `.text` replaced). */
  function Copies(t: Token, texts: seq<string>): seq<Token> {
    seq(|texts|, k requires 0 <= k < |texts| => t.(text := texts[k]))
  }

  /** The filter's output: each input token immediately followed by one copy of
      it per synonym, in input order (positions are given by `Offset`, see
      `ExpandAt`). */
  function Expand(tokens: seq<Token>, syn: SynonymSource): seq<Token> {
    if |tokens| == 0 then []
    else
      var last := tokens[|tokens| - 1];
      Expand(tokens[..|tokens| - 1], syn) + [last] + Copies(last, syn(last.text))
  }

  /** Offsets depend only on the tokens before them. */
  lemma {:induction false} OffsetPrefix(tokens: seq<Token>, syn: SynonymSource, m: nat, i: nat)
    requires i <= m <= |tokens|
    ensures Offset(tokens[..m], syn, i) == Offset(tokens, syn, i)
  {
    if i > 0 {
      OffsetPrefix(tokens, syn, m, i - 1);
      assert tokens[..m][i - 1] == tokens[i - 1];
    }
  }

  /** The output ends where a token after the last one would start. */
  lemma {:induction false} ExpandSize(tokens: seq<Token>, syn: SynonymSource)
    ensures |Expand(tokens, syn)| == Offset(tokens, syn, |tokens|)
  {
    if |tokens| > 0 {
      var n := |tokens|;
      ExpandSize(tokens[..n - 1], syn);
      OffsetPrefix(tokens, syn, n - 1, n - 1);
    }
  }

  /** What sits in the block of the `i`-th input token: at its offset the token
      itself, then for each of its synonyms, in iteration order, a copy of the
      token that differs from it only in `text`. */
  lemma {:induction false} ExpandAt(tokens: seq<Token>, syn: SynonymSource, i: nat, k: nat)
    requires i < |tokens| && k < 1 + |syn(tokens[i].text)|
    ensures Offset(tokens, syn, i) + k < |Expand(tokens, syn)|
    ensures Expand(tokens, syn)[Offset(tokens, syn, i) + k]
      == if k == 0 then tokens[i] else tokens[i].(text := syn(tokens[i].text)[k - 1])
  {
    var n := |tokens|;
    var front := tokens[..n - 1];
    var block := [tokens[n - 1]] + Copies(tokens[n - 1], syn(tokens[n - 1].text));
    assert Expand(tokens, syn) == Expand(front, syn) + block;
    ExpandSize(front, syn);
    OffsetPrefix(tokens, syn, n - 1, n - 1);
    if i == n - 1 {
      assert (Expand(front, syn) + block)[Offset(tokens, syn, i) + k] == block[k];
    } else {
      ExpandAt(front, syn, i, k);
      assert front[i] == tokens[i];
      OffsetPrefix(tokens, syn, n - 1, i);
    }
  }

  /** Later input tokens are emitted at later output positions. */
  lemma {:induction false} OffsetIncreasing(tokens: seq<Token>, syn: SynonymSource, i: nat, j: nat)
    requires i < j <= |tokens|
    ensures Offset(tokens, syn, i) < Offset(tokens, syn, j)
  {
    if i < j - 1 {
      OffsetIncreasing(tokens, syn, i, j - 1);
    }
  }

  /** Σ (1 + |sets(t.text)|) over the input tokens. */
  function EmittedCount(tokens: seq<Token>, sets: string -> set<string>): nat {
    if |tokens| == 0 then 0
    else EmittedCount(tokens[..|tokens| - 1], sets) + 1 + |sets(tokens[|tokens| - 1].text)|
  }

  /** The output has one token per input token plus one per synonym of it. */
  lemma ExpandLength(tokens: seq<Token>, nlp: Nlp)
    requires nlp.Valid()
    ensures |Expand(tokens, FromWordNet(nlp))| == EmittedCount(tokens, WordNetSets(nlp))
  {
    var syn, sets := FromWordNet(nlp), WordNetSets(nlp);
    forall i | 0 <= i < |tokens|
      ensures |syn(tokens[i].text)| == |sets(tokens[i].text)|
    {
      var s := WordHelper.Synonyms(nlp.synsets, tokens[i].text);
      ListsCard(nlp.order(s), s);
    }
    ExpandSize(tokens, syn);
    OffsetCount(tokens, syn, sets, |tokens|);
    assert tokens[..|tokens|] == tokens;
  }

  lemma {:induction false} OffsetCount(tokens: seq<Token>, syn: SynonymSource, sets: string -> set<string>, n: nat)
    requires n <= |tokens|
    requires forall i :: 0 <= i < n ==> |syn(tokens[i].text)| == |sets(tokens[i].text)|
    ensures Offset(tokens, syn, n) == EmittedCount(tokens[..n], sets)
  {
    if n > 0 {
      OffsetCount(tokens, syn, sets, n - 1);
      assert tokens[..n][..n - 1] == tokens[..n - 1];
      assert tokens[..n][n - 1] == tokens[n - 1];
    }
  }

  /** The input tokens survive in the output as an in-order subsequence. */
  lemma {:induction false} ExpandKeepsOriginals(tokens: seq<Token>, syn: SynonymSource)
    ensures IsSubseq(tokens, Expand(tokens, syn))
  {
    if |tokens| > 0 {
      var n := |tokens|;
      var front := tokens[..n - 1];
      ExpandKeepsOriginals(front, syn);
      SubseqAppend(front, Expand(front, syn), tokens[n - 1]);
      assert front + [tokens[n - 1]] == tokens;
      SubseqAppendAll(tokens, Expand(front, syn) + [tokens[n - 1]], Copies(tokens[n - 1], syn(tokens[n - 1].text)));
    }
  }

  /** No copy carries the text of the token it follows: the texts the filter
      gives the copies of a token (see `Expand`) all differ from its own. */
  lemma NoSelfCopy(tokens: seq<Token>, nlp: Nlp)
    requires nlp.Valid()
    ensures forall i, k :: 0 <= i < |tokens| && 0 <= k < |SynonymList(nlp, tokens[i].text)| ==>
      SynonymList(nlp, tokens[i].text)[k] != tokens[i].text
  {
    forall i, k | 0 <= i < |tokens| && 0 <= k < |SynonymList(nlp, tokens[i].text)|
      ensures SynonymList(nlp, tokens[i].text)[k] != tokens[i].text
    {
      var s := WordHelper.Synonyms(nlp.synsets, tokens[i].text);
      assert Lists(nlp.order(s), s);
      assert nlp.order(s)[k] in Elems(nlp.order(s));
    }
  }

  /** The filter as it runs, with the `get_synonyms` cache carried from token
      to token: each token's synonyms are looked up (and stored on a miss)
      before the next token's. Gives the output and the cache afterwards. */
  function ExpandCached(tokens: seq<Token>, nlp: Nlp, cache: WordHelper.Cache): (seq<Token>, WordHelper.Cache) {
    if |tokens| == 0 then ([], cache)
    else
      var prior := ExpandCached(tokens[..|tokens| - 1], nlp, cache);
      var last := tokens[|tokens| - 1];
      var lookup := WordHelper.GetSynonymsStep(prior.1, nlp.synsets, last.text);
      (prior.0 + [last] + Copies(last, nlp.order(lookup.synonyms)), lookup.cache)
  }

  /** From a coherent cache, carrying the cache through the tokens emits what
      `Expand` with WordNet's synonyms does, and the cache stays coherent. */
  lemma {:induction false} ExpandCachedCoherent(tokens: seq<Token>, nlp: Nlp, cache: WordHelper.Cache)
    requires WordHelper.Coherent(cache, nlp.synsets)
    ensures ExpandCached(tokens, nlp, cache).0 == Expand(tokens, FromWordNet(nlp))
    ensures WordHelper.Coherent(ExpandCached(tokens, nlp, cache).1, nlp.synsets)
  {
    if |tokens| > 0 {
      var front, last := tokens[..|tokens| - 1], tokens[|tokens| - 1];
      ExpandCachedCoherent(front, nlp, cache);
      WordHelper.GetSynonymsCoherent(ExpandCached(front, nlp, cache).1, nlp.synsets, last.text);
    }
  }

  /** The process starts with an empty cache, which is coherent, so the filter
      as it runs is `Expand` with WordNet's synonyms. */
  lemma ExpandFromEmptyCache(tokens: seq<Token>, nlp: Nlp)
    ensures WordHelper.Coherent(map[], nlp.synsets)
    ensures ExpandCached(tokens, nlp, map[]).0 == Expand(tokens, FromWordNet(nlp))
  {
    ExpandCachedCoherent(tokens, nlp, map[]);
  }

  /** An analyzer that ends with the synonym filter (`RegexTokenizer |
      LowercaseFilter | StopFilter | NLTKSynonymFilter`); the Whoosh front end
      is the `frontEnd` oracle. */
  function Chain(frontEnd: string -> seq<Token>, nlp: Nlp, value: string): seq<Token> {
    Expand(frontEnd(value), FromWordNet(nlp))
  }

  /** With no duplicate-removal stage, a text the front end yields twice is
      still there twice after the filter. */
  lemma ChainKeepsRepeats(frontEnd: string -> seq<Token>, nlp: Nlp, value: string, i: nat, j: nat)
    requires i < j < |frontEnd(value)| && frontEnd(value)[i].text == frontEnd(value)[j].text
    ensures !DistinctKeys(Chain(frontEnd, nlp, value), TextOf)
  {
    var tokens := frontEnd(value);
    var syn := FromWordNet(nlp);
    var r := Chain(frontEnd, nlp, value);
    OffsetIncreasing(tokens, syn, i, j);
    ExpandAt(tokens, syn, i, 0);
    ExpandAt(tokens, syn, j, 0);
    assert TextOf(r[Offset(tokens, syn, i)]) == TextOf(r[Offset(tokens, syn, j)]);
  }

  /** The synonym sets WordNet gives, as a function of the word. */
  function WordNetSets(nlp: Nlp): string -> set<string> {
    w => WordHelper.Synonyms(nlp.synsets, w)
  }

  /** The texts the filter emits are exactly the input texts together with
      their synonyms. */
  lemma ExpandTexts(tokens: seq<Token>, nlp: Nlp)
    requires nlp.Valid()
    ensures forall w :: w in KeysOf(Expand(tokens, FromWordNet(nlp)), TextOf) <==>
      exists i :: (0 <= i < |tokens| &&
        (w == tokens[i].text || w in WordHelper.Synonyms(nlp.synsets, tokens[i].text)))
  {
    var syn, sets := FromWordNet(nlp), WordNetSets(nlp);
    forall i | 0 <= i < |tokens|
      ensures Lists(syn(tokens[i].text), sets(tokens[i].text))
    {
      var x := tokens[i].text;
      assert Lists(nlp.order(WordHelper.Synonyms(nlp.synsets, x)), WordHelper.Synonyms(nlp.synsets, x));
    }
    ExpandTextsBy(tokens, syn, sets);
  }

  /** `ExpandTexts` for any source that enumerates the given synonym sets. */
  lemma {:induction false} ExpandTextsBy(tokens: seq<Token>, syn: SynonymSource, sets: string -> set<string>)
    requires Enumerates(tokens, syn, sets)
    ensures forall w :: w in KeysOf(Expand(tokens, syn), TextOf) <==>
      exists i :: (0 <= i < |tokens| && (w == tokens[i].text || w in sets(tokens[i].text)))
  {
    forall w | w in KeysOf(Expand(tokens, syn), TextOf)
      ensures exists i :: (0 <= i < |tokens| && (w == tokens[i].text || w in sets(tokens[i].text)))
    {
      EmittedTextHasSource(tokens, syn, sets, w);
    }
    forall w | exists i :: (0 <= i < |tokens| && (w == tokens[i].text || w in sets(tokens[i].text)))
      ensures w in KeysOf(Expand(tokens, syn), TextOf)
    {
      var i :| 0 <= i < |tokens| && (w == tokens[i].text || w in sets(tokens[i].text));
      SourceTextEmitted(tokens, syn, sets, i, w);
    }
  }

  /** Each token's synonyms are iterated as an enumeration of its set. */
  ghost predicate Enumerates(tokens: seq<Token>, syn: SynonymSource, sets: string -> set<string>) {
    forall i :: 0 <= i < |tokens| ==> Lists(syn(tokens[i].text), sets(tokens[i].text))
  }

  lemma {:induction false} EmittedTextHasSource(tokens: seq<Token>, syn: SynonymSource, sets: string -> set<string>, w: string)
    requires Enumerates(tokens, syn, sets)
    requires w in KeysOf(Expand(tokens, syn), TextOf)
    ensures exists i :: (0 <= i < |tokens| && (w == tokens[i].text || w in sets(tokens[i].text)))
  {
    var p := KeysOfIndex(Expand(tokens, syn), TextOf, w);
    var i := BlockOf(tokens, syn, p);
    var k := BlockTextHasSource(tokens, syn, p, i);
    if k > 0 {
      assert Lists(syn(tokens[i].text), sets(tokens[i].text));
      ListedAt(syn(tokens[i].text), sets(tokens[i].text), k - 1);
    }
  }

  /** Output position `p`, in the block of token `i`, carries that token's
      text (`k` = 0) or its `k`-th synonym. */
  lemma BlockTextHasSource(tokens: seq<Token>, syn: SynonymSource, p: nat, i: nat) returns (k: nat)
    requires i < |tokens| && Offset(tokens, syn, i) <= p < Offset(tokens, syn, i) + 1 + |syn(tokens[i].text)|
    ensures p < |Expand(tokens, syn)| && k <= |syn(tokens[i].text)|
    ensures k == 0 ==> Expand(tokens, syn)[p].text == tokens[i].text
    ensures k > 0 ==> Expand(tokens, syn)[p].text == syn(tokens[i].text)[k - 1]
  {
    k := p - Offset(tokens, syn, i);
    ExpandAt(tokens, syn, i, k);
  }

  lemma {:induction false} SourceTextEmitted(tokens: seq<Token>, syn: SynonymSource, sets: string -> set<string>, i: nat, w: string)
    requires Enumerates(tokens, syn, sets)
    requires i < |tokens|
    requires w == tokens[i].text || w in sets(tokens[i].text)
    ensures w in KeysOf(Expand(tokens, syn), TextOf)
  {
    var k: nat := 0;
    if w != tokens[i].text {
      var j := ListedIndex(syn(tokens[i].text), sets(tokens[i].text), w);
      k := j + 1;
    }
    ExpandAt(tokens, syn, i, k);
    KeysOfAt(Expand(tokens, syn), TextOf, Offset(tokens, syn, i) + k);
  }

  /** The input token whose block holds output position `p`. */
  lemma {:induction false} BlockOf(tokens: seq<Token>, syn: SynonymSource, p: nat) returns (i: nat)
    requires p < |Expand(tokens, syn)|
    ensures i < |tokens|
    ensures Offset(tokens, syn, i) <= p < Offset(tokens, syn, i) + 1 + |syn(tokens[i].text)|
  {
    i := 0;
    while Offset(tokens, syn, i) + 1 + |syn(tokens[i].text)| <= p
      invariant i < |tokens| && Offset(tokens, syn, i) <= p
      decreases |tokens| - i
    {
      if i + 1 == |tokens| {
        ExpandSize(tokens, syn);
        assert false;
      }
      i := i + 1;
    }
  }
}
