/** `preprocess_text`, in its three copies: the text is lower-cased and
    tokenized, tokens that are not purely alphabetic are dropped, and the
    alphabetic ones are split into content words (kept) and stopwords
    (removed). src/analyzer.py and src/analyzer_words.py return both lists;
    src/chart.py returns only the content words. */
module Preprocess {
  import opened Seqs
  import opened Nltk

  /** `token.isalpha() and token not in stop_words`. */
  function IsContent(nlp: Nlp): string -> bool {
    t => nlp.isAlpha(t) && t !in nlp.stopwords
  }

  /** `token.isalpha() and token in stop_words`. */
  function IsStopword(nlp: Nlp): string -> bool {
    t => nlp.isAlpha(t) && t in nlp.stopwords
  }

  /** `not token.isalpha()`: the tokens that land in neither list. */
  function IsNonAlpha(nlp: Nlp): string -> bool {
    t => !nlp.isAlpha(t)
  }

  /** The loop of `preprocess_text` in src/analyzer.py: each token is skipped
      when it is not alphabetic, appended to the removed list when it is a
      stopword, and to the kept list otherwise. Each list is the input's
      tokens of its kind, in input order. */
  method Partition(tokens: seq<string>, nlp: Nlp) returns (kept: seq<string>, removed: seq<string>)
    ensures kept == Filter(tokens, IsContent(nlp))
    ensures removed == Filter(tokens, IsStopword(nlp))
  {
    kept, removed := [], [];
    for i := 0 to |tokens|
      invariant kept == Filter(tokens[..i], IsContent(nlp))
      invariant removed == Filter(tokens[..i], IsStopword(nlp))
    {
      var token := tokens[i];
      FilterAppend(tokens[..i], [token], IsContent(nlp));
      FilterAppend(tokens[..i], [token], IsStopword(nlp));
      assert tokens[..i + 1] == tokens[..i] + [token];
      assert Filter([token], IsContent(nlp)) == if IsContent(nlp)(token) then [token] else [];
      assert Filter([token], IsStopword(nlp)) == if IsStopword(nlp)(token) then [token] else [];
      if !nlp.isAlpha(token) {
        continue;
      }
      if token in nlp.stopwords {
        removed := removed + [token];
        continue;
      }
      kept := kept + [token];
    }
    assert tokens[..|tokens|] == tokens;
  }

  /** `preprocess_text` of src/analyzer.py (src/analyzer_words.py carries the
      same function): `word_tokenize(text.lower())`, then `Partition`. */
  method PreprocessText(nlp: Nlp, text: string) returns (kept: seq<string>, removed: seq<string>)
    ensures kept == Filter(nlp.tokenize(nlp.lower(text)), IsContent(nlp))
    ensures removed == Filter(nlp.tokenize(nlp.lower(text)), IsStopword(nlp))
    ensures forall i :: 0 <= i < |kept| ==> nlp.isAlpha(kept[i]) && kept[i] !in nlp.stopwords
    ensures forall i :: 0 <= i < |removed| ==> nlp.isAlpha(removed[i]) && removed[i] in nlp.stopwords
  {
    kept, removed := Partition(nlp.tokenize(nlp.lower(text)), nlp);
  }

  /** No token is both kept and removed, each list keeps the input order, and
      the two lists together hold exactly the alphabetic tokens: the
      non-alphabetic ones are the only ones missing. */
  lemma PartitionSplits(tokens: seq<string>, nlp: Nlp)
    ensures Elems(Filter(tokens, IsContent(nlp))) !! Elems(Filter(tokens, IsStopword(nlp)))
    ensures IsSubseq(Filter(tokens, IsContent(nlp)), tokens)
    ensures IsSubseq(Filter(tokens, IsStopword(nlp)), tokens)
    ensures |Filter(tokens, IsContent(nlp))| + |Filter(tokens, IsStopword(nlp))|
      == |tokens| - |Filter(tokens, IsNonAlpha(nlp))|
  {
    var kept, removed := Filter(tokens, IsContent(nlp)), Filter(tokens, IsStopword(nlp));
    forall w | w in Elems(kept) ensures w !in Elems(removed) {
      var i :| 0 <= i < |kept| && kept[i] == w;
      assert IsContent(nlp)(kept[i]);
    }
    FilterIsSubseq(tokens, IsContent(nlp));
    FilterIsSubseq(tokens, IsStopword(nlp));
    PartitionCount(tokens, nlp);
  }

  lemma {:induction false} PartitionCount(tokens: seq<string>, nlp: Nlp)
    ensures |Filter(tokens, IsContent(nlp))| + |Filter(tokens, IsStopword(nlp))|
      + |Filter(tokens, IsNonAlpha(nlp))| == |tokens|
  {
    if |tokens| > 0 {
      PartitionCount(tokens[1..], nlp);
    }
  }

  /** `preprocess_text` of src/chart.py: the content words of
      `word_tokenize(text.lower())`, in order, each as often as it occurs
      there; stopwords and non-alphabetic tokens do not occur at all. */
  function ContentWords(nlp: Nlp, text: string): (r: seq<string>)
    ensures forall i :: 0 <= i < |r| ==> nlp.isAlpha(r[i]) && r[i] !in nlp.stopwords
    ensures Selects(r, nlp.tokenize(nlp.lower(text)), IsContent(nlp))
  {
    var tokens := nlp.tokenize(nlp.lower(text));
    FilterSelects(tokens, IsContent(nlp));
    Filter(tokens, IsContent(nlp))
  }

  /** Filtering the filter's own output changes nothing. */
  lemma ContentFilterIdempotent(nlp: Nlp, text: string)
    ensures Filter(ContentWords(nlp, text), IsContent(nlp)) == ContentWords(nlp, text)
  {
    FilterAll(ContentWords(nlp, text), IsContent(nlp));
  }
}
