/** The interactive bigram searches, src/motor-2/whoosh_buscador.py and
    src/motor_1/whoosh_buscador.py: the typed text is lower-cased, tokenized
    and reduced to its content words, adjacent words are paired, and each pair
    is parsed as one query. The index is not modelled: the result is the list
    of queries that would be run, or `None` when the script exits first. */
module Buscador {
  import opened Wrappers
  import opened Seqs
  import opened Nltk
  import Preprocess

  /** A parsed query: the text `f"{w1} {w2}"`, the fields it is parsed over,
      and whether the terms are OR-grouped (`group=OrGroup`) rather than
      AND-grouped (the `MultifieldParser` default). */
  datatype Query = Query(text: string, fields: seq<string>, orGroup: bool)

  /** `nltk.util.bigrams`: every pair of adjacent tokens, in order. */
  function Bigrams(tokens: seq<string>): (r: seq<(string, string)>)
    ensures |r| == if |tokens| == 0 then 0 else |tokens| - 1
    ensures forall i :: 0 <= i < |r| ==> r[i] == (tokens[i], tokens[i + 1])
  {
    if |tokens| < 2 then []
    else [(tokens[0], tokens[1])] + Bigrams(tokens[1..])
  }

  /** The query text for one bigram. */
  function PairText(b: (string, string)): string {
    b.0 + " " + b.1
  }

  /** The content words of the typed text: lower-case, alphabetic, not
      stopwords, in input order. */
  function SearchTokens(nlp: Nlp, search: string): seq<string> {
    Preprocess.ContentWords(nlp, search)
  }

  const Motor2Fields: seq<string> := ["title", "content", "entity"]
  const Motor1Fields: seq<string> := ["title", "content"]

  /** src/motor-2/whoosh_buscador.py: an empty input exits before any search;
      otherwise exactly one query per bigram, in bigram order, each parsed
      over title, content and entity with OR grouping. */
  function Motor2Queries(nlp: Nlp, search: string): (r: Option<seq<Query>>)
    ensures r.None? <==> search == ""
    ensures r.Some? ==> |r.value| == |Bigrams(SearchTokens(nlp, search))|
    ensures r.Some? ==> forall i :: 0 <= i < |r.value| ==>
      var tokens := SearchTokens(nlp, search);
      r.value[i] == Query(tokens[i] + " " + tokens[i + 1], Motor2Fields, true)
  {
    if search == "" then None
    else
      var pairs := Bigrams(SearchTokens(nlp, search));
      Some(seq(|pairs|, i requires 0 <= i < |pairs| => Query(PairText(pairs[i]), Motor2Fields, true)))
  }

  /** src/motor_1/whoosh_buscador.py: an empty input exits before any search;
      otherwise only the first three bigrams are searched, in order, each
      parsed over title and content with the default AND grouping. */
  function Motor1Queries(nlp: Nlp, search: string): (r: Option<seq<Query>>)
    ensures r.None? <==> search == ""
    ensures r.Some? ==> |r.value| == Min(3, |Bigrams(SearchTokens(nlp, search))|)
    ensures r.Some? ==> forall i :: 0 <= i < |r.value| ==>
      var tokens := SearchTokens(nlp, search);
      r.value[i] == Query(tokens[i] + " " + tokens[i + 1], Motor1Fields, false)
  {
    if search == "" then None
    else
      var pairs := Bigrams(SearchTokens(nlp, search));
      var first := if |pairs| <= 3 then pairs else pairs[..3];
      Some(seq(|first|, i requires 0 <= i < |first| => Query(PairText(first[i]), Motor1Fields, false)))
  }

  function Min(a: nat, b: nat): nat {
    if a <= b then a else b
  }

  /** A non-empty input with at most one content word runs no search. */
  lemma NoPairNoSearch(nlp: Nlp, search: string)
    requires search != "" && |SearchTokens(nlp, search)| <= 1
    ensures Motor2Queries(nlp, search) == Some([])
    ensures Motor1Queries(nlp, search) == Some([])
  {
  }

  /** The query words are content words of the input: alphabetic and not
      stopwords. */
  lemma {:induction false} QueryWordsAreContent(nlp: Nlp, search: string, i: nat)
    requires i + 1 < |SearchTokens(nlp, search)|
    ensures var b := Bigrams(SearchTokens(nlp, search))[i];
      nlp.isAlpha(b.0) && b.0 !in nlp.stopwords && nlp.isAlpha(b.1) && b.1 !in nlp.stopwords
  {
    var tokens := SearchTokens(nlp, search);
    assert nlp.isAlpha(tokens[i]) && tokens[i] !in nlp.stopwords;
    assert nlp.isAlpha(tokens[i + 1]) && tokens[i + 1] !in nlp.stopwords;
  }
}
