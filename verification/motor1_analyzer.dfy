/** src/motor_1/analyzer.py: the analyzer `RegexTokenizer | LowercaseFilter |
    StopFilter | NLTKSynonymFilter | RemoveDuplicateFilter` used for the title
    and content fields. */
module Motor1Analyzer {
  import opened Seqs
  import opened Nltk
  import opened Tokens
  import SynonymFilter
  import WordHelper

  /** `RemoveDuplicateFilter`: passes a token on only if no earlier token had
      the same text. The result keeps one token per text, every text of the
      input, each kept token being the first of its text, in input order. */
  function RemoveDuplicates(tokens: seq<Token>): (r: seq<Token>)
    ensures IsSubseq(r, tokens)
    ensures DistinctKeys(r, TextOf)
    ensures KeysOf(r, TextOf) == KeysOf(tokens, TextOf)
    ensures forall k :: 0 <= k < |r| ==>
      exists i :: 0 <= i < |tokens| && tokens[i] == r[k] && IsFirstByKey(tokens, TextOf, i)
  {
    KeepFirstByProperties(tokens, TextOf);
    KeepFirstBy(tokens, TextOf)
  }

  /** Removing duplicates twice is the same as removing them once. */
  lemma RemoveDuplicatesIdempotent(tokens: seq<Token>)
    ensures RemoveDuplicates(RemoveDuplicates(tokens)) == RemoveDuplicates(tokens)
  {
    KeepFirstByDistinct(RemoveDuplicates(tokens), TextOf);
  }

  /** The whole analyzer: front end, synonym expansion, duplicate removal. */
  function Analyze(frontEnd: string -> seq<Token>, nlp: Nlp, value: string): seq<Token> {
    RemoveDuplicates(SynonymFilter.Chain(frontEnd, nlp, value))
  }

  /** The analyzer emits each text once, and its texts are exactly the front
      end's texts together with their WordNet synonyms. */
  lemma AnalyzeTexts(frontEnd: string -> seq<Token>, nlp: Nlp, value: string)
    requires nlp.Valid()
    ensures DistinctKeys(Analyze(frontEnd, nlp, value), TextOf)
    ensures forall w :: w in KeysOf(Analyze(frontEnd, nlp, value), TextOf) <==>
      exists i :: (0 <= i < |frontEnd(value)| &&
        (w == frontEnd(value)[i].text || w in WordHelper.Synonyms(nlp.synsets, frontEnd(value)[i].text)))
  {
    SynonymFilter.ExpandTexts(frontEnd(value), nlp);
  }
}
