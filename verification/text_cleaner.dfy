/** src/preprocessing/text_cleaner.py: `clean_text` turns a document into the
    query text the batch searcher uses, and `expands_query` adds up to four
    WordNet lemma names per token. */
module TextCleaner {
  import opened Seqs
  import opened Nltk
  import Text
  import WordHelper

  /** `synonyms_limit`. */
  const SynonymsLimit: nat := 4

  /** `[a-zA-Z]`. */
  predicate IsAsciiLetter(c: char) {
    'a' <= c <= 'z' || 'A' <= c <= 'Z'
  }

  function IsLetterOrSpace(c: char): bool {
    IsAsciiLetter(c) || Text.IsSpace(c)
  }

  /** `re.sub(r'[^a-zA-Z\s]', '', text)`: every character other than an ASCII
      letter or a whitespace character is deleted; the rest stay in order. */
  function StripSpecials(text: string): (r: string)
    ensures forall i :: 0 <= i < |r| ==> IsAsciiLetter(r[i]) || Text.IsSpace(r[i])
    ensures forall i :: 0 <= i < |text| && (IsAsciiLetter(text[i]) || Text.IsSpace(text[i])) ==> text[i] in r
    ensures Selects(r, text, IsLetterOrSpace)
  {
    FilterSelects(text, IsLetterOrSpace);
    Filter(text, IsLetterOrSpace)
  }

  /** `[token for token in tokens if token not in stop_words]`. */
  function DropStopwords(tokens: seq<string>, stopwords: set<string>): (r: seq<string>)
    ensures forall i :: 0 <= i < |r| ==> r[i] !in stopwords
    ensures forall i :: 0 <= i < |tokens| && tokens[i] !in stopwords ==> tokens[i] in r
    ensures Selects(r, tokens, t => t !in stopwords)
  {
    var keep := (t: string) => t !in stopwords;
    FilterSelects(tokens, keep);
    Filter(tokens, keep)
  }

  /** `[lemmatizer.lemmatize(token) for token in tokens]`. */
  function Lemmatize(tokens: seq<string>, lemmatize: string -> string): seq<string> {
    seq(|tokens|, i requires 0 <= i < |tokens| => lemmatize(tokens[i]))
  }

  /** `list(synonyms)[:synonyms_limit]`: the first four lemma names of the
      word's synsets in set iteration order (all of them when there are
      fewer). */
  function Extra(nlp: Nlp, token: string): (r: seq<string>)
    ensures |r| <= SynonymsLimit
    ensures var names := nlp.order(WordHelper.LemmaNames(nlp.synsets(token)));
      |r| == (if |names| <= SynonymsLimit then |names| else SynonymsLimit) && r == names[..|r|]
  {
    var names := nlp.order(WordHelper.LemmaNames(nlp.synsets(token)));
    if |names| <= SynonymsLimit then names else names[..SynonymsLimit]
  }

  /** The list `expanded` after the loop: each token followed by its extra
      names. */
  function Expanded(nlp: Nlp, tokens: seq<string>): seq<string> {
    if |tokens| == 0 then []
    else Expanded(nlp, tokens[..|tokens| - 1]) + [tokens[|tokens| - 1]] + Extra(nlp, tokens[|tokens| - 1])
  }

  /** `expands_query`: `list(set(expanded))`. */
  function ExpandsQuery(nlp: Nlp, tokens: seq<string>): seq<string> {
    nlp.order(Elems(Expanded(nlp, tokens)))
  }

  /** Each token contributes itself and at most four names. */
  lemma {:induction false} ExpandedLength(nlp: Nlp, tokens: seq<string>)
    ensures |Expanded(nlp, tokens)| <= (1 + SynonymsLimit) * |tokens|
  {
    if |tokens| > 0 {
      ExpandedLength(nlp, tokens[..|tokens| - 1]);
    }
  }

  /** Every token is in `expanded`. */
  lemma {:induction false} ExpandedHasTokens(nlp: Nlp, tokens: seq<string>)
    ensures forall i :: 0 <= i < |tokens| ==> tokens[i] in Expanded(nlp, tokens)
  {
    if |tokens| > 0 {
      var n := |tokens|;
      var front, t := tokens[..n - 1], tokens[n - 1];
      var e := Expanded(nlp, front);
      ExpandedHasTokens(nlp, front);
      assert Expanded(nlp, tokens) == e + [t] + Extra(nlp, t);
      forall i | 0 <= i < n ensures tokens[i] in e + [t] + Extra(nlp, t) {
        if i < n - 1 {
          assert tokens[i] == front[i];
        }
      }
    }
  }

  /** Every extra name of every token is in `expanded`. */
  lemma {:induction false} ExpandedHasExtras(nlp: Nlp, tokens: seq<string>)
    ensures forall i, x :: 0 <= i < |tokens| && x in Extra(nlp, tokens[i]) ==> x in Expanded(nlp, tokens)
  {
    if |tokens| > 0 {
      var n := |tokens|;
      var front, t := tokens[..n - 1], tokens[n - 1];
      var e := Expanded(nlp, front);
      ExpandedHasExtras(nlp, front);
      assert Expanded(nlp, tokens) == e + [t] + Extra(nlp, t);
      forall i, x | 0 <= i < n && x in Extra(nlp, tokens[i]) ensures x in e + [t] + Extra(nlp, t) {
        if i < n - 1 {
          assert tokens[i] == front[i];
        }
      }
    }
  }

  /** Everything in `expanded` is a token or one of that token's extra
      names. */
  lemma {:induction false} ExpandedFromExtra(nlp: Nlp, tokens: seq<string>, w: string)
    requires w in Expanded(nlp, tokens)
    ensures exists i :: 0 <= i < |tokens| && (w == tokens[i] || w in Extra(nlp, tokens[i]))
  {
    var n := |tokens|;
    var front, t := tokens[..n - 1], tokens[n - 1];
    var e := Expanded(nlp, front);
    assert Expanded(nlp, tokens) == e + [t] + Extra(nlp, t);
    if w in e {
      ExpandedFromExtra(nlp, front, w);
      var i :| 0 <= i < n - 1 && (w == front[i] || w in Extra(nlp, front[i]));
      assert front[i] == tokens[i];
    } else {
      assert w == tokens[n - 1] || w in Extra(nlp, tokens[n - 1]);
    }
  }

  /** Everything in `expanded` is a token or a lemma name of a token's
      synsets. */
  lemma {:induction false} ExpandedFrom(nlp: Nlp, tokens: seq<string>, w: string)
    requires nlp.Valid()
    requires w in Expanded(nlp, tokens)
    ensures exists i :: 0 <= i < |tokens| && (w == tokens[i] || w in WordHelper.LemmaNames(nlp.synsets(tokens[i])))
  {
    var n := |tokens|;
    var front, t := tokens[..n - 1], tokens[n - 1];
    var e, x := Expanded(nlp, front), Extra(nlp, t);
    assert Expanded(nlp, tokens) == e + [t] + x;
    if w in e {
      ExpandedFrom(nlp, front, w);
      var i :| 0 <= i < n - 1 && (w == front[i] || w in WordHelper.LemmaNames(nlp.synsets(front[i])));
      assert front[i] == tokens[i];
    } else if w == t {
      assert w == tokens[n - 1];
    } else {
      var s := WordHelper.LemmaNames(nlp.synsets(t));
      var names := nlp.order(s);
      var k :| 0 <= k < |x| && x[k] == w;
      assert names[k] == w;
      assert Lists(names, s);
      ListedAt(names, s, k);
      assert w in WordHelper.LemmaNames(nlp.synsets(tokens[n - 1]));
    }
  }

  /** A term is in the expanded query exactly when it is a token or one of
      that token's extra names. */
  lemma ExpandsQueryMembers(nlp: Nlp, tokens: seq<string>)
    requires nlp.Valid()
    ensures forall w :: w in ExpandsQuery(nlp, tokens) <==>
      exists i :: (0 <= i < |tokens| && (w == tokens[i] || w in Extra(nlp, tokens[i])))
  {
    var e := Expanded(nlp, tokens);
    var r := ExpandsQuery(nlp, tokens);
    assert Lists(r, Elems(e));
    ExpandedHasTokens(nlp, tokens);
    ExpandedHasExtras(nlp, tokens);
    forall w ensures w in r <==> w in e {
      assert w in r <==> w in Elems(r);
      assert w in e <==> w in Elems(e);
    }
    forall w | w in e ensures exists i :: (0 <= i < |tokens| && (w == tokens[i] || w in Extra(nlp, tokens[i]))) {
      ExpandedFromExtra(nlp, tokens, w);
    }
  }

  /** The expanded query lists each term once, holds exactly the input tokens
      and their extra names (so every token's first four synonyms are added),
      adds only lemma names of the tokens' synsets, and has at most five terms
      per token. */
  lemma ExpandsQuerySpec(nlp: Nlp, tokens: seq<string>)
    requires nlp.Valid()
    ensures Distinct(ExpandsQuery(nlp, tokens))
    ensures forall w :: w in ExpandsQuery(nlp, tokens) <==>
      exists i :: (0 <= i < |tokens| && (w == tokens[i] || w in Extra(nlp, tokens[i])))
    ensures forall i :: 0 <= i < |tokens| ==> tokens[i] in ExpandsQuery(nlp, tokens)
    ensures forall w :: w in ExpandsQuery(nlp, tokens) ==> exists i :: (0 <= i < |tokens| &&
      (w == tokens[i] || w in WordHelper.LemmaNames(nlp.synsets(tokens[i]))))
    ensures |ExpandsQuery(nlp, tokens)| <= (1 + SynonymsLimit) * |tokens|
  {
    var e := Expanded(nlp, tokens);
    var r := ExpandsQuery(nlp, tokens);
    assert Lists(r, Elems(e));
    ExpandedHasTokens(nlp, tokens);
    forall i | 0 <= i < |tokens| ensures tokens[i] in r {
      var k :| 0 <= k < |e| && e[k] == tokens[i];
      assert tokens[i] in Elems(r);
    }
    forall w | w in r ensures exists i :: (0 <= i < |tokens| &&
      (w == tokens[i] || w in WordHelper.LemmaNames(nlp.synsets(tokens[i]))))
    {
      assert w in Elems(r);
      var k :| 0 <= k < |e| && e[k] == w;
      ExpandedFrom(nlp, tokens, w);
    }
    ListsCard(r, Elems(e));
    ElemsCard(e);
    ExpandedLength(nlp, tokens);
    ExpandsQueryMembers(nlp, tokens);
  }

  /** `clean_text`: lower-case, delete special characters, tokenize, drop
      stopwords, lemmatize, expand, and join the terms with single spaces. */
  function CleanTerms(nlp: Nlp, text: string): seq<string> {
    var tokens := nlp.tokenize(StripSpecials(nlp.lower(text)));
    ExpandsQuery(nlp, Lemmatize(DropStopwords(tokens, nlp.stopwords), nlp.lemmatize))
  }

  function CleanText(nlp: Nlp, text: string): string {
    Text.Join(CleanTerms(nlp, text), " ")
  }

  /** When every term is a non-empty run of non-whitespace characters,
      `str.split()` of the cleaned text gives back exactly the terms. */
  lemma CleanTextSplits(nlp: Nlp, text: string)
    requires forall i :: 0 <= i < |CleanTerms(nlp, text)| ==>
      |CleanTerms(nlp, text)[i]| > 0 && Text.NoSpace(CleanTerms(nlp, text)[i])
    ensures Text.Split(CleanText(nlp, text)) == CleanTerms(nlp, text)
  {
    Text.SplitJoin(CleanTerms(nlp, text));
  }
}
