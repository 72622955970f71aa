/** The natural-language resources the pipeline consults, taken as given:
    none of them is modelled, each is an uninterpreted function or set. */
module Nltk {
  import opened Seqs

  /** The order in which Python happens to iterate a `set` of strings. */
  type SetOrder = set<string> -> seq<string>

  /** `xs` enumerates `s`: every member exactly once. */
  predicate Lists(xs: seq<string>, s: set<string>) {
    Distinct(xs) && Elems(xs) == s
  }

  /** An enumeration lists a set with as many positions as the set has members. */
  lemma ListsCard(xs: seq<string>, s: set<string>)
    requires Lists(xs, s)
    ensures |xs| == |s|
  {
    ElemsCard(xs);
  }

  /** A position of an enumeration holds a member of the set. */
  lemma ListedAt(xs: seq<string>, s: set<string>, k: nat)
    requires Lists(xs, s) && k < |xs|
    ensures xs[k] in s
  {
    assert xs[k] in Elems(xs);
  }

  /** Every member of the set sits at some position of an enumeration of it. */
  lemma ListedIndex(xs: seq<string>, s: set<string>, w: string) returns (k: nat)
    requires Lists(xs, s) && w in s
    ensures k < |xs| && xs[k] == w
  {
    assert w in Elems(xs);
    var j :| 0 <= j < |xs| && xs[j] == w;
    k := j;
  }

  /** NLTK and the Python string methods the preprocessing calls:
      `lower` is `str.lower`, `tokenize` is `word_tokenize`, `isAlpha` is
      `str.isalpha`, `stopwords` is `stopwords.words('english')`, `synsets`
      gives, for a word, the lemma names of each WordNet synset in order,
      `lemmatize` is `WordNetLemmatizer().lemmatize` and `order` is the
      iteration order of a Python set. */
  datatype Nlp = Nlp(
    lower: string -> string,
    tokenize: string -> seq<string>,
    isAlpha: string -> bool,
    stopwords: set<string>,
    synsets: string -> seq<seq<string>>,
    lemmatize: string -> string,
    order: SetOrder)
  {
    /** Every set is iterated as an enumeration of its members. */
    ghost predicate Valid() {
      forall s :: Lists(order(s), s)
    }
  }
}
