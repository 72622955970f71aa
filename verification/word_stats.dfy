/** The corpus statistics scripts src/analyzer.py, src/analyzer_words.py and
    src/chart.py: each reads the source documents, keeps their content words,
    and counts and sorts the words. Reading a document is an oracle `read`
    (`None` when the file cannot be read). The thread pools of analyzer.py and
    chart.py are modelled as a sequential scan in list order. */
module WordStats {
  import opened Wrappers
  import opened Seqs
  import opened Nltk
  import opened Frequency
  import opened FileHelper
  import Preprocess

  /** `process_document` of src/analyzer.py and src/analyzer_words.py: the
      kept and removed words of the document's text, or `None` when reading
      it raises. */
  function ProcessDocument(nlp: Nlp, read: Document -> Option<string>, d: Document)
    : (r: Option<(seq<string>, seq<string>)>)
    ensures r.None? <==> read(d).None?
    ensures r.Some? ==> forall i :: 0 <= i < |r.value.0| ==>
      nlp.isAlpha(r.value.0[i]) && r.value.0[i] !in nlp.stopwords
    ensures r.Some? ==> forall i :: 0 <= i < |r.value.1| ==>
      nlp.isAlpha(r.value.1[i]) && r.value.1[i] in nlp.stopwords
  {
    match read(d)
    case None => None
    case Some(text) =>
      var tokens := nlp.tokenize(nlp.lower(text));
      Some((Filter(tokens, Preprocess.IsContent(nlp)), Filter(tokens, Preprocess.IsStopword(nlp))))
  }

  /** For a readable document the kept list holds every content word of its
      tokens and the removed list every stopword, each as often as it occurs
      and in token order. */
  lemma ProcessDocumentSelects(nlp: Nlp, read: Document -> Option<string>, d: Document)
    ensures ProcessDocument(nlp, read, d).Some? ==> var tokens := nlp.tokenize(nlp.lower(read(d).value));
      && Selects(ProcessDocument(nlp, read, d).value.0, tokens, Preprocess.IsContent(nlp))
      && Selects(ProcessDocument(nlp, read, d).value.1, tokens, Preprocess.IsStopword(nlp))
  {
    if read(d).Some? {
      var tokens := nlp.tokenize(nlp.lower(read(d).value));
      FilterSelects(tokens, Preprocess.IsContent(nlp));
      FilterSelects(tokens, Preprocess.IsStopword(nlp));
    }
  }

  /** The aggregation loop of src/analyzer.py: the lists of each document are
      appended in turn; a document whose processing raised is reported and
      skipped. */
  function Gather(docs: seq<Document>, nlp: Nlp, read: Document -> Option<string>): (seq<string>, seq<string>) {
    if |docs| == 0 then ([], [])
    else
      var prior := Gather(docs[..|docs| - 1], nlp, read);
      match ProcessDocument(nlp, read, docs[|docs| - 1])
      case None => prior
      case Some(lists) => (prior.0 + lists.0, prior.1 + lists.1)
  }

  /** Every gathered word is an alphabetic non-stopword, every gathered
      removed word an alphabetic stopword. */
  lemma {:induction false} GatherKinds(docs: seq<Document>, nlp: Nlp, read: Document -> Option<string>)
    ensures forall i :: 0 <= i < |Gather(docs, nlp, read).0| ==>
      nlp.isAlpha(Gather(docs, nlp, read).0[i]) && Gather(docs, nlp, read).0[i] !in nlp.stopwords
    ensures forall i :: 0 <= i < |Gather(docs, nlp, read).1| ==>
      nlp.isAlpha(Gather(docs, nlp, read).1[i]) && Gather(docs, nlp, read).1[i] in nlp.stopwords
  {
    if |docs| > 0 {
      GatherKinds(docs[..|docs| - 1], nlp, read);
    }
  }

  function IsReadable(read: Document -> Option<string>): Document -> bool {
    d => read(d).Some?
  }

  /** A document that cannot be read contributes nothing: gathering all
      documents is gathering only the readable ones. */
  lemma {:induction false} GatherSkipsFailures(docs: seq<Document>, nlp: Nlp, read: Document -> Option<string>)
    ensures Gather(docs, nlp, read) == Gather(Filter(docs, IsReadable(read)), nlp, read)
  {
    if |docs| > 0 {
      var n := |docs|;
      var front, d := docs[..n - 1], docs[n - 1];
      assert docs == front + [d];
      FilterAppend(front, [d], IsReadable(read));
      GatherSkipsFailures(front, nlp, read);
      var kept := Filter(front, IsReadable(read));
      if read(d).Some? {
        assert Filter([d], IsReadable(read)) == [d];
        assert (kept + [d])[..|kept|] == kept;
      } else {
        assert Filter([d], IsReadable(read)) == [];
        assert kept + [] == kept;
      }
    }
  }

  /** What src/analyzer.py's `analyze_word_distribution` returns: the
      gathered words, the vocabulary size and the frequencies sorted by
      decreasing count, for the words and for the removed stopwords. */
  datatype Stats = Stats(allTokens: seq<string>, vocabSize: nat, sortedFreq: seq<Item>,
                         stopVocabSize: nat, sortedStopFreq: seq<Item>)

  function Summarize(words: seq<string>, stops: seq<string>): Stats {
    Stats(words, |CounterItems(words)|, SortByCount(CounterItems(words)),
          |CounterItems(stops)|, SortByCount(CounterItems(stops)))
  }

  /** `analyze_word_distribution` of src/analyzer.py: only source documents
      are processed. */
  function AnalyzeWordDistribution(entries: seq<Document>, nlp: Nlp, read: Document -> Option<string>): Stats {
    var lists := Gather(SourceDocuments(entries), nlp, read);
    Summarize(lists.0, lists.1)
  }

  /** Entries of any other type than source-document make no difference. */
  lemma AnalyzeIgnoresOthers(entries: seq<Document>, nlp: Nlp, read: Document -> Option<string>)
    ensures AnalyzeWordDistribution(entries, nlp, read)
      == AnalyzeWordDistribution(SourceDocuments(entries), nlp, read)
  {
    FilterAll(SourceDocuments(entries), IsSource);
  }

  /** The vocabulary sizes are the numbers of distinct words, each sorted list
      has one item per distinct word with its number of occurrences, highest
      count first, and the counts add up to the number of words. */
  lemma AnalyzeStats(entries: seq<Document>, nlp: Nlp, read: Document -> Option<string>)
    ensures var stats := AnalyzeWordDistribution(entries, nlp, read);
      && stats.allTokens == Gather(SourceDocuments(entries), nlp, read).0
      && stats.vocabSize == |Elems(stats.allTokens)|
      && stats.stopVocabSize == |Elems(Gather(SourceDocuments(entries), nlp, read).1)|
      && NonIncreasing(stats.sortedFreq) && NonIncreasing(stats.sortedStopFreq)
      && Total(stats.sortedFreq) == |stats.allTokens|
      && Total(stats.sortedStopFreq) == |Gather(SourceDocuments(entries), nlp, read).1|
      && (forall i :: 0 <= i < |stats.sortedFreq| ==>
            stats.sortedFreq[i].1 == multiset(stats.allTokens)[stats.sortedFreq[i].0] > 0)
  {
    var lists := Gather(SourceDocuments(entries), nlp, read);
    CounterWords(lists.0);
    CounterWords(lists.1);
    SortedFrequencies(lists.0);
    SortedFrequencies(lists.1);
  }

  /** src/analyzer_words.py processes at most this many source documents. */
  const DocLimit: nat := 500

  /** `[doc for doc in ... if doc.get('type') == 'source-document'][:500]`. */
  function FirstSources(entries: seq<Document>): (r: seq<Document>)
    ensures |r| == if |SourceDocuments(entries)| <= DocLimit then |SourceDocuments(entries)| else DocLimit
    ensures r <= SourceDocuments(entries)
    ensures forall d :: d in r ==> d in entries && d.docType == SourceType
  {
    var sources := SourceDocuments(entries);
    if |sources| <= DocLimit then sources else sources[..DocLimit]
  }

  /** The loop of src/analyzer_words.py, which catches nothing: the first
      document that cannot be read aborts the analysis with its file name. */
  function GatherStrict(docs: seq<Document>, nlp: Nlp, read: Document -> Option<string>)
    : Result<(seq<string>, seq<string>), string>
  {
    if |docs| == 0 then Success(([], []))
    else
      var d := docs[|docs| - 1];
      match GatherStrict(docs[..|docs| - 1], nlp, read)
      case Failure(e) => Failure(e)
      case Success(prior) =>
        match ProcessDocument(nlp, read, d)
        case None => Failure(d.filename)
        case Some(lists) => Success((prior.0 + lists.0, prior.1 + lists.1))
  }

  /** The strict loop fails exactly when some document cannot be read, naming
      the first one; when it succeeds it gathers what the forgiving loop of
      src/analyzer.py gathers. */
  lemma {:induction false} GatherStrictSpec(docs: seq<Document>, nlp: Nlp, read: Document -> Option<string>)
    ensures GatherStrict(docs, nlp, read).Failure? <==> exists i :: 0 <= i < |docs| && read(docs[i]).None?
    ensures GatherStrict(docs, nlp, read).Failure? ==> exists i :: (0 <= i < |docs| && read(docs[i]).None?
      && GatherStrict(docs, nlp, read).error == docs[i].filename
      && forall j :: 0 <= j < i ==> read(docs[j]).Some?)
    ensures GatherStrict(docs, nlp, read).Success? ==> GatherStrict(docs, nlp, read).value == Gather(docs, nlp, read)
  {
    GatherStrictFails(docs, nlp, read);
    GatherStrictGathers(docs, nlp, read);
  }

  lemma {:induction false} GatherStrictFails(docs: seq<Document>, nlp: Nlp, read: Document -> Option<string>)
    ensures GatherStrict(docs, nlp, read).Failure? <==> exists i :: 0 <= i < |docs| && read(docs[i]).None?
    ensures GatherStrict(docs, nlp, read).Failure? ==> exists i :: (0 <= i < |docs| && read(docs[i]).None?
      && GatherStrict(docs, nlp, read).error == docs[i].filename
      && forall j :: 0 <= j < i ==> read(docs[j]).Some?)
  {
    if |docs| > 0 {
      var n := |docs|;
      var front := docs[..n - 1];
      GatherStrictFails(front, nlp, read);
      assert forall i :: 0 <= i < n - 1 ==> front[i] == docs[i];
      if GatherStrict(front, nlp, read).Failure? {
        var i :| 0 <= i < n - 1 && read(front[i]).None? && GatherStrict(front, nlp, read).error == front[i].filename
          && forall j :: 0 <= j < i ==> read(front[j]).Some?;
        assert read(docs[i]).None?;
      } else if read(docs[n - 1]).None? {
        assert forall j :: 0 <= j < n - 1 ==> read(docs[j]).Some?;
      }
    }
  }

  lemma {:induction false} GatherStrictGathers(docs: seq<Document>, nlp: Nlp, read: Document -> Option<string>)
    ensures GatherStrict(docs, nlp, read).Success? ==> GatherStrict(docs, nlp, read).value == Gather(docs, nlp, read)
  {
    if |docs| > 0 {
      GatherStrictGathers(docs[..|docs| - 1], nlp, read);
    }
  }

  /** What src/analyzer_words.py's `analyze_word_distribution` returns: the
      words, the vocabulary sizes and the two `FreqDist`s, whose items come in
      order of first occurrence. */
  datatype FreqStats = FreqStats(allTokens: seq<string>, vocabSize: nat, freq: seq<Item>,
                                 stopVocabSize: nat, stopFreq: seq<Item>)

  function AnalyzeWords(entries: seq<Document>, nlp: Nlp, read: Document -> Option<string>)
    : Result<FreqStats, string>
  {
    match GatherStrict(FirstSources(entries), nlp, read)
    case Failure(e) => Failure(e)
    case Success(lists) =>
      Success(FreqStats(lists.0, |CounterItems(lists.0)|, CounterItems(lists.0),
                        |CounterItems(lists.1)|, CounterItems(lists.1)))
  }

  /** `sorted(sorted_freq.items(), key=lambda x: x[1], reverse=True)` in the
      script's `main`. */
  function SortedDesc(freq: seq<Item>): seq<Item> {
    SortByCount(freq)
  }

  /** src/analyzer_words.py fails exactly when one of the first 500 source
      documents cannot be read; otherwise the vocabulary size is the number
      of distinct words, the frequencies count every word, and the list
      `main` sorts is non-increasing in count. */
  lemma AnalyzeWordsSpec(entries: seq<Document>, nlp: Nlp, read: Document -> Option<string>)
    ensures AnalyzeWords(entries, nlp, read).Failure? <==>
      exists d :: d in FirstSources(entries) && read(d).None?
    ensures AnalyzeWords(entries, nlp, read).Success? ==> var stats := AnalyzeWords(entries, nlp, read).value;
      && stats.allTokens == Gather(FirstSources(entries), nlp, read).0
      && stats.vocabSize == |Elems(stats.allTokens)|
      && Total(stats.freq) == |stats.allTokens|
      && NonIncreasing(SortedDesc(stats.freq))
      && Total(SortedDesc(stats.freq)) == |stats.allTokens|
  {
    var docs := FirstSources(entries);
    GatherStrictSpec(docs, nlp, read);
    if GatherStrict(docs, nlp, read).Success? {
      var lists := GatherStrict(docs, nlp, read).value;
      CounterWords(lists.0);
      CounterTotal(lists.0);
      SortedFrequencies(lists.0);
    } else {
      var i :| 0 <= i < |docs| && read(docs[i]).None?;
      assert docs[i] in docs;
    }
  }

  /** `process_document` of src/chart.py: all the content words of a readable
      source document, as often as they occur and in order; any other
      document, and any failure, gives []. */
  function ChartProcessDocument(nlp: Nlp, read: Document -> Option<string>, d: Document): (r: seq<string>)
    ensures d.docType != SourceType || read(d).None? ==> r == []
    ensures forall i :: 0 <= i < |r| ==> nlp.isAlpha(r[i]) && r[i] !in nlp.stopwords
    ensures d.docType == SourceType && read(d).Some? ==>
      Selects(r, nlp.tokenize(nlp.lower(read(d).value)), Preprocess.IsContent(nlp))
  {
    if d.docType == SourceType then
      match read(d)
      case None => []
      case Some(text) => Preprocess.ContentWords(nlp, text)
    else []
  }

  /** The aggregation of src/chart.py over every entry. */
  function ChartGather(docs: seq<Document>, nlp: Nlp, read: Document -> Option<string>): seq<string> {
    if |docs| == 0 then []
    else ChartGather(docs[..|docs| - 1], nlp, read) + ChartProcessDocument(nlp, read, docs[|docs| - 1])
  }

  /** src/chart.py collects exactly the words src/analyzer.py keeps: reading
      every entry and discarding non-source ones inside `process_document`
      gathers what gathering the source documents does. */
  lemma {:induction false} ChartGatherSources(docs: seq<Document>, nlp: Nlp, read: Document -> Option<string>)
    ensures ChartGather(docs, nlp, read) == Gather(SourceDocuments(docs), nlp, read).0
  {
    ChartGatherFilter(docs, nlp, read);
  }

  lemma {:induction false} ChartGatherFilter(docs: seq<Document>, nlp: Nlp, read: Document -> Option<string>)
    ensures ChartGather(docs, nlp, read) == Gather(Filter(docs, IsSource), nlp, read).0
  {
    if |docs| > 0 {
      var n := |docs|;
      var front, d := docs[..n - 1], docs[n - 1];
      assert docs == front + [d];
      FilterAppend(front, [d], IsSource);
      ChartGatherFilter(front, nlp, read);
      var sources := Filter(front, IsSource);
      if d.docType == SourceType {
        assert Filter([d], IsSource) == [d];
        assert (sources + [d])[..|sources|] == sources;
      } else {
        assert Filter([d], IsSource) == [];
        assert sources + [] == sources;
      }
    }
  }

  /** What src/chart.py's `analyze_word_distribution` returns. */
  datatype ChartStats = ChartStats(allTokens: seq<string>, vocabSize: nat, sortedFreq: seq<Item>)

  function ChartAnalyze(entries: seq<Document>, nlp: Nlp, read: Document -> Option<string>): ChartStats {
    var words := ChartGather(entries, nlp, read);
    ChartStats(words, |CounterItems(words)|, SortByCount(CounterItems(words)))
  }

  /** The chart's statistics agree with src/analyzer.py's, and so the
      vocabulary size is the number of distinct words and the sorted counts
      are non-increasing and add up to the number of words. */
  lemma ChartAnalyzeSpec(entries: seq<Document>, nlp: Nlp, read: Document -> Option<string>)
    ensures var chart := ChartAnalyze(entries, nlp, read);
      && chart.allTokens == AnalyzeWordDistribution(entries, nlp, read).allTokens
      && chart.sortedFreq == AnalyzeWordDistribution(entries, nlp, read).sortedFreq
      && chart.vocabSize == |Elems(chart.allTokens)|
      && NonIncreasing(chart.sortedFreq)
      && Total(chart.sortedFreq) == |chart.allTokens|
  {
    ChartGatherSources(entries, nlp, read);
    var words := ChartGather(entries, nlp, read);
    CounterWords(words);
    SortedFrequencies(words);
  }
}
