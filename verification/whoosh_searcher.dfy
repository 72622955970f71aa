/** `WhooshSearcher.search` of src/search/whoosh_searcher.py: every suspicious
    document with cleaned text becomes one result entry; its terms are sent to
    the index in batches of at most 250, at most `top_k` hits are taken per
    batch, and the hits of all batches are merged by document number. The
    index is the `searchBatch` oracle: the ranked hits for the query text of
    one batch. */
module WhooshSearcher {
  import opened Wrappers
  import opened Seqs
  import Text

  /** `max_terms`. */
  const MaxTerms: nat := 250

  /** The default of `search(queries, top_k=10)`. */
  const DefaultTopK: nat := 10

  /** A query document: `get('id')` and `get('cleaned_content')`, either of
      which may be absent. */
  datatype QueryDoc = QueryDoc(id: Option<string>, cleanedContent: Option<string>)

  /** A Whoosh hit: the internal document number, the stored fields the
      result keeps, and the score. */
  datatype Hit = Hit(docnum: nat, id: string, filename: string, score: real)

  /** One converted result: `{'id', 'filename', 'score'}`. */
  datatype Row = Row(id: string, filename: string, score: real)

  /** One entry of the returned list (`search_time` is not modelled). */
  datatype Answer = Answer(queryId: string, results: seq<Row>)

  function Min(a: nat, b: nat): nat {
    if a <= b then a else b
  }

  /** `len(range(0, n, max_terms))`. */
  function BatchCount(n: nat): nat {
    (n + MaxTerms - 1) / MaxTerms
  }

  /** `[terms[i:i + max_terms] for i in range(0, len(terms), max_terms)]`. */
  function Batches(terms: seq<string>): seq<seq<string>> {
    seq(BatchCount(|terms|), k requires 0 <= k < BatchCount(|terms|) =>
      terms[k * MaxTerms .. Min(k * MaxTerms + MaxTerms, |terms|)])
  }

  /** The batches one after the other. */
  function Flatten(batches: seq<seq<string>>): seq<string> {
    if |batches| == 0 then [] else Flatten(batches[..|batches| - 1]) + batches[|batches| - 1]
  }

  /** Batching splits the terms into ceil(n / 250) non-empty pieces of at most
      250 terms whose concatenation, in order, is the term list. */
  lemma BatchesSpec(terms: seq<string>)
    ensures |Batches(terms)| == (|terms| + MaxTerms - 1) / MaxTerms
    ensures forall k :: 0 <= k < |Batches(terms)| ==> 0 < |Batches(terms)[k]| <= MaxTerms
    ensures Flatten(Batches(terms)) == terms
  {
    var b := Batches(terms);
    forall k | 0 <= k < |b| ensures 0 < |b[k]| <= MaxTerms {
      assert k * MaxTerms < |terms|;
    }
    FlattenPrefix(terms, |b|);
    assert b[..|b|] == b;
    assert |b| * MaxTerms >= |terms|;
    assert terms[..|terms|] == terms;
  }

  /** The first `k` batches cover the first `min(250k, n)` terms. */
  lemma {:induction false} FlattenPrefix(terms: seq<string>, k: nat)
    requires k <= BatchCount(|terms|)
    ensures Flatten(Batches(terms)[..k]) == terms[..Min(k * MaxTerms, |terms|)]
  {
    var b := Batches(terms);
    if k > 0 {
      FlattenPrefix(terms, k - 1);
      assert b[..k][..k - 1] == b[..k - 1];
      assert (k - 1) * MaxTerms < |terms|;
      var lo := (k - 1) * MaxTerms;
      var hi := Min(k * MaxTerms, |terms|);
      assert b[k - 1] == terms[lo..hi];
      assert terms[..lo] + terms[lo..hi] == terms[..hi];
    }
  }

  function DocnumOf(h: Hit): nat {
    h.docnum
  }

  /** The last hit of `hits` with document number `d`: the value a dict
      keyed by document number holds for `d` after every hit was written to
      it in order. */
  function LastHit(hits: seq<Hit>, d: nat): (h: Hit)
    requires d in KeysOf(hits, DocnumOf)
    ensures h in hits && h.docnum == d
    ensures exists i :: (0 <= i < |hits| && hits[i] == h
      && forall k :: i < k < |hits| ==> hits[k].docnum != d)
  {
    var front, last := hits[..|hits| - 1], hits[|hits| - 1];
    if last.docnum == d then last
    else
      assert d in KeysOf(front, DocnumOf) by {
        var i :| 0 <= i < |hits| && hits[i].docnum == d;
        assert front[i] == hits[i];
      }
      var h := LastHit(front, d);
      assert forall k :: 0 <= k < |front| ==> front[k] == hits[k];
      h
  }

  /** `list({r.docnum: r for r in all_results}.values())`, stated directly:
      one hit per document number, in order of each number's first
      appearance, the one kept being the last appended. */
  function Dedupe(hits: seq<Hit>): (r: seq<Hit>)
    ensures |r| == |KeepFirstBy(hits, DocnumOf)|
  {
    var firsts := KeepFirstBy(hits, DocnumOf);
    KeepFirstByProperties(hits, DocnumOf);
    seq(|firsts|, j requires 0 <= j < |firsts| =>
      assert firsts[j].docnum in KeysOf(firsts, DocnumOf);
      LastHit(hits, firsts[j].docnum))
  }

  /** The numbers of a list of hits. */
  function Docnums(hits: seq<Hit>): (ds: seq<nat>)
    ensures |ds| == |hits| && forall i :: 0 <= i < |hits| ==> ds[i] == hits[i].docnum
  {
    seq(|hits|, i requires 0 <= i < |hits| => hits[i].docnum)
  }

  /** The dict comprehension as Python runs it: a key is appended to the
      dict's order when first seen, and every hit overwrites the value of its
      key. */
  method UniqueResults(hits: seq<Hit>) returns (r: seq<Hit>)
    ensures r == Dedupe(hits)
  {
    var keys: seq<nat> := [];
    var values: map<nat, Hit> := map[];
    for i := 0 to |hits|
      invariant DictState(hits[..i], keys, values)
    {
      var h := hits[i];
      assert hits[..i + 1] == hits[..i] + [h];
      DictStep(hits[..i], h, keys, values);
      if h.docnum !in values {
        keys := keys + [h.docnum];
      }
      values := values[h.docnum := h];
    }
    assert hits[..|hits|] == hits;
    DictValues(hits, keys, values);
    r := seq(|keys|, j requires 0 <= j < |keys| => values[keys[j]]);
  }

  /** What the dict holds after the hits `seen`: its key order, its keys and
      the value of each key. */
  ghost predicate DictState(seen: seq<Hit>, keys: seq<nat>, values: map<nat, Hit>) {
    && keys == Docnums(KeepFirstBy(seen, DocnumOf))
    && values.Keys == KeysOf(seen, DocnumOf)
    && forall d :: d in values ==> values[d] == LastHit(seen, d)
  }

  lemma DictStep(seen: seq<Hit>, h: Hit, keys: seq<nat>, values: map<nat, Hit>)
    requires DictState(seen, keys, values)
    ensures DictState(seen + [h], if h.docnum in values then keys else keys + [h.docnum],
      values[h.docnum := h])
  {
    KeysSnoc(seen, h, DocnumOf);
    OrderStep(seen, h);
    forall d | d in values[h.docnum := h]
      ensures values[h.docnum := h][d] == LastHit(seen + [h], d)
    {
      LastHitStep(seen, h, d);
    }
  }

  /** A new number joins the key order at the end; a known one changes nothing. */
  lemma OrderStep(seen: seq<Hit>, h: Hit)
    ensures Docnums(KeepFirstBy(seen + [h], DocnumOf)) ==
      Docnums(KeepFirstBy(seen, DocnumOf)) + (if h.docnum in KeysOf(seen, DocnumOf) then [] else [h.docnum])
  {
    var s := seen + [h];
    assert s[..|s| - 1] == seen;
    var firsts := KeepFirstBy(seen, DocnumOf);
    if h.docnum !in KeysOf(seen, DocnumOf) {
      assert KeepFirstBy(s, DocnumOf) == firsts + [h];
      assert Docnums(firsts + [h]) == Docnums(firsts) + [h.docnum];
    } else {
      assert KeepFirstBy(s, DocnumOf) == firsts;
    }
  }

  /** The newest hit is the last one of its number; other numbers keep theirs. */
  lemma LastHitStep(seen: seq<Hit>, h: Hit, d: nat)
    requires d == h.docnum || d in KeysOf(seen, DocnumOf)
    ensures d in KeysOf(seen + [h], DocnumOf)
    ensures LastHit(seen + [h], d) == if d == h.docnum then h else LastHit(seen, d)
  {
    var s := seen + [h];
    assert s[..|s| - 1] == seen;
    KeysSnoc(seen, h, DocnumOf);
  }

  lemma DictValues(hits: seq<Hit>, keys: seq<nat>, values: map<nat, Hit>)
    requires DictState(hits, keys, values)
    ensures |keys| == |Dedupe(hits)|
    ensures forall j :: 0 <= j < |keys| ==> keys[j] in values && values[keys[j]] == Dedupe(hits)[j]
  {
    var firsts := KeepFirstBy(hits, DocnumOf);
    KeepFirstByProperties(hits, DocnumOf);
    forall j | 0 <= j < |keys| ensures keys[j] in values && values[keys[j]] == Dedupe(hits)[j] {
      assert keys[j] == firsts[j].docnum;
      assert firsts[j].docnum in KeysOf(firsts, DocnumOf);
    }
  }

  /** The merged hits carry each document number once, lose none, keep the
      last hit per number and order them by first appearance. */
  lemma DedupeSpec(hits: seq<Hit>)
    ensures DistinctKeys(Dedupe(hits), DocnumOf)
    ensures KeysOf(Dedupe(hits), DocnumOf) == KeysOf(hits, DocnumOf)
    ensures forall j :: 0 <= j < |Dedupe(hits)| ==>
      Dedupe(hits)[j] == LastHit(hits, Dedupe(hits)[j].docnum)
    ensures forall j :: 0 <= j < |Dedupe(hits)| ==>
      Dedupe(hits)[j].docnum == KeepFirstBy(hits, DocnumOf)[j].docnum
  {
    var firsts := KeepFirstBy(hits, DocnumOf);
    var r := Dedupe(hits);
    KeepFirstByProperties(hits, DocnumOf);
    assert forall j :: 0 <= j < |r| ==> r[j].docnum == firsts[j].docnum;
    forall d | d in KeysOf(hits, DocnumOf) ensures d in KeysOf(r, DocnumOf) {
      var j :| 0 <= j < |firsts| && firsts[j].docnum == d;
      assert r[j].docnum == d;
    }
  }

  /** The text of a query document: `get('cleaned_content', '').strip()`. */
  function QueryText(q: QueryDoc): string {
    Text.Strip(q.cleanedContent.GetOr(""))
  }

  function HasQueryText(q: QueryDoc): bool {
    QueryText(q) != ""
  }

  /** `searcher.search(query, limit=top_k)`: the best `topK` of the ranked
      hits, or all of them when there are fewer. */
  function Top(ranked: seq<Hit>, topK: nat): (r: seq<Hit>)
    ensures |r| == Min(topK, |ranked|)
    ensures r <= ranked
  {
    if |ranked| <= topK then ranked else ranked[..topK]
  }

  /** The hits of all batches, in batch order (`all_results`). */
  function AllHits(batches: seq<seq<string>>, searchBatch: string -> seq<Hit>, topK: nat): seq<Hit> {
    if |batches| == 0 then []
    else AllHits(batches[..|batches| - 1], searchBatch, topK) + Top(searchBatch(Text.Join(batches[|batches| - 1], " ")), topK)
  }

  /** Each batch adds at most `topK` hits. */
  lemma {:induction false} AllHitsBound(batches: seq<seq<string>>, searchBatch: string -> seq<Hit>, topK: nat)
    ensures |AllHits(batches, searchBatch, topK)| <= topK * |batches|
  {
    if |batches| > 0 {
      var n := |batches|;
      AllHitsBound(batches[..n - 1], searchBatch, topK);
      var last := Top(searchBatch(Text.Join(batches[n - 1], " ")), topK);
      assert |AllHits(batches, searchBatch, topK)| == |AllHits(batches[..n - 1], searchBatch, topK)| + |last|;
      assert topK * n == topK * (n - 1) + topK;
    }
  }

  function ToRow(h: Hit): Row {
    Row(h.id, h.filename, h.score)
  }

  /** The entry for one query with text. */
  function AnswerFor(q: QueryDoc, searchBatch: string -> seq<Hit>, topK: nat): Answer {
    var unique := Dedupe(AllHits(Batches(Text.Split(QueryText(q))), searchBatch, topK));
    Answer(q.id.GetOr(""), seq(|unique|, j requires 0 <= j < |unique| => ToRow(unique[j])))
  }

  /** Merging never adds hits: an entry holds at most `top_k` results per
      batch of its terms. */
  lemma AnswerBound(q: QueryDoc, searchBatch: string -> seq<Hit>, topK: nat)
    ensures |AnswerFor(q, searchBatch, topK).results| <= topK * BatchCount(|Text.Split(QueryText(q))|)
  {
    var terms := Text.Split(QueryText(q));
    var batches := Batches(terms);
    var hits := AllHits(batches, searchBatch, topK);
    AllHitsBound(batches, searchBatch, topK);
    DedupeShorter(hits);
    assert |AnswerFor(q, searchBatch, topK).results| == |Dedupe(hits)|;
  }

  /** Merging by document number never lengthens the hit list. */
  lemma DedupeShorter(hits: seq<Hit>)
    ensures |Dedupe(hits)| <= |hits|
  {
    KeepFirstBySubseq(hits, DocnumOf);
    SubseqShorter(KeepFirstBy(hits, DocnumOf), hits);
  }

  /** `search(queries, top_k)`. */
  function Search(queries: seq<QueryDoc>, searchBatch: string -> seq<Hit>, topK: nat): seq<Answer> {
    Collect(queries, HasQueryText, q => AnswerFor(q, searchBatch, topK))
  }

  /** The loop of `search`: a query without text is skipped (`continue`),
      any other appends its entry. */
  function Collect<A>(queries: seq<QueryDoc>, keep: QueryDoc -> bool, answer: QueryDoc -> A): seq<A> {
    if |queries| == 0 then []
    else
      var q := queries[|queries| - 1];
      Collect(queries[..|queries| - 1], keep, answer) + (if keep(q) then [answer(q)] else [])
  }

  lemma {:induction false} CollectFilters<A>(queries: seq<QueryDoc>, keep: QueryDoc -> bool, answer: QueryDoc -> A)
    ensures |Collect(queries, keep, answer)| == |Filter(queries, keep)|
    ensures forall j :: 0 <= j < |Collect(queries, keep, answer)| ==>
      Collect(queries, keep, answer)[j] == answer(Filter(queries, keep)[j])
  {
    if |queries| > 0 {
      var front, q := queries[..|queries| - 1], queries[|queries| - 1];
      CollectFilters(front, keep, answer);
      assert queries == front + [q];
      FilterAppend(front, [q], keep);
      assert Filter([q], keep) == if keep(q) then [q] else [];
    }
  }

  function QueryIdOf(q: QueryDoc): string {
    q.id.GetOr("")
  }

  /** One entry per query whose stripped text is non-empty, in input order,
      each carrying that query's id (or "" when it has none) and the merged
      hits of its batches; queries with no text produce nothing. */
  lemma SearchSkipsEmpty(queries: seq<QueryDoc>, searchBatch: string -> seq<Hit>, topK: nat)
    ensures |Search(queries, searchBatch, topK)| == |Filter(queries, HasQueryText)|
    ensures forall j :: 0 <= j < |Search(queries, searchBatch, topK)| ==>
      Search(queries, searchBatch, topK)[j] == AnswerFor(Filter(queries, HasQueryText)[j], searchBatch, topK)
    ensures forall j :: 0 <= j < |Search(queries, searchBatch, topK)| ==>
      Search(queries, searchBatch, topK)[j].queryId == QueryIdOf(Filter(queries, HasQueryText)[j])
  {
    CollectFilters(queries, HasQueryText, q => AnswerFor(q, searchBatch, topK));
  }
}
