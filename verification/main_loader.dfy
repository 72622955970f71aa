/** `load_documents` of src/main.py: the first 250 entries of papers.json are
    loaded, each gets its file-name stem as id, its file content and that
    content's `clean_text`, and the list is split into source and suspicious
    documents. Reading a file is an oracle `read`; `None` stands for a file
    that cannot be opened, which stops the load with that file name. */
module MainLoader {
  import opened Wrappers
  import opened Seqs
  import opened Nltk
  import opened FileHelper
  import TextCleaner

  /** `json.load(f)[:250]`. */
  const LoadLimit: nat := 250

  /** An entry after the loop body: `doc['id']`, `doc['content']` and
      `doc['cleaned_content']` added to the JSON entry. */
  datatype Loaded = Loaded(entry: Document, id: string, content: string, cleanedContent: string)

  /** The slice `[:250]`. */
  function Head(entries: seq<Document>): (r: seq<Document>)
    ensures |r| == if |entries| <= LoadLimit then |entries| else LoadLimit
    ensures r <= entries
  {
    if |entries| <= LoadLimit then entries else entries[..LoadLimit]
  }

  /** The loop over the entries, stopping at the first file that cannot be
      read; `clean` is the text cleaner. */
  function LoadAll(entries: seq<Document>, clean: string -> string, read: Document -> Option<string>)
    : Result<seq<Loaded>, string>
  {
    if |entries| == 0 then Success([])
    else
      var d := entries[|entries| - 1];
      match LoadAll(entries[..|entries| - 1], clean, read)
      case Failure(e) => Failure(e)
      case Success(ls) =>
        match read(d)
        case None => Failure(d.filename)
        case Some(c) => Success(ls + [Loaded(d, Stem(d.filename), c, clean(c))])
  }

  /** The load fails exactly when some entry cannot be read, and then names
      the first such entry. */
  lemma {:induction false} LoadAllFails(entries: seq<Document>, clean: string -> string, read: Document -> Option<string>)
    ensures LoadAll(entries, clean, read).Failure? <==> exists i :: 0 <= i < |entries| && read(entries[i]).None?
    ensures LoadAll(entries, clean, read).Failure? ==> exists i :: (0 <= i < |entries| && read(entries[i]).None?
      && LoadAll(entries, clean, read).error == entries[i].filename
      && forall j :: 0 <= j < i ==> read(entries[j]).Some?)
  {
    if |entries| > 0 {
      var n := |entries|;
      var front := entries[..n - 1];
      LoadAllFails(front, clean, read);
      assert forall i :: 0 <= i < n - 1 ==> front[i] == entries[i];
      if LoadAll(front, clean, read).Failure? {
        var i :| 0 <= i < n - 1 && read(front[i]).None? && LoadAll(front, clean, read).error == front[i].filename
          && forall j :: 0 <= j < i ==> read(front[j]).Some?;
        assert read(entries[i]).None?;
      } else if read(entries[n - 1]).None? {
        assert forall j :: 0 <= j < n - 1 ==> read(entries[j]).Some?;
      }
    }
  }

  /** A successful load has one document per entry, in order, whose id is the
      file-name stem, whose content is what was read and whose cleaned content
      is the cleaner's output for it. */
  lemma {:induction false} LoadAllLoads(entries: seq<Document>, clean: string -> string, read: Document -> Option<string>)
    ensures LoadAll(entries, clean, read).Success? ==> var ls := LoadAll(entries, clean, read).value;
      |ls| == |entries| && forall i :: 0 <= i < |ls| ==>
        ls[i].entry == entries[i] && ls[i].id == Stem(entries[i].filename)
        && read(entries[i]) == Some(ls[i].content) && ls[i].cleanedContent == clean(ls[i].content)
  {
    if |entries| > 0 {
      var n := |entries|;
      var front := entries[..n - 1];
      LoadAllLoads(front, clean, read);
      assert forall i :: 0 <= i < n - 1 ==> front[i] == entries[i];
    }
  }

  /** `clean_text` with the given NLTK resources. */
  function Cleaner(nlp: Nlp): string -> string {
    c => TextCleaner.CleanText(nlp, c)
  }

  function Entries(ls: seq<Loaded>): seq<Document> {
    Map(ls, (l: Loaded) => l.entry)
  }

  function IsSourceLoaded(l: Loaded): bool {
    l.entry.docType == SourceType
  }

  function IsSuspiciousLoaded(l: Loaded): bool {
    l.entry.docType == SuspiciousType
  }

  /** `load_documents`: the source and the suspicious documents among the
      first 250 entries. */
  function LoadDocuments(entries: seq<Document>, nlp: Nlp, read: Document -> Option<string>)
    : Result<(seq<Loaded>, seq<Loaded>), string>
  {
    match LoadAll(Head(entries), Cleaner(nlp), read)
    case Failure(e) => Failure(e)
    case Success(ls) => Success((Filter(ls, IsSourceLoaded), Filter(ls, IsSuspiciousLoaded)))
  }

  /** Splitting loaded documents by type: each part, read back as entries,
      is the corresponding `get_*_documents` selection of the entries; the
      parts are disjoint; and ids are carried along unchanged. */
  lemma SplitLoaded(ls: seq<Loaded>)
    requires forall i :: 0 <= i < |ls| ==> ls[i].id == Stem(ls[i].entry.filename)
    ensures Entries(Filter(ls, IsSourceLoaded)) == SourceDocuments(Entries(ls))
    ensures Entries(Filter(ls, IsSuspiciousLoaded)) == SuspiciousDocuments(Entries(ls))
    ensures Elems(Filter(ls, IsSourceLoaded)) !! Elems(Filter(ls, IsSuspiciousLoaded))
    ensures forall l :: l in Filter(ls, IsSourceLoaded) ==> l.id == Stem(l.entry.filename)
    ensures forall l :: l in Filter(ls, IsSuspiciousLoaded) ==> l.id == Stem(l.entry.filename)
  {
    var entry := (l: Loaded) => l.entry;
    FilterMapped(ls, entry, IsSourceLoaded, IsSource);
    FilterMapped(ls, entry, IsSuspiciousLoaded, IsSuspicious);
  }

  /** Once loaded, `source_docs` holds exactly the source-document entries
      among the first 250 and `suspicious_docs` exactly the suspicious ones,
      each in the original order; no document is in both, entries of any
      other type are in neither, and every id is its file-name stem. The load
      fails exactly when one of the first 250 files cannot be read. */
  lemma LoadDocumentsSpec(entries: seq<Document>, nlp: Nlp, read: Document -> Option<string>)
    ensures LoadDocuments(entries, nlp, read).Failure? <==>
      exists i :: 0 <= i < |entries| && i < LoadLimit && read(entries[i]).None?
    ensures LoadDocuments(entries, nlp, read).Success? ==>
      var (source, suspicious) := LoadDocuments(entries, nlp, read).value;
      && Entries(source) == SourceDocuments(Head(entries))
      && Entries(suspicious) == SuspiciousDocuments(Head(entries))
      && Elems(source) !! Elems(suspicious)
      && (forall l :: l in source ==> l.id == Stem(l.entry.filename))
      && (forall l :: l in suspicious ==> l.id == Stem(l.entry.filename))
  {
    var head := Head(entries);
    LoadAllFails(head, Cleaner(nlp), read);
    assert forall i :: 0 <= i < |head| ==> head[i] == entries[i];
    if LoadAll(head, Cleaner(nlp), read).Success? {
      var ls := LoadAll(head, Cleaner(nlp), read).value;
      LoadAllLoads(head, Cleaner(nlp), read);
      assert Entries(ls) == head;
      SplitLoaded(ls);
    }
  }
}
