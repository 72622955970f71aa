/** src/file_helper.py: the corpus entries of papers.json, the ids the loader
    derives from their file names, and the lookups over the loaded list. The
    loading itself (JSON, XML titles, file contents) is not modelled; the
    functions here take the loaded list as a parameter. */
module FileHelper {
  import opened Wrappers
  import opened Seqs

  const SourceType: string := "source-document"
  const SuspiciousType: string := "suspicious-document"

  /** One entry of papers.json: its `filename`, its `type`, and, for a
      suspicious document, the ground-truth `src_file` list (`None` when the
      key is absent). */
  datatype Document = Document(filename: string, docType: string, srcFile: Option<seq<string>>)

  /** The Python exceptions `calculate_found_percentage` and
      `get_source_documents_from_suspicious` can raise. */
  datatype PyError = TypeError | KeyError | ZeroDivisionError

  /** `filename.split('.')[0]`: the longest prefix holding no '.'. */
  function Stem(filename: string): (r: string)
    ensures r <= filename
    ensures '.' !in r
    ensures |r| < |filename| ==> filename[|r|] == '.'
  {
    if |filename| == 0 || filename[0] == '.' then ""
    else [filename[0]] + Stem(filename[1..])
  }

  /** `f'{stem}.xml'`, the name of a document's XML companion. */
  function XmlName(filename: string): string {
    Stem(filename) + ".xml"
  }

  /** A stem followed by an extension gives the stem back. */
  lemma {:induction false} StemOfExtended(stem: string, ext: string)
    requires '.' !in stem
    ensures Stem(stem + "." + ext) == stem
  {
    if |stem| > 0 {
      assert (stem + "." + ext)[1..] == stem[1..] + "." + ext;
      StemOfExtended(stem[1..], ext);
    }
  }

  /** The XML companion has the same stem as the document it belongs to. */
  lemma XmlNameStem(filename: string)
    ensures Stem(XmlName(filename)) == Stem(filename)
  {
    assert XmlName(filename) == Stem(filename) + "." + "xml";
    StemOfExtended(Stem(filename), "xml");
  }

  predicate IsDigit(c: char) {
    '0' <= c <= '9'
  }

  function Digit(d: nat): (c: char)
    requires d < 10
    ensures IsDigit(c) && (c as int) - ('0' as int) == d
  {
    ('0' as int + d) as char
  }

  /** `f'{n}'` for a natural number: its decimal digits, most significant
      first, without leading zeros. */
  function Decimal(n: nat): (r: string)
    ensures |r| > 0
    ensures forall i :: 0 <= i < |r| ==> IsDigit(r[i])
  {
    if n < 10 then [Digit(n)] else Decimal(n / 10) + [Digit(n % 10)]
  }

  /** The number a string of decimal digits denotes. */
  function ParseDecimal(s: string): nat
    requires forall i :: 0 <= i < |s| ==> IsDigit(s[i])
  {
    if |s| == 0 then 0
    else
      var c := s[|s| - 1];
      assert IsDigit(c);
      ParseDecimal(s[..|s| - 1]) * 10 + ((c as int) - ('0' as int))
  }

  /** Reading the digits back gives the number. */
  lemma {:induction false} DecimalRoundTrip(n: nat)
    ensures ParseDecimal(Decimal(n)) == n
  {
    if n >= 10 {
      var r := Decimal(n);
      assert r[..|r| - 1] == Decimal(n / 10);
      DecimalRoundTrip(n / 10);
    }
  }

  /** The part of `s` after its last '-' (all of `s` when there is none). */
  function AfterLastDash(s: string): (r: string)
    ensures |r| <= |s| && r == s[|s| - |r|..] && '-' !in r
  {
    if |s| == 0 || s[|s| - 1] == '-' then ""
    else AfterLastDash(s[..|s| - 1]) + [s[|s| - 1]]
  }

  lemma {:induction false} AfterLastDashOf(a: string, b: string)
    requires '-' !in b
    ensures AfterLastDash(a + "-" + b) == b
  {
    if |b| > 0 {
      var s := a + "-" + b;
      assert s[..|s| - 1] == a + "-" + b[..|b| - 1];
      AfterLastDashOf(a, b[..|b| - 1]);
      assert b == b[..|b| - 1] + [b[|b| - 1]];
    }
  }

  /** `f'{file_name_without_extension}-{idx}'`, the id file_helper.py gives
      the entry at list index `idx`. */
  function UniqueId(filename: string, idx: nat): string {
    Stem(filename) + "-" + Decimal(idx)
  }

  /** The segment after the last '-' of an id is the decimal index, so the
      index can be read back from the id. */
  lemma {:induction false} UniqueIdIndex(filename: string, idx: nat)
    ensures AfterLastDash(UniqueId(filename, idx)) == Decimal(idx)
    ensures ParseDecimal(AfterLastDash(UniqueId(filename, idx))) == idx
  {
    var d := Decimal(idx);
    assert '-' !in d by {
      forall i | 0 <= i < |d| ensures d[i] != '-' {
        assert IsDigit(d[i]);
      }
    }
    AfterLastDashOf(Stem(filename), d);
    DecimalRoundTrip(idx);
  }

  /** Entries at different indices get different ids, whatever their file
      names. */
  lemma UniqueIdsDiffer(f1: string, i: nat, f2: string, j: nat)
    requires i != j
    ensures UniqueId(f1, i) != UniqueId(f2, j)
  {
    UniqueIdIndex(f1, i);
    UniqueIdIndex(f2, j);
  }

  /** The ids of the loaded list, one per entry in list order. */
  function LoadedIds(docs: seq<Document>): (ids: seq<string>)
    ensures |ids| == |docs|
  {
    seq(|docs|, i requires 0 <= i < |docs| => UniqueId(docs[i].filename, i))
  }

  /** No two loaded entries share an id. */
  lemma LoadedIdsDistinct(docs: seq<Document>)
    ensures Distinct(LoadedIds(docs))
  {
    var ids := LoadedIds(docs);
    forall i, j | 0 <= i < j < |ids| ensures ids[i] != ids[j] {
      UniqueIdsDiffer(docs[i].filename, i, docs[j].filename, j);
    }
  }

  function IsSuspicious(d: Document): bool {
    d.docType == SuspiciousType
  }

  function IsSource(d: Document): bool {
    d.docType == SourceType
  }

  /** `get_suspicious_documents`: the suspicious-document entries, in list
      order. */
  function SuspiciousDocuments(docs: seq<Document>): (r: seq<Document>)
    ensures forall d :: d in r <==> d in docs && d.docType == SuspiciousType
    ensures Selects(r, docs, IsSuspicious)
  {
    FilterSelects(docs, IsSuspicious);
    Filter(docs, IsSuspicious)
  }

  /** `get_source_documents`: the source-document entries, in list order. */
  function SourceDocuments(docs: seq<Document>): (r: seq<Document>)
    ensures forall d :: d in r <==> d in docs && d.docType == SourceType
    ensures Selects(r, docs, IsSource)
  {
    FilterSelects(docs, IsSource);
    Filter(docs, IsSource)
  }

  /** `get_document_by_file_name`: the first entry with that file name, or
      `None` when no entry has it. */
  function DocumentByFileName(docs: seq<Document>, name: string): (r: Option<Document>)
    ensures r.None? <==> forall i :: 0 <= i < |docs| ==> docs[i].filename != name
    ensures r.Some? ==> exists i :: (0 <= i < |docs| && docs[i] == r.value && r.value.filename == name
      && forall j :: 0 <= j < i ==> docs[j].filename != name)
  {
    if |docs| == 0 then None
    else if docs[0].filename == name then Some(docs[0])
    else
      var r := DocumentByFileName(docs[1..], name);
      assert r.Some? ==> exists i :: (0 <= i < |docs[1..]| && docs[1..][i] == r.value
        && forall j :: 0 <= j < i ==> docs[1..][j].filename != name);
      assert forall i :: 1 <= i < |docs| ==> docs[i] == docs[1..][i - 1];
      r
  }

  /** The union of the `src_file` lists of `susp`, scanned in order; an entry
      without the key raises `KeyError`. */
  function SrcUnion(susp: seq<Document>): Result<set<string>, PyError> {
    if |susp| == 0 then Success({})
    else
      var d := susp[|susp| - 1];
      match SrcUnion(susp[..|susp| - 1])
      case Failure(e) => Failure(e)
      case Success(s) =>
        if d.srcFile.None? then Failure(KeyError) else Success(s + Elems(d.srcFile.value))
  }

  /** The scan fails exactly when some entry lacks `src_file`, and then with
      `KeyError`; otherwise it holds exactly the names some entry lists. */
  lemma {:induction false} SrcUnionSpec(susp: seq<Document>)
    ensures SrcUnion(susp).Failure? <==> exists d :: d in susp && d.srcFile.None?
    ensures SrcUnion(susp).Failure? ==> SrcUnion(susp).error == KeyError
    ensures SrcUnion(susp).Success? ==> forall w :: w in SrcUnion(susp).value <==>
      exists d :: d in susp && d.srcFile.Some? && w in d.srcFile.value
  {
    if |susp| > 0 {
      var front, d := susp[..|susp| - 1], susp[|susp| - 1];
      SrcUnionSpec(front);
      assert susp == front + [d];
      forall x ensures x in susp <==> x in front || x == d {
      }
      if SrcUnion(susp).Success? {
        var s := SrcUnion(front).value;
        forall w ensures w in SrcUnion(susp).value <==>
          exists x :: x in susp && x.srcFile.Some? && w in x.srcFile.value
        {
          if w in Elems(d.srcFile.value) {
            var k :| 0 <= k < |d.srcFile.value| && d.srcFile.value[k] == w;
            assert d in susp && w in d.srcFile.value;
          }
          if w in d.srcFile.value {
            var k :| 0 <= k < |d.srcFile.value| && d.srcFile.value[k] == w;
            assert w in Elems(d.srcFile.value);
          }
        }
      }
    }
  }

  /** `get_source_documents_from_suspicious`: the set of every file name the
      suspicious entries list as a source. */
  function SourcesFromSuspicious(docs: seq<Document>): Result<set<string>, PyError> {
    SrcUnion(SuspiciousDocuments(docs))
  }

  /** The result is the union of `src_file` over the suspicious entries;
      a suspicious entry without `src_file` makes the call raise `KeyError`,
      and entries of other types are never looked at. */
  lemma SourcesFromSuspiciousSpec(docs: seq<Document>)
    ensures SourcesFromSuspicious(docs).Failure? <==>
      exists d :: d in docs && d.docType == SuspiciousType && d.srcFile.None?
    ensures SourcesFromSuspicious(docs).Failure? ==> SourcesFromSuspicious(docs).error == KeyError
    ensures SourcesFromSuspicious(docs).Success? ==> forall w :: w in SourcesFromSuspicious(docs).value <==>
      exists d :: d in docs && d.docType == SuspiciousType && d.srcFile.Some? && w in d.srcFile.value
  {
    SrcUnionSpec(SuspiciousDocuments(docs));
  }

  /** `calculate_found_percentage`: `found / len(src_file)` for the first
      entry with the given file name. No such entry makes the subscript of
      `None` raise `TypeError`, a missing `src_file` raises `KeyError`, and an
      empty one raises `ZeroDivisionError`. */
  function FoundPercentage(docs: seq<Document>, name: string, found: int): (r: Result<real, PyError>)
    ensures r == Failure(TypeError) <==> DocumentByFileName(docs, name).None?
    ensures r == Failure(KeyError) <==>
      DocumentByFileName(docs, name).Some? && DocumentByFileName(docs, name).value.srcFile.None?
    ensures r == Failure(ZeroDivisionError) <==>
      DocumentByFileName(docs, name).Some? && DocumentByFileName(docs, name).value.srcFile == Some([])
    ensures r.Success? ==> var d := DocumentByFileName(docs, name).value;
      d.srcFile.Some? && |d.srcFile.value| > 0 && r.value * (|d.srcFile.value| as real) == found as real
  {
    match DocumentByFileName(docs, name)
    case None => Failure(TypeError)
    case Some(d) =>
      match d.srcFile
      case None => Failure(KeyError)
      case Some(sources) =>
        if |sources| == 0 then Failure(ZeroDivisionError)
        else Success(found as real / |sources| as real)
  }
}
