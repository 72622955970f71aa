# elastic-search-engine: a Dafny model of the text pipeline

The repository is a plagiarism-detection search engine over the PAN-PC-11
corpus. Suspicious documents are cleaned and expanded with WordNet synonyms,
then searched against an index of source documents. This project models the
deterministic part of that pipeline. The NLP and search libraries are not
modelled; they appear as parameters:

- **Corpus bookkeeping** (`FileHelper`, `MainLoader`). This covers the
  entries of `papers.json` and the ids derived from file-name stems. It also
  covers the source/suspicious split, the lookup by file name, the
  ground-truth `src_file` union and `calculate_found_percentage`, with its
  three Python errors. `load_documents` of `src/main.py` stops with the first
  unreadable file.
- **Stopword partition and word statistics** (`Preprocess`, `Frequency`,
  `WordStats`). This covers the three copies of `preprocess_text` and the
  `Counter`/`FreqDist` tables with their stable descending sort. It also
  models how `src/analyzer.py`, `src/analyzer_words.py` and `src/chart.py`
  each choose the documents to read and handle a read failure.
- **Synonyms** (`WordHelper`, `SynonymFilter`, `Motor1Analyzer`,
  `TextCleaner`):
  - `get_synonyms` is modelled as a transition on its cache. The filter
    as it runs carries that cache from token to token, starting empty.
  - The Whoosh `NLTKSynonymFilter` is one model that covers all three of
    its verbatim copies:
    - src/motor_1/analyzer.py:14-22
    - src/motor-1/whoosh/analyzer.py:13-21
    - src/motor-2/analyzer.py:14-22
  - Also modelled: `RemoveDuplicateFilter`, and the chain without it.
  - `clean_text` / `expands_query` is modelled with its limit of four
    synonyms.
- **Named entities** (`Motor2Analyzer`). `NLTKNamedEntityFilter` is modelled,
  including `traverse_tree`'s clamped running position.
- **Query planning** (`WhooshSearcher`, `Buscador`):
  - `WhooshSearcher.search` skips empty queries and batches at most 250
    terms per query. It takes at most `top_k` hits per batch and
    deduplicates hits by docnum, with the last write winning.
  - The two interactive bigram scripts are modelled as well.
- **Metrics** (`Metrics`). This covers the Precision@k/Recall@k tables and
  their 0.0 placeholders.

The following are oracles, fields of `Nltk.Nlp`:
- NLTK's tokenizer, `str.lower`, `str.isalpha` and the stopword list;
- WordNet's synsets and the lemmatizer;
- the iteration order of a Python `set` (`order`; `Nlp.Valid()` says that it
  lists every set exactly once).

A file read is `read: Document -> Option<string>`, and `None` is a file that
cannot be opened. `ne_chunk`, the Whoosh front end and the Whoosh searcher
are function parameters.

## Model

| member | source | states |
|---|---|---|
| WordHelper.LemmaNamesMembers | src/word_helper.py:20-23 | a name is collected exactly when some synset of the word lists it |
| WordHelper.Synonyms | src/word_helper.py:20-24 | the queried word is never among its own synonyms, and a word with no synsets has the empty set (no error) |
| WordHelper.SynonymsMembers | src/word_helper.py:20-24 | a name is a synonym exactly when it differs from the word and some synset of the word lists it |
| WordHelper.GetSynonymsStep | src/word_helper.py:16-26 | a hit returns the stored set, leaves the cache alone and does not consult WordNet; a miss consults WordNet once and returns the synonyms; afterwards `cache[word]` is the returned set and no other entry changes |
| WordHelper.GetSynonyms | src/word_helper.py:16-26 | the cache method: on a hit the stored set is returned unchanged; on a miss the result is every lemma name of every synset except the word itself; afterwards the cache maps the word to the result |
| WordHelper.GetSynonymsIdempotent | src/word_helper.py:17-25 | a second call with the same word returns the same set, does not change the cache and does not consult WordNet |
| WordHelper.GetSynonymsCoherent | src/word_helper.py:17-25 | from a cache that holds WordNet's answer for every stored word, a call returns WordNet's answer, never the word itself, and keeps the cache that way |
| SynonymFilter.ExpandAt | src/motor_1/analyzer.py:14-22 | the i-th input token is emitted at its offset and is followed by one copy per synonym; each copy equals the token except for `.text` |
| SynonymFilter.ExpandSize | src/motor_1/analyzer.py:15-22 | the output is exactly as long as the token blocks laid end to end |
| SynonymFilter.OffsetIncreasing | src/motor_1/analyzer.py:15-22 | the blocks of later tokens start later, so tokens are emitted in input order |
| SynonymFilter.ExpandLength | src/motor-2/analyzer.py:15-22 | the output length is the sum over input tokens of 1 + the number of WordNet synonyms |
| SynonymFilter.ExpandKeepsOriginals | src/motor-1/whoosh/analyzer.py:15-16 | the input tokens form an in-order subsequence of the output |
| SynonymFilter.NoSelfCopy | src/motor-1/whoosh/analyzer.py:17-21 | no copy emitted after a token has that token's text |
| SynonymFilter.ChainKeepsRepeats | src/motor-1/whoosh/analyzer.py:23-28 | with no dedupe stage, a text the front end yields twice is still repeated after the filter |
| SynonymFilter.ExpandTexts | src/motor-2/analyzer.py:14-22 | the emitted texts are exactly the input texts together with their synonyms |
| SynonymFilter.ExpandCachedCoherent | src/motor-2/analyzer.py:14-22 | running the filter with the `get_synonyms` cache carried from token to token, starting from a cache that holds WordNet's answer for every stored word, emits the same tokens as expanding with WordNet's synonyms, and leaves the cache in that state |
| SynonymFilter.ExpandFromEmptyCache | src/word_helper.py:14-26 | the process starts with an empty cache, which is coherent, so the filter as it runs equals the expansion with WordNet's synonyms |
| Motor1Analyzer.RemoveDuplicates | src/motor_1/analyzer.py:24-30 | the output is an in-order subsequence with pairwise distinct texts and the same set of texts, and each kept token is the first one with its text |
| Motor1Analyzer.RemoveDuplicatesIdempotent | src/motor_1/analyzer.py:24-30 | applying the dedupe filter twice equals applying it once |
| Motor1Analyzer.AnalyzeTexts | src/motor_1/analyzer.py:32-38 | the full chain emits each text once, and its texts are the front end's texts together with their synonyms |
| Motor2Analyzer.LabelsStep | src/motor-2/analyzer.py:45-51 | one leaf writes its label at the running position only while that position is inside the map |
| Motor2Analyzer.WriteChunk | src/motor-2/analyzer.py:43-48 | a labelled subtree advances the position by its leaf count, capped at the map's length, and tags those positions with its label |
| Motor2Analyzer.TraverseTree | src/motor-2/analyzer.py:36-53 | the map keeps its length; the final `w_idx` is min(n, leaf count); position i < n holds the label of the i-th leaf overall, which is none for a plain leaf or past the last leaf |
| Motor2Analyzer.NamedEntityFilter | src/motor-2/analyzer.py:27-58 | the output has the input's length and order; every token is unchanged except `ent_type`, which is set exactly where the map holds a label |
| Preprocess.Partition | src/analyzer.py:31-42 | kept = the alphabetic non-stopwords and removed = the alphabetic stopwords, each in input order |
| Preprocess.PreprocessText | src/analyzer.py:20-42 | the lists are taken from the tokens of the lower-cased text; every kept token is alphabetic and not a stopword; every removed token is an alphabetic stopword |
| Preprocess.PartitionSplits | src/analyzer.py:34-40 | kept and removed are disjoint in-order subsequences; non-alphabetic tokens go to neither, so their lengths add up to the number of alphabetic tokens |
| Preprocess.PartitionCount | src/analyzer.py:34-40 | every token lands in exactly one of kept, removed or skipped |
| Preprocess.ContentWords | src/chart.py:15-29 | the result is every alphabetic non-stopword of the tokens, as often as it occurs and in tokenizer order, and nothing else |
| Preprocess.ContentFilterIdempotent | src/chart.py:27 | filtering the filtered tokens again changes nothing |
| Frequency.CounterWords | src/analyzer.py:97-98 | the counter holds each distinct word once with its multiplicity (at least 1), so `len(Counter)` is the vocabulary size |
| Frequency.CounterTotal | src/chart.py:83 | the counts add up to the number of tokens |
| Frequency.SortedFrequencies | src/analyzer.py:100-103 | the sorted items are a permutation of the counter's items, one per distinct word; they are non-increasing in count, sum to the token count, and each count is the word's multiplicity |
| Frequency.SortByCountSpec | src/analyzer_words.py:143-144 | `sorted(..., reverse=True)` on the count returns a permutation that is non-increasing in count, and keeps items with equal counts in their original order (stable) |
| Frequency.SortTotal | src/chart.py:83-86 | sorting does not change the sum of the counts |
| WordStats.ProcessDocument | src/analyzer.py:44-66 | a document fails exactly when its file cannot be read; otherwise its word lists have the kinds `preprocess_text` promises |
| WordStats.ProcessDocumentSelects | src/analyzer.py:44-66 | for a readable document, the kept list is every content word of its tokens and the removed list every stopword, each as often as it occurs and in token order |
| WordStats.GatherKinds | src/analyzer.py:84-95 | every aggregated word is an alphabetic non-stopword, and every aggregated removed word is an alphabetic stopword |
| WordStats.GatherSkipsFailures | src/analyzer.py:87-95 | a failed document is skipped: the aggregate equals the aggregate of the readable documents |
| WordStats.AnalyzeIgnoresOthers | src/analyzer.py:81-82 | entries whose type is not source-document make no difference |
| WordStats.AnalyzeStats | src/analyzer.py:68-103 | the vocabulary sizes are the numbers of distinct words and distinct stopwords; both sorted tables are non-increasing and sum to their list lengths; each count is the word's multiplicity |
| WordStats.FirstSources | src/analyzer_words.py:79-80 | the first min(500, number of source documents) source-document entries, in order |
| WordStats.GatherStrictSpec | src/analyzer_words.py:82-88 | the loop fails exactly when a document cannot be read, and names the first such document; otherwise it gathers what the skipping aggregate gathers |
| WordStats.AnalyzeWordsSpec | src/analyzer_words.py:66-95 | the run fails exactly when one of the first 500 source documents is unreadable; otherwise the vocabulary size is the number of distinct words, and the frequency table sums to the word count and sorts into non-increasing order |
| WordStats.ChartProcessDocument | src/chart.py:31-51 | a non-source or unreadable document yields [] instead of raising; a readable source document yields every alphabetic non-stopword of its tokens, as often as it occurs and in order |
| WordStats.ChartGatherSources | src/chart.py:64-80 | reading every entry and discarding the non-source ones collects exactly the words gathered from the source documents |
| WordStats.ChartAnalyzeSpec | src/chart.py:53-88 | the chart's words and sorted table equal src/analyzer.py's; the vocabulary is the number of distinct words; the sorted counts are non-increasing and sum to the word count |
| TextCleaner.StripSpecials | src/preprocessing/text_cleaner.py:32-33 | only ASCII letters and whitespace remain; every occurrence of such a character is kept, in order |
| TextCleaner.DropStopwords | src/preprocessing/text_cleaner.py:38-40 | no stopword survives; every occurrence of a non-stopword does, in order |
| TextCleaner.Extra | src/preprocessing/text_cleaner.py:20-21 | the names added for a token are the first `synonyms_limit` = 4 of its synsets' lemma names in set iteration order, or all of them when there are fewer |
| TextCleaner.ExpandedLength | src/preprocessing/text_cleaner.py:17-21 | the expanded list has at most 5 entries per token |
| TextCleaner.ExpandedHasTokens | src/preprocessing/text_cleaner.py:17-21 | every token is in the expanded list |
| TextCleaner.ExpandedHasExtras | src/preprocessing/text_cleaner.py:17-21 | every name added for every token is in the expanded list |
| TextCleaner.ExpandedFromExtra | src/preprocessing/text_cleaner.py:17-21 | every entry of the expanded list is a token or one of the names added for that token |
| TextCleaner.ExpandedFrom | src/preprocessing/text_cleaner.py:17-21 | every entry of the expanded list is a token or a lemma name of that token's synsets |
| TextCleaner.ExpandsQueryMembers | src/preprocessing/text_cleaner.py:11-23 | a term is in the output exactly when it is an input token or one of the names added for an input token |
| TextCleaner.ExpandsQuerySpec | src/preprocessing/text_cleaner.py:11-23 | the output has no duplicates; it holds exactly the input tokens and their first four synonyms each; it contains every input token and only tokens and lemma names of their synsets; and it has at most 5·n terms |
| TextCleaner.CleanTextSplits | src/preprocessing/text_cleaner.py:44-46 | when every term is a non-empty run of non-space characters, `str.split()` of the joined text gives back the terms |
| Text.Strip | src/search/whoosh_searcher.py:29 | the stripped text is a slice of the text with only whitespace cut off on either side, and it neither starts nor ends with whitespace |
| Text.StripEmpty | src/search/whoosh_searcher.py:29-32 | the stripped text is empty exactly when the text is all whitespace |
| Text.SplitWords | src/search/whoosh_searcher.py:35 | `str.split()` yields non-empty words without whitespace |
| Text.SplitJoin | src/search/whoosh_searcher.py:35-42 | splitting a space-joined list of non-empty, space-free words gives the list back |
| WhooshSearcher.BatchesSpec | src/search/whoosh_searcher.py:35-36 | there are ceil(n / 250) batches; each is non-empty with at most 250 terms; concatenated in order, they are the term list |
| WhooshSearcher.LastHit | src/search/whoosh_searcher.py:47 | the hit stored for a docnum is the last hit with that docnum: no later hit has it |
| WhooshSearcher.UniqueResults | src/search/whoosh_searcher.py:47 | the dict loop computes the dedupe |
| WhooshSearcher.DedupeSpec | src/search/whoosh_searcher.py:47 | each docnum appears once and the set of docnums is unchanged; each docnum keeps its last hit, placed at its first occurrence |
| WhooshSearcher.CollectFilters | src/search/whoosh_searcher.py:28-32 | the loop yields one entry per kept query, in input order |
| WhooshSearcher.SearchSkipsEmpty | src/search/whoosh_searcher.py:16-62 | one entry per query whose stripped `cleaned_content` is non-empty, in input order, carrying its id or '' and the merged hits of its batches |
| WhooshSearcher.Top | src/search/whoosh_searcher.py:44 | a batch search yields the first min(top_k, n) of the n ranked hits |
| WhooshSearcher.AllHitsBound | src/search/whoosh_searcher.py:39-45 | the batches together add at most top_k hits each |
| WhooshSearcher.DedupeShorter | src/search/whoosh_searcher.py:47 | merging by document number never lengthens the hit list |
| WhooshSearcher.AnswerBound | src/search/whoosh_searcher.py:35-56 | an entry holds at most top_k results per batch of its terms |
| Buscador.Bigrams | src/motor-2/whoosh_buscador.py:35 | n tokens give max(0, n-1) pairs; the i-th pair is (t_i, t_{i+1}) |
| Buscador.Motor2Queries | src/motor-2/whoosh_buscador.py:29-52 | "" exits before any search; otherwise there is one query per bigram, in order, with text "w1 w2", over title/content/entity, OR-grouped |
| Buscador.Motor1Queries | src/motor_1/whoosh_buscador.py:30-50 | "" exits before any search; otherwise only the first min(3, bigrams) pairs are searched, in order, over title/content, AND-grouped |
| Buscador.QueryWordsAreContent | src/motor-2/whoosh_buscador.py:33-35 | both words of every bigram are alphabetic non-stopwords |
| Buscador.NoPairNoSearch | src/motor-2/whoosh_buscador.py:35-50 | a non-empty input with at most one content word runs no search in either script |
| FileHelper.Stem | src/file_helper.py:18 | the stem is the prefix before the first '.' (the whole name when there is none) |
| FileHelper.XmlNameStem | src/file_helper.py:18-19 | the XML companion has the same stem as its document |
| FileHelper.DecimalRoundTrip | src/file_helper.py:37 | reading back the decimal digits of the index gives the index |
| FileHelper.UniqueIdIndex | src/file_helper.py:37 | the part of an id after its last '-' is the decimal index |
| FileHelper.UniqueIdsDiffer | src/file_helper.py:37 | entries at different indices get different ids, whatever their file names |
| FileHelper.LoadedIdsDistinct | src/file_helper.py:15-38 | no two loaded entries share an id |
| FileHelper.SuspiciousDocuments | src/file_helper.py:45-48 | exactly the suspicious-document entries, each as often as it occurs, in list order |
| FileHelper.SourceDocuments | src/file_helper.py:50-53 | exactly the source-document entries, each as often as it occurs, in list order |
| FileHelper.DocumentByFileName | src/file_helper.py:55-58 | the first entry with that file name, or None when no entry has it |
| FileHelper.SrcUnionSpec | src/file_helper.py:61-65 | the scan fails with KeyError exactly when an entry lacks `src_file`; otherwise it holds exactly the listed names |
| FileHelper.SourcesFromSuspiciousSpec | src/file_helper.py:60-67 | the union of `src_file` over the suspicious entries; KeyError exactly when one of them lacks the key; other entries are never looked at |
| FileHelper.FoundPercentage | src/file_helper.py:69-72 | no matching document gives TypeError, a missing `src_file` gives KeyError, an empty one gives ZeroDivisionError; otherwise the result times len(src_file) is `found` |
| MainLoader.Head | src/main.py:26 | at most 250 entries are considered: a prefix of the list |
| MainLoader.LoadAllFails | src/main.py:30-34 | the load fails exactly when an entry cannot be read, and names the first such file |
| MainLoader.LoadAllLoads | src/main.py:30-34 | a successful load has one document per entry, in order; the id is the file-name stem, and the content and cleaned content are the file text and its `clean_text` |
| MainLoader.SplitLoaded | src/main.py:36-37 | each part, read back as entries, is the matching file_helper selection; the parts are disjoint and keep the ids |
| MainLoader.LoadDocumentsSpec | src/main.py:21-39 | fails exactly when one of the first 250 files is unreadable; otherwise source_docs / suspicious_docs are exactly the source / suspicious entries among them, in order, disjoint, with stem ids |
| Metrics.TableAtK | src/evaluation/metrics.py:5-8 | the table's keys are exactly the distinct k values (none for an empty list), each mapped to its metric |
| Metrics.CalculatePrecisionAtK | src/evaluation/metrics.py:1-24 | keys are exactly the distinct k values; every value is the placeholder 0.0 |
| Metrics.CalculateRecallAtK | src/evaluation/metrics.py:10-31 | keys are exactly the distinct k values; every value is the placeholder 0.0 |
| Metrics.CalculateDefaults | src/evaluation/metrics.py:1-17 | with the default `k_values` both tables have keys {2, 4, 6, 8, 10}, all 0.0 |

## Left out

- File, JSON and XML I/O are left out: opening `papers.json`, the module-level corpus load of src/file_helper.py:9-40, and the XML title lookup. The corpus is a list parameter and a file read is the `read` oracle. The `title` and `path` fields are not modelled.
- NLTK, WordNet, the lemmatizer, `ne_chunk`/`pos_tag`, Whoosh's RegexTokenizer/LowercaseFilter/StopFilter, and the query parser and searcher are uninterpreted parameters. Their internals are library code outside the repository.
- Python `set` iteration order is an oracle (`order`) that lists each member once. Because it is a function of the set alone, the model assumes that equal sets iterate alike. CPython's order can also depend on a set's insertion and deletion history, e.g. after the `discard` in src/word_helper.py:24.
- The `ThreadPoolExecutor`/`as_completed` aggregation in src/analyzer.py:84-95 and src/chart.py:70-80 is modelled sequentially, in list order. Completion order is nondeterministic: it changes the order of `all_tokens` but not the counts or the vocabulary. It also changes the order of words with equal counts in the stable `sorted(..., reverse=True)` tables, so `WordStats.ChartAnalyzeSpec`'s equality of the two tables holds for the sequential order only.
- `'results'` in src/search/whoosh_searcher.py:50-54 is a lazy, single-use `map` over Whoosh `Hit` objects, and it is consumed only after the `with self.ix.searcher()` block of line 27 has closed the searcher. The model gives an eager, re-readable sequence of rows. Reading the stored fields through a closed searcher is not modelled.
- `search_time` (src/search/whoosh_searcher.py:39) is a clock reading and is not modelled. The same applies to all `time`/`perf_counter` timing, printing, `input()` prompts, matplotlib plots and `exit(1)`. An empty search is modelled as `None`.
- Elasticsearch (indexers, searchers, the `es_*` scripts), the Whoosh indexers and src/motor-1/medidor.py are not part of this model. They are thin wrappers over servers and libraries.
- The motor_1 scripts import names that src/motor_1/analyzer.py does not define. That import wiring is not modelled.
- Whoosh's RegexTokenizer reuses one Token object, so `list(tokens)` in the entity filter (src/motor-2/analyzer.py:29) holds the same object n times. As written, `original_text` (line 30) is then the last token's text repeated n times, and every token yielded at line 58 carries that last text and the last `ent_type` assigned. The model treats tokens as values, so `NamedEntityFilter`'s promise that tokens are unchanged apart from `ent_type` holds only under that value reading.
- `calculate_found_percentage` divides with Python float division. The model uses exact `real` division.
- Document entries are assumed to carry string `filename` and `type` fields. `doc.get` returning `None` for a missing one is not modelled.
- TextCleaner.Lemmatize: it maps each token to its lemma one to one by construction, so it has no separate contract.
- Buscador.NoPairNoSearch: it follows directly from the two query functions' contracts.
- WordStats.ProcessDocument: src/analyzer.py re-raises the read error, and the aggregation loop catches it. The model returns `None` and skips it in `Gather`; the observable result is the same.
