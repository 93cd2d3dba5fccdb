# RetrievalHelper, modelled in Dafny

This project models the in-memory layer of `RetrievalHelper`, the static helper of the
Retrieval-System search engine. Its scoring code sits on top of this layer. It holds four
process-wide maps:

- the document catalogue: `docIdMap` (id → file name) and `docLengthMap` (id → length);
- the term index `unaryIndexMap` (term → posting list);
- its inversion `docTermFreqMap` (document → (term, tf) entries).

The model makes these four maps the fields of one class, `Retrieval.RetrievalHelper`. It
models the operations that build them and the lookups that read them. It also models the
two line formats the helper handles: the query file and the trec-style result files.

Proved about the model:

- `initMap` builds the catalogue only while `docIdMap` is empty, so a call that accepted no
  file (no txt file, or the first one failing to read) leaves it to be built by a later call.
  It selects exactly the regular files whose extension is `txt`. It gives them ids 1..k in
  listing order. It records for each file the field count of the file's last
  line. A file that fails to read ends the scan.
- `getFileExtension` returns the text after the last dot. It returns `txt` exactly for names
  ending in `.txt` and for the name `txt` itself.
- `getDocId` returns the first match in iteration order, and null when no entry matches. When
  names are distinct, the result does not depend on the order.
- `getDocMapperList` lists the id map entry by entry. Read back as a map, the list is the id
  map itself.
- `readUnaryIndex` loads only while the index is empty, so a later call loads again after a
  parse failure or an empty index file. A later record of a term replaces an earlier one. The doc-term
  map is then derived from the loaded index.
- `getDocTermMap` inverts the index exactly. Every posting appears as a (term, tf) entry in
  its document's list, and every entry comes from such a posting. Each list holds every such
  entry as many times as its posting occurs, so the entry count equals the posting count. No
  list is empty, and every list is sorted.
- `getTermFreqInDoc` returns the tf of the last posting for the document, or 0 when there is
  none. `calculateQueryFrequency` returns the term's multiplicity in the query.
- For `getAvgDocLength`, the model proves the integer sum of `docLengthMap` and its count.
  The sum does not depend on the iteration order.
- A query line `<int> <words>` reads back as that id and those words. A result line splits
  back into its six fields, and its numeric fields parse back to their values.

Java's library behaviour is written out where the code depends on it:

- `String.split("\\s+").length`. An empty line gives 1. A line of whitespace gives 0. Leading
  whitespace adds one field.
- `StringTokenizer` and its default delimiters.
- `String.trim`, which strips every character up to U+0020.
- `lastIndexOf` and `substring`.
- `Integer.parseInt`, with its sign and the 32-bit range.
- The decimal text of an `int`.

Java's `HashMap` iteration order is unspecified. The model handles it in two ways:

- Where the result depends on the order (`getDocId`, `getDocMapperList`, the term loop of
  `getDocTermMap`), the order is a parameter. It must list every key exactly once.
- Where the result does not depend on it (the sort pass, the sum of lengths), the loop takes
  any remaining key.

The natural ordering of `DocumentTermModel` is not part of this model. The sort therefore
takes a comparator `leq`. The properties of the sort assume that `leq` is a total preorder.

Three behaviours of the code that a reader might not expect, which the model follows:

- **Document length.** Line 159 puts the line's field count under the file's id on every
  line, overwriting rather than summing. So the length is the field count of the last line,
  and a file with no lines gets no length entry.
- **Average of an empty catalogue.** Line 277 computes `(double) 0 / 0`, which is NaN; no
  error is raised. The model leaves out the division (see below).
- **IDF fallback.** `getInvertedIndex` (239-244) returns an empty list for an unknown term, so
  it returns null only when a parsed record stored a null list. The model's records always
  carry a list (see below), and so the `IDF_DEFAULT` branch at 344 is never taken.

Layout:

| File | Contents |
|---|---|
| `wrappers.dfy` | `Option` and `Result` |
| `models.dfy` | the records |
| `collections.dfy` | map sums, key enumeration, insertion sort, item-by-item parsing |
| `text.dfy` | the Java string and number operations |
| `postings.dfy` | posting lookups, the index built from records |
| `doc_terms.dfy` | `getDocTermMap` |
| `catalog.dfy` | the `initMap` scan, the id mapper list |
| `reports.dfy` | query lines and result lines |
| `retrieval_helper.dfy` | the class |

## Model

| member | source | states |
|---|---|---|
| Retrieval.RetrievalHelper.constructor | Retrieval-System/src/retrieval/helper/RetrievalHelper.java:46-50 | all four static maps start empty |
| Retrieval.RetrievalHelper.InitMap | Retrieval-System/src/retrieval/helper/RetrievalHelper.java:144-172 | with a non-empty id map, nothing changes. Otherwise the maps become the scan of the listing: ids 1..k for the accepted files in order, their recorded lengths, no other length written except under the id of a file that failed to read. Without read errors, the accepted files are exactly the selected ones. The index maps are untouched |
| Retrieval.RetrievalHelper.RecordLengths | Retrieval-System/src/retrieval/helper/RetrievalHelper.java:155-160 | after reading a file, only its last line's field count remains under its id; a file with no lines adds no entry |
| Catalog.ScanIds | Retrieval-System/src/retrieval/helper/RetrievalHelper.java:147-165 | id keys are exactly 1..k; id j+1 names the j-th accepted file; the next id is k+1; the scan halts exactly when a selected file fails to read |
| Catalog.ScanLengths | Retrieval-System/src/retrieval/helper/RetrievalHelper.java:155-162 | each accepted file's id maps to its last line's field count, or keeps its earlier value when the file has no lines; no other id's length changes, except the id of the file that failed |
| Catalog.ScanBuilds | Retrieval-System/src/retrieval/helper/RetrievalHelper.java:144-168 | the id facts and the length facts together, for the whole listing |
| Catalog.AcceptedWithoutErrors | Retrieval-System/src/retrieval/helper/RetrievalHelper.java:149-165 | without read errors, the files given ids are exactly the txt regular files, in listing order |
| Catalog.ScanAfterHalt | Retrieval-System/src/retrieval/helper/RetrievalHelper.java:166-168 | after the exception that ends the loop, the rest of the listing changes nothing |
| Catalog.ScanIdsInjective | Retrieval-System/src/retrieval/helper/RetrievalHelper.java:162 | distinct file names in the listing give distinct names in the id map |
| Catalog.AcceptedNamesDistinct | Retrieval-System/src/retrieval/helper/RetrievalHelper.java:149-162 | the files given ids come from the listing and keep its names distinct |
| Text.FileExtension | Retrieval-System/src/retrieval/helper/RetrievalHelper.java:250-260 | the result is a dot-free suffix of the name. It is either the whole name or preceded by a dot |
| Text.TxtExtension | Retrieval-System/src/retrieval/helper/RetrievalHelper.java:250-260 | the extension is "txt" if and only if the name is "txt" or ends in ".txt" |
| Text.LastIndexOf | Retrieval-System/src/retrieval/helper/RetrievalHelper.java:256 | the last position holding the character, or -1, with no later occurrence |
| Text.SplitLengthOfJoin | Retrieval-System/src/retrieval/helper/RetrievalHelper.java:158-159 | a line of n words separated by single spaces splits into n fields |
| Retrieval.RetrievalHelper.GetDocMapperList | Retrieval-System/src/retrieval/helper/RetrievalHelper.java:174-183 | one record per id map entry, in iteration order. As many records as entries; read back as a map, they give the id map |
| Catalog.MapperListRoundTrip | Retrieval-System/src/retrieval/helper/RetrievalHelper.java:174-183 | the record list of an enumeration of the id map reads back as the id map and has its size |
| Retrieval.RetrievalHelper.GetDocId | Retrieval-System/src/retrieval/helper/RetrievalHelper.java:185-197 | null exactly when no entry has the name. Otherwise, the key of the first entry in iteration order with that name. When names are distinct, that name's only id |
| Postings.BuildIndexMap | Retrieval-System/src/retrieval/helper/RetrievalHelper.java:211-219 | the map is the records put in turn |
| Postings.IndexOfLastWins | Retrieval-System/src/retrieval/helper/RetrievalHelper.java:213-219 | the keys are exactly the records' terms; a repeated term keeps the list of its last record |
| Retrieval.RetrievalHelper.ReadUnaryIndex | Retrieval-System/src/retrieval/helper/RetrievalHelper.java:231-237 | with a non-empty index, nothing changes. Otherwise the index becomes the map of the parsed records, and the doc-term map becomes getDocTermMap of that index. A parse failure changes nothing and is reported. The catalogue is untouched |
| Retrieval.RetrievalHelper.GetInvertedIndex | Retrieval-System/src/retrieval/helper/RetrievalHelper.java:239-244 | the stored list for a known term, the empty list otherwise; a function of the state, so it changes nothing |
| DocTerms.GetDocTermMap | Retrieval-System/src/retrieval/helper/RetrievalHelper.java:358-390 | the result is the doc-term map of the index for the given iteration order |
| DocTerms.SortEachList | Retrieval-System/src/retrieval/helper/RetrievalHelper.java:384-386 | every list is replaced by its sorted copy, in any visiting order |
| DocTerms.DocTermMapComplete | Retrieval-System/src/retrieval/helper/RetrievalHelper.java:360-382 | for every term t and posting p of t, (t, p.tf) is in the list of p.docId |
| DocTerms.DocTermMapSound | Retrieval-System/src/retrieval/helper/RetrievalHelper.java:360-382 | every entry of a document's list comes from a posting of that document with the same tf |
| DocTerms.DocTermMapCount | Retrieval-System/src/retrieval/helper/RetrievalHelper.java:358-390 | no list is empty, and all lists hold as many entries as the index holds postings |
| DocTerms.DocTermMapMultiset | Retrieval-System/src/retrieval/helper/RetrievalHelper.java:358-390 | a document's list holds exactly the (term, tf) entries of the postings for that document, each as often as such a posting occurs; a document without postings has no list |
| DocTerms.CollectMultiset | Retrieval-System/src/retrieval/helper/RetrievalHelper.java:360-382 | after the first pass, each document's list is, as a multiset, the entries of its postings over the terms visited |
| DocTerms.DocTermMapSorted | Retrieval-System/src/retrieval/helper/RetrievalHelper.java:384-386 | the documents are those collected. Each list is sorted by the comparator and is a permutation of the collected entries |
| Collections.SortBySorted | Retrieval-System/src/retrieval/helper/RetrievalHelper.java:385 | sorting yields a sorted permutation of the list |
| Retrieval.RetrievalHelper.GetTermFreqInDoc | Retrieval-System/src/retrieval/helper/RetrievalHelper.java:327-336 | 0 when no posting of the term is for the document; otherwise the tf of the last matching posting |
| Postings.LastTfIsLastMatch | Retrieval-System/src/retrieval/helper/RetrievalHelper.java:330-334 | the scan keeps the tf of the last matching posting, or 0 without one |
| Postings.UniqueDocLookup | Retrieval-System/src/retrieval/helper/RetrievalHelper.java:327-336 | when a list holds one posting per document, the lookup gives that posting's tf |
| Postings.CalculateQueryFrequency | Retrieval-System/src/retrieval/helper/RetrievalHelper.java:348-355 | the count is the term's multiplicity in the query tokens, at most their number |
| Postings.OccurrencesIsMultiplicity | Retrieval-System/src/retrieval/helper/RetrievalHelper.java:350-353 | counting equal positions gives the multiset multiplicity, bounded by the length |
| Retrieval.RetrievalHelper.GetDocLength | Retrieval-System/src/retrieval/helper/RetrievalHelper.java:268-270 | the stored length for a known id; the failure (unboxing null) for an unknown one |
| Retrieval.RetrievalHelper.GetCollectionSize | Retrieval-System/src/retrieval/helper/RetrievalHelper.java:280-282 | the number of ids with a recorded length |
| Retrieval.RetrievalHelper.DocumentFrequencyAtMostCollectionSize | Retrieval-System/src/retrieval/helper/RetrievalHelper.java:338-342 | a posting list of distinct catalogued documents is no longer than the collection |
| Postings.DocumentFrequencyBound | Retrieval-System/src/retrieval/helper/RetrievalHelper.java:340-341 | a list of distinct document ids drawn from a set is no longer than the set |
| Retrieval.RetrievalHelper.GetAvgDocLength | Retrieval-System/src/retrieval/helper/RetrievalHelper.java:272-278 | the total is the sum of all recorded lengths, and the divisor is their number |
| Collections.SumValuesRemove | Retrieval-System/src/retrieval/helper/RetrievalHelper.java:274-276 | the sum of lengths does not depend on the order the entries are visited in |
| Reports.ParseQueryLine | Retrieval-System/src/retrieval/helper/RetrievalHelper.java:124-134 | a line is parsed as follows. With no tokens, no id and empty text. Otherwise the first token parsed as an int, failing when it is not one, and the other tokens each followed by a space, trimmed |
| Reports.GetQueryList | Retrieval-System/src/retrieval/helper/RetrievalHelper.java:118-142 | fails exactly when some line's id does not parse. Otherwise one query per line, in order, each the parse of its line |
| Collections.ParseAllEach | Retrieval-System/src/retrieval/helper/RetrievalHelper.java:123-141 | a line-by-line parse fails exactly when a line fails, and otherwise gives one result per line |
| Reports.QueryLineRoundTrip | Retrieval-System/src/retrieval/helper/RetrievalHelper.java:124-134 | an int followed by words reads back as that id and those words joined by single spaces |
| Reports.QueryTextTokens | Retrieval-System/src/retrieval/helper/RetrievalHelper.java:129-134 | the query text holds exactly the line's tokens after the id, in order |
| Text.IntRoundTrip | Retrieval-System/src/retrieval/helper/RetrievalHelper.java:127 | parseInt of an int's decimal text gives the int back |
| Text.TrimTerminated | Retrieval-System/src/retrieval/helper/RetrievalHelper.java:130-134 | trimming words each followed by a space gives them joined by single spaces |
| Text.TokensOfJoin | Retrieval-System/src/retrieval/helper/RetrievalHelper.java:124-131 | tokenizing words joined by a delimiter gives the words back |
| Reports.PrintIndex | Retrieval-System/src/retrieval/helper/RetrievalHelper.java:291-308 | one file per query, in order, named `<type>_<qid>`, holding its result lines each ended by a newline |
| Reports.PrintQueryResult | Retrieval-System/src/retrieval/helper/RetrievalHelper.java:296-305 | the buffer holds one line per ranked document, in list order, ranked from 1 |
| Reports.ResultLineIsJoin | Retrieval-System/src/retrieval/helper/RetrievalHelper.java:299-302 | the appended pieces form `qid Q0 docId rank score type`, single-space separated |
| Reports.ResultLineRoundTrip | Retrieval-System/src/retrieval/helper/RetrievalHelper.java:293-302 | split at spaces, a line gives six fields. The query id, the document id and the rank parse back; the score and the type come back as they were |
| Reports.ResultTextLines | Retrieval-System/src/retrieval/helper/RetrievalHelper.java:297-304 | split at newlines, a query's text gives back its result lines |
| Reports.PrintedRanks | Retrieval-System/src/retrieval/helper/RetrievalHelper.java:296-305 | the file has one line per result. Line j names the query, the j-th document and rank j+1, with that document's score and the type |

## Left out

- File and directory I/O is not modelled. This covers `Files.newDirectoryStream`, `Files.lines`, `FileReader`, `BufferedWriter` and `writeToFile`. The listing is an input: each entry has a name, a regular-file flag, the lines read and whether reading failed part-way. The result files are returned as (name, text) values. An unreadable directory behaves like an empty listing.
- Reports.PrintIndex returns one (name, text) file per result, in order. Two results with the same query id give two files of the same name; `writeToFile` opens its file without appending, so on disk only the later one remains. The model does not state that the caller's writes overwrite in order.
- JSON reading and writing through Gson is not modelled: `readJsonStream`, `writeToJsonStream`, `PrintToFile`, and the writing of `docId_Map.json` at line 170. `ReadUnaryIndex` takes the records already parsed, or a parse failure. A parsed record always carries a posting list: a record whose JSON lacks its list, which Gson would give a null list (stored at line 218, returned at 241, taking the `IDF_DEFAULT` branch of `getIdf` and failing in `getDocTermMap` at 362), is not modelled. The id mapper list is modelled, but writing it is not.
- `getIdf` is left out because it uses `Math.log`, which is floating point. Only its integer inputs are modelled: the document frequency and the collection size.
- Retrieval.RetrievalHelper.GetAvgDocLength: only the integer total and the count are modelled. The division (NaN for an empty catalogue) is floating point.
- Retrieval.RetrievalHelper.GetAvgDocLength: the `int` running total is unbounded here, so the 32-bit wrap-around of a very large sum is not modelled.
- A score is an opaque string. Java's rendering of a `double` to text is not modelled.
- `Integer.parseInt` accepts ASCII digits only. Unicode digits from other scripts, which Java also accepts, are not modelled.
- The natural ordering of `DocumentTermModel` is not part of this model. The sort takes a comparator instead.
- Collections.SortBy is an insertion sort. Its stability, which the Java stream sort guarantees, is not proved; only that the result is a sorted permutation.
- `getIndex` and `getTermFreqMap` are left out: each only returns a field (`unaryIndexMap`, or `docTermFreqMap.get`). `getParentfileLocation` is left out because it uses the `java.io.File` path API. `initHelper` is left out: it only calls `initMap` and `readUnaryIndex`, and it logs their exceptions.
- Logging and `System.out` output are left out.
- The static state is modelled as one object. Sharing it between threads is not modelled.
