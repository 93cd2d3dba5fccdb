/**
 * The helper's process-wide state and the operations over it: the document catalogue
 * (id map and length map) built from a listing while it is empty, the term index and its
 * per-document inversion loaded from parsed records while the index is empty, and the lookups
 * the scoring code calls.
 */
module Retrieval {
  import opened Wrappers
  import opened Models
  import opened Text
  import opened Collections
  import opened Catalog
  import opened Postings
  import opened DocTerms

  /** The four static maps of the helper, held by one object. */
  class RetrievalHelper {
    var docIdMap: map<int, string>
    var docLengthMap: map<int, int>
    var unaryIndexMap: Index
    var docTermFreqMap: DocTermMap

    /** All four maps start empty. */
    constructor()
      ensures docIdMap == map[] && docLengthMap == map[]
      ensures unaryIndexMap == map[] && docTermFreqMap == map[]
    {
      docIdMap := map[];
      docLengthMap := map[];
      unaryIndexMap := map[];
      docTermFreqMap := map[];
    }

    /** initMap over a directory listing. It runs only while the id map is empty; then it gives
        ids 1, 2, ... to the regular files whose extension is "txt", in listing order, records for
        each the field count of its last line, and stops at the first file that fails to read. */
    method InitMap(listing: seq<FileEntry>)
      modifies this
      ensures old(|docIdMap|) != 0 ==> docIdMap == old(docIdMap) && docLengthMap == old(docLengthMap)
      ensures old(|docIdMap|) == 0 ==>
        docIdMap == Scan(listing, old(docLengthMap)).ids && docLengthMap == Scan(listing, old(docLengthMap)).lengths
      ensures old(|docIdMap|) == 0 ==> CatalogBuilt(listing, old(docLengthMap), docIdMap, docLengthMap)
      ensures old(|docIdMap|) == 0 && !Halts(listing) ==> Accepted(listing) == SelectedFiles(listing)
      ensures unaryIndexMap == old(unaryIndexMap) && docTermFreqMap == old(docTermFreqMap)
    {
      if |docIdMap| == 0 {
        ghost var lengths0 := docLengthMap;
        var count := 1;
        var failed := false;
        var i := 0;
        while i < |listing| && !failed
          invariant 0 <= i <= |listing|
          invariant Scan(listing[..i], lengths0) == CatalogState(docIdMap, docLengthMap, count, failed)
          invariant unaryIndexMap == old(unaryIndexMap) && docTermFreqMap == old(docTermFreqMap)
        {
          var entry := listing[i];
          assert listing[..i + 1][..i] == listing[..i];
          if entry.isFile && FileExtension(entry.name) == "txt" {
            RecordLengths(count, entry.lines);
            if entry.readFails {
              failed := true;
            } else {
              docIdMap := docIdMap[count := entry.name];
              count := count + 1;
            }
          }
          i := i + 1;
        }
        if failed {
          ScanAfterHalt(listing, lengths0, i);
        } else {
          assert listing[..i] == listing;
        }
        ScanBuilds(listing, lengths0);
        if !Halts(listing) {
          AcceptedWithoutErrors(listing);
        }
      }
    }

    /** The loop over one file's lines in initMap: each line's field count is put under the
        file's id, replacing the previous line's. */
    method RecordLengths(count: int, lines: seq<string>)
      modifies this
      ensures docLengthMap == LastLineLength(old(docLengthMap), count, lines)
      ensures docIdMap == old(docIdMap) && unaryIndexMap == old(unaryIndexMap) && docTermFreqMap == old(docTermFreqMap)
    {
      ghost var before := docLengthMap;
      var k := 0;
      while k < |lines|
        invariant 0 <= k <= |lines|
        invariant docLengthMap == LastLineLength(before, count, lines[..k])
        invariant docIdMap == old(docIdMap) && unaryIndexMap == old(unaryIndexMap) && docTermFreqMap == old(docTermFreqMap)
      {
        var split := SplitLength(lines[k]);
        docLengthMap := docLengthMap[count := split];
        assert lines[..k + 1][k] == lines[k];
        k := k + 1;
      }
      assert lines[..k] == lines;
    }

    /** getDocMapperList: one (id, name) record per entry of the id map, in iteration order;
        read back as a map, the records give the id map itself. */
    method GetDocMapperList(order: seq<int>) returns (docIdMapper: seq<DocIdMapping>)
      requires Enumerates(order, docIdMap.Keys)
      ensures docIdMapper == MapperList(docIdMap, order)
      ensures |docIdMapper| == |docIdMap| && MappingsToMap(docIdMapper) == docIdMap
    {
      docIdMapper := [];
      var i := 0;
      while i < |order|
        invariant 0 <= i <= |order| && |docIdMapper| == i
        invariant forall j :: 0 <= j < i ==> docIdMapper[j] == DocIdMapping(order[j], docIdMap[order[j]])
      {
        var key := order[i];
        docIdMapper := docIdMapper + [DocIdMapping(key, docIdMap[key])];
        i := i + 1;
      }
      MapperListRoundTrip(docIdMap, order);
    }

    /** getDocId: the id of the first entry, in iteration order, whose name is `docName`;
        `None` (Java's null) when no entry has that name. When names are distinct, as the
        names of one directory are, the answer is the name's only id, whatever the order. */
    method GetDocId(docName: string, order: seq<int>) returns (docId: Option<int>)
      requires Enumerates(order, docIdMap.Keys)
      ensures docId.None? <==> docName !in docIdMap.Values
      ensures docId.Some? ==>
        exists i :: (0 <= i < |order| && order[i] == docId.value && docIdMap[order[i]] == docName &&
                     forall j :: 0 <= j < i ==> docIdMap[order[j]] != docName)
      ensures docId.Some? ==> docId.value in docIdMap && docIdMap[docId.value] == docName
      ensures (forall u, v :: u in docIdMap && v in docIdMap && docIdMap[u] == docIdMap[v] ==> u == v) ==>
        forall id :: id in docIdMap && docIdMap[id] == docName ==> docId == Some(id)
    {
      docId := None;
      var i := 0;
      while i < |order|
        invariant 0 <= i <= |order|
        invariant forall j :: 0 <= j < i ==> docIdMap[order[j]] != docName
      {
        if docIdMap[order[i]] == docName {
          docId := Some(order[i]);
          return;
        }
        i := i + 1;
      }
      forall id | id in docIdMap ensures docIdMap[id] != docName {
        assert id in order;
      }
    }

    /** getInvertedIndex: the stored postings of a known term, an empty list for any other. */
    function GetInvertedIndex(term: string): (ps: seq<Posting>)
      reads this
      ensures term in unaryIndexMap ==> ps == unaryIndexMap[term]
      ensures term !in unaryIndexMap ==> ps == []
    {
      if term in unaryIndexMap then unaryIndexMap[term] else []
    }

    /** getTermFreqInDoc: a scan of the term's postings keeping the tf of the last posting for
        the document, 0 when there is none. */
    method GetTermFreqInDoc(term: string, docId: int) returns (tf: int)
      ensures tf == LastTf(GetInvertedIndex(term), docId)
      ensures (forall i :: 0 <= i < |GetInvertedIndex(term)| ==> GetInvertedIndex(term)[i].docId != docId) ==> tf == 0
      ensures forall i :: 0 <= i < |GetInvertedIndex(term)| && IsLastPosting(GetInvertedIndex(term), i, docId) ==>
        tf == GetInvertedIndex(term)[i].tf
    {
      var invertedIndex := GetInvertedIndex(term);
      tf := 0;
      var i := 0;
      while i < |invertedIndex|
        invariant 0 <= i <= |invertedIndex|
        invariant tf == LastTf(invertedIndex[..i], docId)
      {
        assert invertedIndex[..i + 1][..i] == invertedIndex[..i];
        if invertedIndex[i].docId == docId {
          tf := invertedIndex[i].tf;
        }
        i := i + 1;
      }
      assert invertedIndex[..i] == invertedIndex;
      LastTfIsLastMatch(invertedIndex, docId);
    }

    /** getDocLenth: the recorded length of a document; `None` is the NullPointerException of
        unboxing the null that an unknown id gives. */
    function GetDocLength(docId: int): (len: Option<int>)
      reads this
      ensures len.Some? <==> docId in docLengthMap
      ensures len.Some? ==> len.value == docLengthMap[docId]
    {
      if docId in docLengthMap then Some(docLengthMap[docId]) else None
    }

    /** getCollectionSize: the number of documents with a recorded length. */
    function GetCollectionSize(): (n: nat)
      reads this
      ensures n == |docLengthMap.Keys|
    {
      |docLengthMap|
    }

    /** The postings of a term name distinct documents with recorded lengths, so the document
        frequency getIdf divides never exceeds the collection size. */
    lemma DocumentFrequencyAtMostCollectionSize(term: string)
      requires var ps := GetInvertedIndex(term);
        (forall j, k :: 0 <= j < k < |ps| ==> ps[j].docId != ps[k].docId) &&
        (forall j :: 0 <= j < |ps| ==> ps[j].docId in docLengthMap)
      ensures |GetInvertedIndex(term)| <= GetCollectionSize()
    {
      DocumentFrequencyBound(GetInvertedIndex(term), docLengthMap.Keys);
    }

    /** The integer part of getAvgDocLength: the sum of all recorded lengths, and their
        number (the divisor). */
    method GetAvgDocLength() returns (totalDocLength: int, size: nat)
      ensures totalDocLength == SumValues(docLengthMap) && size == |docLengthMap|
    {
      totalDocLength := 0;
      var remaining := docLengthMap;
      while remaining != map[]
        invariant totalDocLength + SumValues(remaining) == SumValues(docLengthMap)
        decreases |remaining|
      {
        var d := NextKey(remaining.Keys);
        SumValuesRemove(remaining, d);
        totalDocLength := totalDocLength + remaining[d];
        remaining := remaining - {d};
      }
      size := |docLengthMap|;
    }

    /** readUnaryIndex: while the index is empty, load it from the parsed records (a later
        record of a term replacing an earlier one) and derive the per-document term lists
        from it; otherwise change nothing. Records that fail to parse are the IOException,
        which leaves everything as it was and returns false. */
    method ReadUnaryIndex(parsed: Option<seq<TermRecord>>, termOrder: seq<string>, leq: (DocTerm, DocTerm) -> bool)
      returns (ok: bool)
      requires |unaryIndexMap| == 0 && parsed.Some? ==> Enumerates(termOrder, IndexOf(parsed.value).Keys)
      modifies this
      ensures ok <==> old(|unaryIndexMap|) != 0 || parsed.Some?
      ensures old(|unaryIndexMap|) != 0 || parsed.None? ==>
        unaryIndexMap == old(unaryIndexMap) && docTermFreqMap == old(docTermFreqMap)
      ensures old(|unaryIndexMap|) == 0 && parsed.Some? ==>
        unaryIndexMap == IndexOf(parsed.value) && docTermFreqMap == DocTermMapOf(unaryIndexMap, termOrder, leq)
      ensures docIdMap == old(docIdMap) && docLengthMap == old(docLengthMap)
    {
      if |unaryIndexMap| == 0 {
        if parsed.None? {
          return false;
        }
        unaryIndexMap := BuildIndexMap(parsed.value);
        docTermFreqMap := GetDocTermMap(unaryIndexMap, termOrder, leq);
      }
      ok := true;
    }
  }
}
