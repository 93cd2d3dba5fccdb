/** Posting-list lookups and the construction of the index map from parsed records. */
module Postings {
  import opened Models

  /** The frequency getTermFreqInDoc reports: the tf of the LAST posting for the document,
      0 when there is none. */
  function LastTf(ps: seq<Posting>, docId: int): int {
    if ps == [] then 0
    else if ps[|ps| - 1].docId == docId then ps[|ps| - 1].tf
    else LastTf(ps[..|ps| - 1], docId)
  }

  /** Position `i` holds the last posting for the document. */
  predicate IsLastPosting(ps: seq<Posting>, i: nat, docId: int)
    requires i < |ps|
  {
    ps[i].docId == docId && forall j :: i < j < |ps| ==> ps[j].docId != docId
  }

  /** No posting for the document gives 0; otherwise the last matching posting's tf. */
  lemma {:induction false} LastTfIsLastMatch(ps: seq<Posting>, docId: int)
    ensures (forall i :: 0 <= i < |ps| ==> ps[i].docId != docId) ==> LastTf(ps, docId) == 0
    ensures forall i :: 0 <= i < |ps| && IsLastPosting(ps, i, docId) ==> LastTf(ps, docId) == ps[i].tf
  {
    if ps != [] {
      var init := ps[..|ps| - 1];
      LastTfIsLastMatch(init, docId);
      assert forall i :: 0 <= i < |init| ==> init[i] == ps[i];
    }
  }

  /** When a document has at most one posting, the lookup gives that posting's tf. */
  lemma UniqueDocLookup(ps: seq<Posting>, i: nat)
    requires i < |ps|
    requires forall j, k :: 0 <= j < k < |ps| ==> ps[j].docId != ps[k].docId
    ensures LastTf(ps, ps[i].docId) == ps[i].tf
  {
    LastTfIsLastMatch(ps, ps[i].docId);
  }

  /** How many positions of the query hold exactly the term. */
  function Occurrences(q: seq<string>, t: string): nat {
    if q == [] then 0 else Occurrences(q[..|q| - 1], t) + (if q[|q| - 1] == t then 1 else 0)
  }

  /** The count is the term's multiplicity in the query, so it lies between 0 and |q|. */
  lemma {:induction false} OccurrencesIsMultiplicity(q: seq<string>, t: string)
    ensures Occurrences(q, t) == multiset(q)[t]
    ensures Occurrences(q, t) <= |q|
  {
    if q != [] {
      OccurrencesIsMultiplicity(q[..|q| - 1], t);
      assert q == q[..|q| - 1] + [q[|q| - 1]];
    }
  }

  /** calculateQueryFrequency: counts the query terms equal to `term`. */
  method CalculateQueryFrequency(queryTerms: seq<string>, term: string) returns (freq: nat)
    ensures freq == multiset(queryTerms)[term]
    ensures freq <= |queryTerms|
  {
    freq := 0;
    var i := 0;
    while i < |queryTerms|
      invariant 0 <= i <= |queryTerms|
      invariant freq == Occurrences(queryTerms[..i], term)
    {
      assert queryTerms[..i + 1][..i] == queryTerms[..i];
      if queryTerms[i] == term {
        freq := freq + 1;
      }
      i := i + 1;
    }
    assert queryTerms[..i] == queryTerms;
    OccurrencesIsMultiplicity(queryTerms, term);
  }

  /** The map readJsonStream builds: `put(term, invertedList)` for each record in turn. */
  function IndexOf(records: seq<TermRecord>): Index {
    if records == [] then map[]
    else IndexOf(records[..|records| - 1])[records[|records| - 1].term := records[|records| - 1].invertedList]
  }

  /** The keys are the records' terms, and a repeated term keeps the list of its last record. */
  lemma {:induction false} IndexOfLastWins(records: seq<TermRecord>)
    ensures forall t :: t in IndexOf(records) <==> exists i :: 0 <= i < |records| && records[i].term == t
    ensures forall i :: 0 <= i < |records| && (forall j :: i < j < |records| ==> records[j].term != records[i].term)
              ==> IndexOf(records)[records[i].term] == records[i].invertedList
  {
    if records != [] {
      var init := records[..|records| - 1];
      IndexOfLastWins(init);
      assert forall i :: 0 <= i < |init| ==> init[i] == records[i];
      forall t | exists i :: 0 <= i < |records| && records[i].term == t
        ensures t in IndexOf(records)
      {
        var i :| 0 <= i < |records| && records[i].term == t;
        if i < |init| {
          assert init[i].term == t;
        }
      }
    }
  }

  /** The loop of readJsonStream over already-parsed records. */
  method BuildIndexMap(records: seq<TermRecord>) returns (indexMap: Index)
    ensures indexMap == IndexOf(records)
  {
    indexMap := map[];
    var i := 0;
    while i < |records|
      invariant 0 <= i <= |records|
      invariant indexMap == IndexOf(records[..i])
    {
      assert records[..i + 1][..i] == records[..i];
      indexMap := indexMap[records[i].term := records[i].invertedList];
      i := i + 1;
    }
    assert records[..i] == records;
  }

  /** A posting list without repeated documents, all of them catalogued, is no longer than
      the catalogue: the document frequency getIdf divides never exceeds the collection size. */
  lemma {:induction false} DocumentFrequencyBound(ps: seq<Posting>, docs: set<int>)
    requires forall j, k :: 0 <= j < k < |ps| ==> ps[j].docId != ps[k].docId
    requires forall j :: 0 <= j < |ps| ==> ps[j].docId in docs
    ensures |ps| <= |docs|
  {
    if ps != [] {
      var last := ps[|ps| - 1];
      var init := ps[..|ps| - 1];
      assert forall j :: 0 <= j < |init| ==> init[j] == ps[j];
      DocumentFrequencyBound(init, docs - {last.docId});
      assert |docs - {last.docId}| == |docs| - 1;
    }
  }
}
