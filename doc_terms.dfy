/**
 * getDocTermMap: the inversion of the index (term -> postings) into each document's
 * list of (term, tf) entries, every list then sorted.
 */
module DocTerms {
  import opened Models
  import opened Collections

  type DocTermMap = map<int, seq<DocTerm>>

  /** One step of the inversion: add `x` to the document's list, creating the list when the
      document has none yet. */
  function Append(m: DocTermMap, d: int, x: DocTerm): DocTermMap {
    if d in m then m[d := m[d] + [x]] else m[d := [x]]
  }

  /** The entries of one term's posting list added in list order. */
  function AddPostings(m: DocTermMap, term: string, ps: seq<Posting>): DocTermMap {
    if ps == [] then m
    else
      var p := ps[|ps| - 1];
      Append(AddPostings(m, term, ps[..|ps| - 1]), p.docId, DocTerm(term, p.tf))
  }

  /** All terms' entries, the terms visited in the iteration order `terms`. */
  function Collect(index: Index, terms: seq<string>): DocTermMap
    requires forall i :: 0 <= i < |terms| ==> terms[i] in index
  {
    if terms == [] then map[]
    else
      var t := terms[|terms| - 1];
      AddPostings(Collect(index, terms[..|terms| - 1]), t, index[t])
  }

  function SortLists(m: DocTermMap, leq: (DocTerm, DocTerm) -> bool): DocTermMap {
    map d | d in m :: SortBy(m[d], leq)
  }

  /** What getDocTermMap returns for the index, visited in the order `terms`. */
  function DocTermMapOf(index: Index, terms: seq<string>, leq: (DocTerm, DocTerm) -> bool): DocTermMap
    requires forall i :: 0 <= i < |terms| ==> terms[i] in index
  {
    SortLists(Collect(index, terms), leq)
  }

  /** getDocTermMap: one pass over every posting list appends to the documents' lists in
      place, then a second pass replaces every list by its sorted copy. */
  method GetDocTermMap(index: Index, terms: seq<string>, leq: (DocTerm, DocTerm) -> bool)
    returns (docTermMap: DocTermMap)
    requires Enumerates(terms, index.Keys)
    ensures docTermMap == DocTermMapOf(index, terms, leq)
  {
    docTermMap := map[];
    var i := 0;
    while i < |terms|
      invariant 0 <= i <= |terms|
      invariant docTermMap == Collect(index, terms[..i])
    {
      var term := terms[i];
      var invertedIndex := index[term];
      ghost var before := docTermMap;
      var j := 0;
      while j < |invertedIndex|
        invariant 0 <= j <= |invertedIndex|
        invariant docTermMap == AddPostings(before, term, invertedIndex[..j])
      {
        var indexModel := invertedIndex[j];
        assert invertedIndex[..j + 1][..j] == invertedIndex[..j];
        assert invertedIndex[..j + 1][j] == indexModel;
        if indexModel.docId in docTermMap {
          var list := docTermMap[indexModel.docId];
          docTermMap := docTermMap[indexModel.docId := list + [DocTerm(term, indexModel.tf)]];
        } else {
          docTermMap := docTermMap[indexModel.docId := [DocTerm(term, indexModel.tf)]];
        }
        j := j + 1;
      }
      assert invertedIndex[..j] == invertedIndex;
      assert terms[..i + 1][..i] == terms[..i] && terms[..i + 1][i] == term;
      i := i + 1;
    }
    assert terms[..i] == terms;
    docTermMap := SortEachList(docTermMap, leq);
  }

  /** The second pass of getDocTermMap: every document's list replaced by its sorted copy,
      the documents visited in whatever order the hash map yields them. */
  method SortEachList(docTermMap: DocTermMap, leq: (DocTerm, DocTerm) -> bool) returns (sortedMap: DocTermMap)
    ensures sortedMap == SortLists(docTermMap, leq)
  {
    sortedMap := docTermMap;
    var pending := docTermMap.Keys;
    PartlySortedNone(docTermMap, leq);
    while pending != {}
      invariant pending <= docTermMap.Keys
      invariant sortedMap == PartlySorted(docTermMap, pending, leq)
      decreases |pending|
    {
      var d := NextKey(pending);
      PartlySortedStep(docTermMap, pending, d, leq);
      sortedMap := sortedMap[d := SortBy(sortedMap[d], leq)];
      pending := pending - {d};
    }
    PartlySortedAll(docTermMap, leq);
  }

  /** The lists of the documents in `pending` still as collected, the others sorted. */
  function PartlySorted(m: DocTermMap, pending: set<int>, leq: (DocTerm, DocTerm) -> bool): DocTermMap {
    map d | d in m :: if d in pending then m[d] else SortBy(m[d], leq)
  }

  lemma PartlySortedNone(m: DocTermMap, leq: (DocTerm, DocTerm) -> bool)
    ensures PartlySorted(m, m.Keys, leq) == m
  {
  }

  lemma PartlySortedStep(m: DocTermMap, pending: set<int>, d: int, leq: (DocTerm, DocTerm) -> bool)
    requires d in pending && pending <= m.Keys
    ensures PartlySorted(m, pending - {d}, leq) == PartlySorted(m, pending, leq)[d := SortBy(m[d], leq)]
  {
  }

  lemma PartlySortedAll(m: DocTermMap, leq: (DocTerm, DocTerm) -> bool)
    ensures PartlySorted(m, {}, leq) == SortLists(m, leq)
  {
  }

  /** The entry `x` of document `d` comes from a posting of `x.term` for `d` with the same tf. */
  ghost predicate FromPosting(index: Index, d: int, x: DocTerm) {
    x.term in index && exists i :: 0 <= i < |index[x.term]| && index[x.term][i] == Posting(d, x.tf)
  }

  /** The entry `x` of document `d` comes from a posting in `ps` of the term `term`. */
  ghost predicate FromList(ps: seq<Posting>, term: string, d: int, x: DocTerm) {
    x.term == term && exists i :: 0 <= i < |ps| && ps[i] == Posting(d, x.tf)
  }

  // ----- What one term's pass does

  /** Entries already present survive, and every posting of the term is added. */
  lemma {:induction false} AddPostingsComplete(m: DocTermMap, term: string, ps: seq<Posting>)
    ensures var r := AddPostings(m, term, ps);
      (forall d, x :: d in m && x in m[d] ==> d in r && x in r[d]) &&
      (forall i :: 0 <= i < |ps| ==> ps[i].docId in r && DocTerm(term, ps[i].tf) in r[ps[i].docId])
  {
    if ps != [] {
      var init := ps[..|ps| - 1];
      AddPostingsComplete(m, term, init);
      assert forall i :: 0 <= i < |init| ==> init[i] == ps[i];
    }
  }

  /** Every entry present afterwards was present before or comes from a posting of the term. */
  lemma {:induction false} AddPostingsSound(m: DocTermMap, term: string, ps: seq<Posting>)
    ensures var r := AddPostings(m, term, ps);
      forall d, x :: d in r && x in r[d] ==> (d in m && x in m[d]) || FromList(ps, term, d, x)
  {
    if ps != [] {
      var init := ps[..|ps| - 1];
      AddPostingsSound(m, term, init);
      assert forall i :: 0 <= i < |init| ==> init[i] == ps[i];
      var r := AddPostings(m, term, ps);
      forall d: int, x: DocTerm | d in r && x in r[d]
        ensures (d in m && x in m[d]) || FromList(ps, term, d, x)
      {
        var p := ps[|ps| - 1];
        if d == p.docId && x == DocTerm(term, p.tf) {
          assert ps[|ps| - 1] == Posting(d, x.tf);
        } else {
          var r' := AddPostings(m, term, init);
          assert d in r' && x in r'[d];
          if FromList(init, term, d, x) {
            var i :| 0 <= i < |init| && init[i] == Posting(d, x.tf);
            assert ps[i] == Posting(d, x.tf);
          }
        }
      }
    }
  }

  /** Every list stays non-empty and the total grows by one entry per posting. */
  lemma {:induction false} AddPostingsCount(m: DocTermMap, term: string, ps: seq<Posting>)
    requires forall d :: d in m ==> m[d] != []
    ensures var r := AddPostings(m, term, ps);
      (forall d :: d in r ==> r[d] != []) && EntryCount(r) == EntryCount(m) + |ps|
  {
    if ps != [] {
      var init := ps[..|ps| - 1];
      AddPostingsCount(m, term, init);
      var r' := AddPostings(m, term, init);
      var p := ps[|ps| - 1];
      if p.docId in r' {
        EntryCountUpdate(r', p.docId, r'[p.docId] + [DocTerm(term, p.tf)]);
      } else {
        EntryCountUpdate(r', p.docId, [DocTerm(term, p.tf)]);
      }
    }
  }

  // ----- What the whole first pass does

  lemma {:induction false} CollectComplete(index: Index, terms: seq<string>)
    requires forall i :: 0 <= i < |terms| ==> terms[i] in index
    ensures var r := Collect(index, terms);
      forall k, i :: 0 <= k < |terms| && 0 <= i < |index[terms[k]]| ==>
        index[terms[k]][i].docId in r && DocTerm(terms[k], index[terms[k]][i].tf) in r[index[terms[k]][i].docId]
  {
    if terms != [] {
      var init := terms[..|terms| - 1];
      var t := terms[|terms| - 1];
      CollectComplete(index, init);
      assert forall k :: 0 <= k < |init| ==> init[k] == terms[k];
      AddPostingsComplete(Collect(index, init), t, index[t]);
    }
  }

  lemma {:induction false} CollectSound(index: Index, terms: seq<string>)
    requires forall i :: 0 <= i < |terms| ==> terms[i] in index
    ensures forall d, x :: d in Collect(index, terms) && x in Collect(index, terms)[d] ==> FromPosting(index, d, x)
  {
    if terms != [] {
      var init := terms[..|terms| - 1];
      var t := terms[|terms| - 1];
      CollectSound(index, init);
      assert forall k :: 0 <= k < |init| ==> init[k] == terms[k];
      var c' := Collect(index, init);
      AddPostingsSound(c', t, index[t]);
      var r := Collect(index, terms);
      forall d: int, x: DocTerm | d in r && x in r[d]
        ensures FromPosting(index, d, x)
      {
        if !(d in c' && x in c'[d]) {
          assert FromList(index[t], t, d, x);
          var i :| 0 <= i < |index[t]| && index[t][i] == Posting(d, x.tf);
          assert index[x.term][i] == Posting(d, x.tf);
        }
      }
    }
  }

  /** The index restricted to the terms visited so far. */
  function Restrict(index: Index, terms: seq<string>): Index
    requires forall i :: 0 <= i < |terms| ==> terms[i] in index
  {
    map t | t in terms :: index[t]
  }

  lemma {:induction false} CollectCount(index: Index, terms: seq<string>)
    requires forall i :: 0 <= i < |terms| ==> terms[i] in index
    requires forall i, j :: 0 <= i < j < |terms| ==> terms[i] != terms[j]
    ensures var r := Collect(index, terms);
      (forall d :: d in r ==> r[d] != []) && EntryCount(r) == EntryCount(Restrict(index, terms))
  {
    if terms == [] {
      assert Restrict(index, terms) == map[];
    } else {
      var init := terms[..|terms| - 1];
      var t := terms[|terms| - 1];
      CollectCount(index, init);
      AddPostingsCount(Collect(index, init), t, index[t]);
      assert t !in init;
      assert Restrict(index, terms) == Restrict(index, init)[t := index[t]] by {
        assert forall u :: u in terms <==> u in init || u == t;
      }
      EntryCountUpdate(Restrict(index, init), t, index[t]);
    }
  }

  /** A document's list in `m`, or the empty list when it has none. */
  function ListOf(m: DocTermMap, d: int): seq<DocTerm> {
    if d in m then m[d] else []
  }

  /** The (term, tf) entries that the postings `ps` of `term` give document `d`, counted with
      their multiplicity. */
  function PostingEntries(term: string, ps: seq<Posting>, d: int): multiset<DocTerm> {
    if ps == [] then multiset{}
    else
      var p := ps[|ps| - 1];
      PostingEntries(term, ps[..|ps| - 1], d) + if p.docId == d then multiset{DocTerm(term, p.tf)} else multiset{}
  }

  /** The entries all the terms `terms` of `index` give document `d`. */
  function IndexEntries(index: Index, terms: seq<string>, d: int): multiset<DocTerm>
    requires forall i :: 0 <= i < |terms| ==> terms[i] in index
  {
    if terms == [] then multiset{}
    else
      var t := terms[|terms| - 1];
      IndexEntries(index, terms[..|terms| - 1], d) + PostingEntries(t, index[t], d)
  }

  lemma {:induction false} AddPostingsMultiset(m: DocTermMap, term: string, ps: seq<Posting>, d: int)
    ensures multiset(ListOf(AddPostings(m, term, ps), d)) == multiset(ListOf(m, d)) + PostingEntries(term, ps, d)
  {
    if ps != [] {
      var init := ps[..|ps| - 1];
      var p := ps[|ps| - 1];
      AddPostingsMultiset(m, term, init, d);
      var x := DocTerm(term, p.tf);
      ListOfAppend(AddPostings(m, term, init), p.docId, x, d);
      assert multiset(ListOf(m, d)) + PostingEntries(term, ps, d)
          == multiset(ListOf(m, d)) + PostingEntries(term, init, d) + (if p.docId == d then multiset{x} else multiset{});
    }
  }

  lemma ListOfAppend(m: DocTermMap, e: int, x: DocTerm, d: int)
    ensures multiset(ListOf(Append(m, e, x), d)) == multiset(ListOf(m, d)) + if e == d then multiset{x} else multiset{}
  {
    if e == d {
      assert ListOf(Append(m, e, x), d) == ListOf(m, d) + [x];
    }
  }

  lemma {:induction false} CollectMultiset(index: Index, terms: seq<string>, d: int)
    requires forall i :: 0 <= i < |terms| ==> terms[i] in index
    ensures multiset(ListOf(Collect(index, terms), d)) == IndexEntries(index, terms, d)
  {
    if terms != [] {
      var init := terms[..|terms| - 1];
      var t := terms[|terms| - 1];
      CollectMultiset(index, init, d);
      AddPostingsMultiset(Collect(index, init), t, index[t], d);
    }
  }

  // ----- What getDocTermMap returns

  /** For every term and every posting of it, the pair (term, tf) is in the posting's document list. */
  lemma DocTermMapComplete(index: Index, terms: seq<string>, leq: (DocTerm, DocTerm) -> bool)
    requires Enumerates(terms, index.Keys)
    ensures var r := DocTermMapOf(index, terms, leq);
      forall t, i :: t in index && 0 <= i < |index[t]| ==>
        index[t][i].docId in r && DocTerm(t, index[t][i].tf) in r[index[t][i].docId]
  {
    CollectComplete(index, terms);
    var c := Collect(index, terms);
    forall t, i | t in index && 0 <= i < |index[t]|
      ensures index[t][i].docId in DocTermMapOf(index, terms, leq)
      ensures DocTerm(t, index[t][i].tf) in DocTermMapOf(index, terms, leq)[index[t][i].docId]
    {
      var k :| 0 <= k < |terms| && terms[k] == t;
      var d := index[t][i].docId;
      assert DocTerm(t, index[t][i].tf) in multiset(c[d]);
    }
  }

  /** Every entry of a document's list comes from a posting of that document. */
  lemma DocTermMapSound(index: Index, terms: seq<string>, leq: (DocTerm, DocTerm) -> bool)
    requires Enumerates(terms, index.Keys)
    ensures forall d, x :: d in DocTermMapOf(index, terms, leq) && x in DocTermMapOf(index, terms, leq)[d] ==>
              FromPosting(index, d, x)
  {
    CollectSound(index, terms);
    var c := Collect(index, terms);
    var r := DocTermMapOf(index, terms, leq);
    forall d: int, x: DocTerm | d in r && x in r[d]
      ensures FromPosting(index, d, x)
    {
      assert x in multiset(r[d]);
      assert d in c && x in c[d];
    }
  }

  /** The lists hold as many entries in all as the index holds postings, and none is empty. */
  lemma DocTermMapCount(index: Index, terms: seq<string>, leq: (DocTerm, DocTerm) -> bool)
    requires Enumerates(terms, index.Keys)
    ensures var r := DocTermMapOf(index, terms, leq);
      (forall d :: d in r ==> r[d] != []) && EntryCount(r) == EntryCount(index)
  {
    CollectCount(index, terms);
    assert Restrict(index, terms) == index;
    var c := Collect(index, terms);
    var r := DocTermMapOf(index, terms, leq);
    forall d | d in r ensures |r[d]| == |c[d]| {
      assert |multiset(r[d])| == |multiset(c[d])|;
    }
    EntryCountSameLengths(r, c);
  }

  /** Each list is a sorted permutation of the entries collected for its document. */
  lemma DocTermMapSorted(index: Index, terms: seq<string>, leq: (DocTerm, DocTerm) -> bool)
    requires Enumerates(terms, index.Keys)
    requires TotalPreorder(leq)
    ensures var r := DocTermMapOf(index, terms, leq);
      r.Keys == Collect(index, terms).Keys &&
      forall d :: d in r ==> Sorted(leq, r[d]) && multiset(r[d]) == multiset(Collect(index, terms)[d])
  {
    var c := Collect(index, terms);
    forall d | d in c ensures Sorted(leq, SortBy(c[d], leq)) {
      SortBySorted(c[d], leq);
    }
  }

  /** Each document's list holds exactly the (term, tf) entries of the postings for that
      document, each as often as such a posting occurs; a document with no posting has no list. */
  lemma DocTermMapMultiset(index: Index, terms: seq<string>, leq: (DocTerm, DocTerm) -> bool, d: int)
    requires Enumerates(terms, index.Keys)
    ensures var r := DocTermMapOf(index, terms, leq);
      (d in r ==> multiset(r[d]) == IndexEntries(index, terms, d)) &&
      (d !in r ==> IndexEntries(index, terms, d) == multiset{})
  {
    CollectMultiset(index, terms, d);
  }
}
