/**
 * The document catalogue initMap builds from a directory listing: which files are taken,
 * the consecutive ids they get, the length recorded for each, and the id map written out.
 */
module Catalog {
  import opened Models
  import opened Text
  import opened Collections

  /** The test at line 151: a regular file whose extension is exactly "txt". */
  predicate Selected(e: FileEntry) {
    e.isFile && FileExtension(e.name) == "txt"
  }

  /** What the scan has built so far: the id map, the length map, the next id (`count`),
      and whether a read error has ended the scan. */
  datatype CatalogState = CatalogState(ids: map<int, string>, lengths: map<int, int>, count: int, halted: bool)

  /** The inner loop over a file's lines: each line's field count overwrites the previous
      one under the same id, so the last line's count remains; no line, no entry. */
  function LastLineLength(lengths: map<int, int>, id: int, lines: seq<string>): map<int, int> {
    if lines == [] then lengths else lengths[id := SplitLength(lines[|lines| - 1])]
  }

  /** One entry of the listing. A read error thrown part-way through a file leaves the
      lengths written by the lines read so far, gives the file no id, and ends the scan. */
  function Step(st: CatalogState, e: FileEntry): CatalogState {
    if st.halted || !Selected(e) then st
    else
      var lengths := LastLineLength(st.lengths, st.count, e.lines);
      if e.readFails then st.(lengths := lengths, halted := true)
      else CatalogState(st.ids[st.count := e.name], lengths, st.count + 1, false)
  }

  /** The scan of the whole listing, from an empty id map, the existing length map and id 1. */
  function Scan(entries: seq<FileEntry>, lengths0: map<int, int>): CatalogState {
    if entries == [] then CatalogState(map[], lengths0, 1, false)
    else Step(Scan(entries[..|entries| - 1], lengths0), entries[|entries| - 1])
  }

  /** Some selected file of the listing fails to read. */
  predicate Halts(entries: seq<FileEntry>) {
    entries != [] &&
    (Halts(entries[..|entries| - 1]) || (Selected(entries[|entries| - 1]) && entries[|entries| - 1].readFails))
  }

  /** The selected files read without error before the first selected file that fails. */
  ghost function Accepted(entries: seq<FileEntry>): seq<FileEntry> {
    if entries == [] then []
    else
      var init := entries[..|entries| - 1];
      var e := entries[|entries| - 1];
      if Halts(init) || !Selected(e) || e.readFails then Accepted(init) else Accepted(init) + [e]
  }

  /** The selected files of the listing, in listing order. */
  function SelectedFiles(entries: seq<FileEntry>): seq<FileEntry> {
    if entries == [] then []
    else
      var init := entries[..|entries| - 1];
      var e := entries[|entries| - 1];
      if Selected(e) then SelectedFiles(init) + [e] else SelectedFiles(init)
  }

  /** The scan wrote nothing under `id`. */
  ghost predicate Untouched(lengths: map<int, int>, lengths0: map<int, int>, id: int) {
    (id in lengths <==> id in lengths0) && (id in lengths0 ==> lengths[id] == lengths0[id])
  }

  /** The length recorded for a file of the given id: its last line's field count, or, for
      a file with no line, whatever the length map held before the scan. */
  ghost predicate LengthRecorded(lengths: map<int, int>, lengths0: map<int, int>, id: int, lines: seq<string>) {
    if lines != [] then id in lengths && lengths[id] == SplitLength(lines[|lines| - 1])
    else Untouched(lengths, lengths0, id)
  }

  /** Ids 1..|a| given to the files `a`, in order, and `count` the next id. */
  ghost predicate IdsAssigned(st: CatalogState, a: seq<FileEntry>) {
    st.count == |a| + 1 &&
    (forall id :: id in st.ids <==> 1 <= id <= |a|) &&
    (forall j :: 0 <= j < |a| ==> st.ids[j + 1] == a[j].name)
  }

  lemma StepIds(st: CatalogState, e: FileEntry, a: seq<FileEntry>)
    requires IdsAssigned(st, a)
    ensures IdsAssigned(Step(st, e), if !st.halted && Selected(e) && !e.readFails then a + [e] else a)
  {
    if !st.halted && Selected(e) && !e.readFails {
      var st2 := Step(st, e);
      var a2 := a + [e];
      assert st2.ids == st.ids[st.count := e.name];
      forall j | 0 <= j < |a2| ensures st2.ids[j + 1] == a2[j].name {
        if j < |a| {
          assert a2[j] == a[j];
        }
      }
    }
  }

  /** The scan assigns ids 1..k, consecutively and in listing order, to the accepted files,
      and it has halted exactly when some selected file failed to read. */
  lemma {:induction false} ScanIds(entries: seq<FileEntry>, lengths0: map<int, int>)
    ensures Scan(entries, lengths0).halted == Halts(entries)
    ensures IdsAssigned(Scan(entries, lengths0), Accepted(entries))
  {
    if entries != [] {
      var init := entries[..|entries| - 1];
      ScanIds(init, lengths0);
      StepIds(Scan(init, lengths0), entries[|entries| - 1], Accepted(init));
    }
  }

  /** The lengths recorded for the files `a` that have ids 1..|a|, and nothing written
      elsewhere but under the id of a file whose reading failed. */
  ghost predicate LengthsRecorded(st: CatalogState, lengths0: map<int, int>, a: seq<FileEntry>) {
    (forall j :: 0 <= j < |a| ==> LengthRecorded(st.lengths, lengths0, j + 1, a[j].lines)) &&
    (forall id :: !(1 <= id < st.count) && !(st.halted && id == st.count) ==> Untouched(st.lengths, lengths0, id))
  }

  lemma StepLengths(st: CatalogState, e: FileEntry, lengths0: map<int, int>, a: seq<FileEntry>)
    requires LengthsRecorded(st, lengths0, a) && st.count == |a| + 1
    ensures LengthsRecorded(Step(st, e), lengths0, if !st.halted && Selected(e) && !e.readFails then a + [e] else a)
  {
    if !st.halted && Selected(e) {
      var st2 := Step(st, e);
      var a2 := if e.readFails then a else a + [e];
      assert st2.lengths == LastLineLength(st.lengths, st.count, e.lines);
      forall j | 0 <= j < |a2| ensures LengthRecorded(st2.lengths, lengths0, j + 1, a2[j].lines) {
        if j < |a| {
          assert a2[j] == a[j];
          assert LengthRecorded(st.lengths, lengths0, j + 1, a[j].lines);
        } else {
          assert Untouched(st.lengths, lengths0, st.count);
        }
      }
      forall id | !(1 <= id < st2.count) && !(st2.halted && id == st2.count)
        ensures Untouched(st2.lengths, lengths0, id)
      {
        assert Untouched(st.lengths, lengths0, id);
      }
    }
  }

  /** Each accepted file's id maps to the field count of its last line; a file with no line
      gets no length of its own; nothing else is written but the length of a file whose
      reading failed. */
  lemma {:induction false} ScanLengths(entries: seq<FileEntry>, lengths0: map<int, int>)
    ensures LengthsRecorded(Scan(entries, lengths0), lengths0, Accepted(entries))
  {
    if entries != [] {
      var init := entries[..|entries| - 1];
      ScanLengths(init, lengths0);
      ScanIds(init, lengths0);
      StepLengths(Scan(init, lengths0), entries[|entries| - 1], lengths0, Accepted(init));
    }
  }

  /** What initMap leaves behind for a listing: ids 1..k for the k accepted files in listing
      order, each file's recorded length, and no other length written but that of the file
      whose reading failed. */
  ghost predicate CatalogBuilt(entries: seq<FileEntry>, lengths0: map<int, int>, ids: map<int, string>, lengths: map<int, int>) {
    var a := Accepted(entries);
    (forall id :: id in ids <==> 1 <= id <= |a|) &&
    (forall j :: 0 <= j < |a| ==> ids[j + 1] == a[j].name) &&
    (forall j :: 0 <= j < |a| ==> LengthRecorded(lengths, lengths0, j + 1, a[j].lines)) &&
    (forall id :: !(1 <= id <= |a|) && !(Halts(entries) && id == |a| + 1) ==> Untouched(lengths, lengths0, id))
  }

  lemma ScanBuilds(entries: seq<FileEntry>, lengths0: map<int, int>)
    ensures var st := Scan(entries, lengths0);
      CatalogBuilt(entries, lengths0, st.ids, st.lengths)
  {
    ScanIds(entries, lengths0);
    ScanLengths(entries, lengths0);
  }

  predicate NamesDistinct(entries: seq<FileEntry>) {
    forall i, j :: 0 <= i < j < |entries| ==> entries[i].name != entries[j].name
  }

  /** Accepted files come from the listing, and keep its names distinct. */
  lemma {:induction false} AcceptedNamesDistinct(entries: seq<FileEntry>)
    requires NamesDistinct(entries)
    ensures forall x :: x in Accepted(entries) ==> x in entries
    ensures NamesDistinct(Accepted(entries))
  {
    if entries != [] {
      var init := entries[..|entries| - 1];
      var e := entries[|entries| - 1];
      AcceptedNamesDistinct(init);
      var a' := Accepted(init);
      var a := Accepted(entries);
      forall x | x in a ensures x in entries {
        if x in a' {
          assert x in init;
        }
      }
      if a != a' {
        assert a == a' + [e];
        forall i, j | 0 <= i < j < |a| ensures a[i].name != a[j].name {
          if j == |a'| {
            assert a[i] in init;
            var k :| 0 <= k < |init| && init[k] == a[i];
            assert entries[k] == a[i] && a[j] == entries[|entries| - 1];
            assert entries[k].name != entries[|entries| - 1].name;
          } else {
            assert a[i] == a'[i] && a[j] == a'[j];
          }
        }
      }
    }
  }

  /** Directory entries have distinct names, so each name has at most one id: looking a name
      up in the id map cannot depend on the order the entries are visited in. */
  lemma ScanIdsInjective(entries: seq<FileEntry>, lengths0: map<int, int>)
    requires NamesDistinct(entries)
    ensures var ids := Scan(entries, lengths0).ids;
      forall i, j :: i in ids && j in ids && ids[i] == ids[j] ==> i == j
  {
    ScanIds(entries, lengths0);
    AcceptedNamesDistinct(entries);
    var ids := Scan(entries, lengths0).ids;
    var a := Accepted(entries);
    forall i, j | i in ids && j in ids && i < j ensures ids[i] != ids[j] {
      assert ids[i] == a[i - 1].name && ids[j] == a[j - 1].name;
    }
  }

  /** Without read errors the accepted files are exactly the selected ones. */
  lemma {:induction false} AcceptedWithoutErrors(entries: seq<FileEntry>)
    requires !Halts(entries)
    ensures Accepted(entries) == SelectedFiles(entries)
  {
    if entries != [] {
      AcceptedWithoutErrors(entries[..|entries| - 1]);
    }
  }

  /** Once a read error has ended the scan, the rest of the listing changes nothing. */
  lemma {:induction false} ScanAfterHalt(entries: seq<FileEntry>, lengths0: map<int, int>, i: nat)
    requires i <= |entries| && Scan(entries[..i], lengths0).halted
    ensures Scan(entries, lengths0) == Scan(entries[..i], lengths0)
    decreases |entries|
  {
    if i == |entries| {
      assert entries[..i] == entries;
    } else {
      var init := entries[..|entries| - 1];
      assert init[..i] == entries[..i];
      ScanAfterHalt(init, lengths0, i);
    }
  }

  /** The map a list of (docId, docName) records reads back as, a later record winning. */
  function MappingsToMap(list: seq<DocIdMapping>): map<int, string> {
    if list == [] then map[]
    else MappingsToMap(list[..|list| - 1])[list[|list| - 1].docId := list[|list| - 1].docName]
  }

  /** getDocMapperList: one record per entry of the id map, in its iteration order. */
  function MapperList(ids: map<int, string>, order: seq<int>): seq<DocIdMapping>
    requires forall i :: 0 <= i < |order| ==> order[i] in ids
  {
    seq(|order|, i requires 0 <= i < |order| => DocIdMapping(order[i], ids[order[i]]))
  }

  function RestrictIds(ids: map<int, string>, order: seq<int>): map<int, string>
    requires forall i :: 0 <= i < |order| ==> order[i] in ids
  {
    map k | k in order :: ids[k]
  }

  lemma {:induction false} MapperPrefixRoundTrip(ids: map<int, string>, order: seq<int>)
    requires forall i :: 0 <= i < |order| ==> order[i] in ids
    ensures MappingsToMap(MapperList(ids, order)) == RestrictIds(ids, order)
  {
    if order != [] {
      var init := order[..|order| - 1];
      var k := order[|order| - 1];
      MapperPrefixRoundTrip(ids, init);
      var list := MapperList(ids, order);
      assert list[..|list| - 1] == MapperList(ids, init);
      assert RestrictIds(ids, order) == RestrictIds(ids, init)[k := ids[k]] by {
        assert forall u :: u in order <==> u in init || u == k;
      }
    }
  }

  /** The id map written as records and read back is the id map itself. */
  lemma MapperListRoundTrip(ids: map<int, string>, order: seq<int>)
    requires Enumerates(order, ids.Keys)
    ensures |MapperList(ids, order)| == |ids|
    ensures MappingsToMap(MapperList(ids, order)) == ids
  {
    MapperPrefixRoundTrip(ids, order);
    assert RestrictIds(ids, order) == ids;
    assert |ids| == |order| by {
      DistinctLength(order, ids.Keys);
    }
  }

  lemma {:induction false} DistinctLength(order: seq<int>, keys: set<int>)
    requires Enumerates(order, keys)
    ensures |order| == |keys|
  {
    if order != [] {
      var k := order[|order| - 1];
      var init := order[..|order| - 1];
      assert Enumerates(init, keys - {k}) by {
        assert forall i :: 0 <= i < |init| ==> init[i] == order[i];
      }
      DistinctLength(init, keys - {k});
    }
  }
}
