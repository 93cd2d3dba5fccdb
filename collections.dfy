/**
 * Facts about the Java collections the helper relies on: the iteration order of a
 * hash map, the sum over its entries, and the sort of a list by a comparator.
 */
module Collections {
  import opened Wrappers

  /** `order` lists every element of `keys` exactly once: a possible iteration order of a hash map. */
  predicate Enumerates<K>(order: seq<K>, keys: set<K>) {
    (forall i, j :: 0 <= i < j < |order| ==> order[i] != order[j]) &&
    (forall i :: 0 <= i < |order| ==> order[i] in keys) &&
    (forall k :: k in keys ==> k in order)
  }

  /** Some key of a non-empty map: the entry a hash-map iteration happens to visit first. */
  ghost function AnyKey<K, V>(m: map<K, V>): (k: K)
    requires |m| > 0
    ensures k in m
  {
    var k :| k in m; k
  }

  /** The next key a hash-map iteration visits, among the keys `pending` not visited yet. */
  method NextKey<K>(pending: set<K>) returns (k: K)
    requires pending != {}
    ensures k in pending
  {
    k :| k in pending;
  }

  /** The sum of the values of a map, in no particular order. */
  ghost function SumValues<K>(m: map<K, int>): int
    decreases |m|
  {
    if |m| == 0 then 0
    else
      var k := AnyKey(m);
      assert (m - {k}).Keys == m.Keys - {k};
      m[k] + SumValues(m - {k})
  }

  /** The sum does not depend on the entry taken out first. */
  lemma {:induction false} SumValuesRemove<K>(m: map<K, int>, k: K)
    requires k in m
    ensures SumValues(m) == m[k] + SumValues(m - {k})
    decreases |m|
  {
    var j := AnyKey(m);
    if j != k {
      assert (m - {j}).Keys == m.Keys - {j};
      assert (m - {k}).Keys == m.Keys - {k};
      SumValuesRemove(m - {j}, k);
      SumValuesRemove(m - {k}, j);
      assert m - {j} - {k} == m - {k} - {j};
    }
  }

  /** Replacing or adding one entry changes the sum by the difference of the values. */
  lemma SumValuesUpdate<K>(m: map<K, int>, k: K, v: int)
    ensures SumValues(m[k := v]) == SumValues(m) - (if k in m then m[k] else 0) + v
  {
    var u := m[k := v];
    SumValuesRemove(u, k);
    if k in m {
      SumValuesRemove(m, k);
      RemoveUpdated(m, k, v);
    } else {
      RemoveUpdated(m, k, v);
      RemoveAbsent(m, k);
    }
  }

  lemma RemoveUpdated<K>(m: map<K, int>, k: K, v: int)
    ensures m[k := v] - {k} == m - {k}
  {
    assert (m[k := v] - {k}).Keys == (m - {k}).Keys;
  }

  lemma RemoveAbsent<K>(m: map<K, int>, k: K)
    requires k !in m
    ensures m - {k} == m
  {
    assert (m - {k}).Keys == m.Keys;
  }

  /** The number of elements a map to lists holds, across all its lists. */
  ghost function EntryCount<K, V>(m: map<K, seq<V>>): int {
    SumValues(Lengths(m))
  }

  ghost function Lengths<K, V>(m: map<K, seq<V>>): map<K, int> {
    map k | k in m :: |m[k]|
  }

  /** Replacing or adding one list changes the count by the difference of the lengths. */
  lemma EntryCountUpdate<K, V>(m: map<K, seq<V>>, k: K, v: seq<V>)
    ensures EntryCount(m[k := v]) == EntryCount(m) - (if k in m then |m[k]| else 0) + |v|
  {
    assert Lengths(m[k := v]) == Lengths(m)[k := |v|];
    SumValuesUpdate(Lengths(m), k, |v|);
  }

  /** Two maps whose lists have the same lengths under the same keys hold as many elements. */
  lemma EntryCountSameLengths<K, U, V>(m: map<K, seq<U>>, n: map<K, seq<V>>)
    requires m.Keys == n.Keys
    requires forall k :: k in m ==> |m[k]| == |n[k]|
    ensures EntryCount(m) == EntryCount(n)
  {
    assert Lengths(m) == Lengths(n);
  }

  /** `leq` is total and transitive, as a Java comparator consistent with a natural ordering is. */
  ghost predicate TotalPreorder<T(!new)>(leq: (T, T) -> bool) {
    (forall a, b :: leq(a, b) || leq(b, a)) &&
    (forall a, b, c :: leq(a, b) && leq(b, c) ==> leq(a, c))
  }

  ghost predicate Sorted<T>(leq: (T, T) -> bool, s: seq<T>) {
    forall i, j :: 0 <= i < j < |s| ==> leq(s[i], s[j])
  }

  /** Puts `x` before the first element it is ordered before, after the ones it is not. */
  function Insert<T>(x: T, s: seq<T>, leq: (T, T) -> bool): (r: seq<T>)
    ensures multiset(r) == multiset(s) + multiset{x}
  {
    if s == [] then [x]
    else if leq(x, s[0]) then [x] + s
    else
      assert s == [s[0]] + s[1..];
      [s[0]] + Insert(x, s[1..], leq)
  }

  /** Insertion sort: the list sorted by `leq` (the `sorted()` of a Java stream). */
  function SortBy<T>(s: seq<T>, leq: (T, T) -> bool): (r: seq<T>)
    ensures multiset(r) == multiset(s)
  {
    if s == [] then []
    else
      assert s == [s[0]] + s[1..];
      Insert(s[0], SortBy(s[1..], leq), leq)
  }

  /** Every element of `s` is ordered after `b`. */
  ghost predicate LowerBound<T>(b: T, s: seq<T>, leq: (T, T) -> bool) {
    forall i :: 0 <= i < |s| ==> leq(b, s[i])
  }

  lemma {:induction false} InsertLowerBound<T>(b: T, x: T, s: seq<T>, leq: (T, T) -> bool)
    requires LowerBound(b, s, leq) && leq(b, x)
    ensures LowerBound(b, Insert(x, s, leq), leq)
  {
    if s != [] && !leq(x, s[0]) {
      InsertLowerBound(b, x, s[1..], leq);
      var tail := Insert(x, s[1..], leq);
      assert forall i :: 0 < i < |tail| + 1 ==> ([s[0]] + tail)[i] == tail[i - 1];
    }
  }

  lemma SortedCons<T>(b: T, t: seq<T>, leq: (T, T) -> bool)
    requires LowerBound(b, t, leq) && Sorted(leq, t)
    ensures Sorted(leq, [b] + t)
  {
    var r := [b] + t;
    forall i, j | 0 <= i < j < |r| ensures leq(r[i], r[j]) {
      assert r[j] == t[j - 1];
      if i > 0 {
        assert r[i] == t[i - 1];
      }
    }
  }

  lemma {:induction false} InsertSorted<T(!new)>(x: T, s: seq<T>, leq: (T, T) -> bool)
    requires TotalPreorder(leq) && Sorted(leq, s)
    ensures Sorted(leq, Insert(x, s, leq))
  {
    if s == [] {
    } else if leq(x, s[0]) {
      assert LowerBound(x, s, leq) by {
        forall i | 0 <= i < |s| ensures leq(x, s[i]) {
          if i > 0 {
            assert leq(s[0], s[i]);
          }
        }
      }
      SortedCons(x, s, leq);
    } else {
      var t := s[1..];
      assert Sorted(leq, t) by {
        forall i, j | 0 <= i < j < |t| ensures leq(t[i], t[j]) {
          assert t[i] == s[i + 1] && t[j] == s[j + 1];
        }
      }
      assert LowerBound(s[0], t, leq) by {
        forall i | 0 <= i < |t| ensures leq(s[0], t[i]) {
          assert t[i] == s[i + 1];
        }
      }
      InsertSorted(x, t, leq);
      InsertLowerBound(s[0], x, t, leq);
      SortedCons(s[0], Insert(x, t, leq), leq);
    }
  }

  /** The sort yields a sorted permutation of its input. */
  lemma {:induction false} SortBySorted<T(!new)>(s: seq<T>, leq: (T, T) -> bool)
    requires TotalPreorder(leq)
    ensures Sorted(leq, SortBy(s, leq)) && multiset(SortBy(s, leq)) == multiset(s)
  {
    if s != [] {
      SortBySorted(s[1..], leq);
      InsertSorted(s[0], SortBy(s[1..], leq), leq);
    }
  }

  /** Parsing a sequence item by item: all the results, in order, or `None` as soon as one
      item fails. */
  function ParseAll<A, B>(xs: seq<A>, parse: A -> Option<B>): Option<seq<B>> {
    if xs == [] then Some([])
    else
      match ParseAll(xs[..|xs| - 1], parse)
      case None => None
      case Some(ys) =>
        match parse(xs[|xs| - 1])
        case None => None
        case Some(y) => Some(ys + [y])
  }

  /** Once an item fails, the whole sequence fails. */
  lemma {:induction false} ParseAllAfterFailure<A, B>(xs: seq<A>, parse: A -> Option<B>, i: nat)
    requires i <= |xs| && ParseAll(xs[..i], parse).None?
    ensures ParseAll(xs, parse).None?
    decreases |xs|
  {
    if i == |xs| {
      assert xs[..i] == xs;
    } else {
      var init := xs[..|xs| - 1];
      assert init[..i] == xs[..i];
      ParseAllAfterFailure(init, parse, i);
    }
  }

  /** The sequence fails exactly when one of its items fails; otherwise it gives one result
      per item, in order. */
  lemma {:induction false} ParseAllEach<A, B>(xs: seq<A>, parse: A -> Option<B>)
    ensures ParseAll(xs, parse).None? <==> exists i :: 0 <= i < |xs| && parse(xs[i]).None?
    ensures ParseAll(xs, parse).Some? ==> |ParseAll(xs, parse).value| == |xs|
    ensures ParseAll(xs, parse).Some? ==>
      forall i :: 0 <= i < |xs| ==> parse(xs[i]) == Some(ParseAll(xs, parse).value[i])
  {
    if xs != [] {
      var init := xs[..|xs| - 1];
      ParseAllEach(init, parse);
      assert forall i :: 0 <= i < |init| ==> init[i] == xs[i];
      var r := ParseAll(xs, parse);
      if r.Some? {
        var ys := ParseAll(init, parse).value;
        assert r.value == ys + [r.value[|ys|]];
        forall i | 0 <= i < |xs| ensures parse(xs[i]) == Some(r.value[i]) {
          if i < |init| {
            assert r.value[i] == ys[i];
          }
        }
      }
    }
  }
}
