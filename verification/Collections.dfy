/** Stable sorting by an integer key, standing for the library sorts the scheduler calls, and
    facts about finite collections. */
module Collections {

  ghost predicate SortedBy<T>(key: T -> int, s: seq<T>) {
    forall i, j :: 0 <= i < j < |s| ==> key(s[i]) <= key(s[j])
  }

  function Insert<T>(key: T -> int, x: T, s: seq<T>): seq<T> {
    if s == [] || key(x) <= key(s[0]) then [x] + s else [s[0]] + Insert(key, x, s[1..])
  }

  function SortBy<T>(key: T -> int, s: seq<T>): seq<T> {
    if s == [] then [] else Insert(key, s[0], SortBy(key, s[1..]))
  }

  lemma {:induction false} InsertAdds<T>(key: T -> int, x: T, s: seq<T>)
    ensures multiset(Insert(key, x, s)) == multiset{x} + multiset(s)
  {
    if !(s == [] || key(x) <= key(s[0])) {
      InsertAdds(key, x, s[1..]);
      assert s == [s[0]] + s[1..];
    }
  }

  lemma {:induction false} InsertMembers<T>(key: T -> int, x: T, s: seq<T>)
    ensures forall y :: y in Insert(key, x, s) ==> y == x || y in s
  {
    InsertAdds(key, x, s);
    forall y | y in Insert(key, x, s)
      ensures y == x || y in s
    {
      assert y in multiset(Insert(key, x, s));
    }
  }

  lemma {:induction false} SortedCons<T>(key: T -> int, x: T, s: seq<T>)
    requires SortedBy(key, s) && forall y :: y in s ==> key(x) <= key(y)
    ensures SortedBy(key, [x] + s)
  {
  }

  lemma {:induction false} SortedTail<T>(key: T -> int, s: seq<T>)
    requires s != [] && SortedBy(key, s)
    ensures SortedBy(key, s[1..]) && forall y :: y in s ==> key(s[0]) <= key(y)
  {
  }

  lemma {:induction false} InsertSorts<T>(key: T -> int, x: T, s: seq<T>)
    requires SortedBy(key, s)
    ensures SortedBy(key, Insert(key, x, s))
  {
    hide SortedBy;
    if s != [] {
      SortedTail(key, s);
    }
    if s == [] || key(x) <= key(s[0]) {
      SortedCons(key, x, s);
    } else {
      InsertSorts(key, x, s[1..]);
      InsertMembers(key, x, s[1..]);
      SortedCons(key, s[0], Insert(key, x, s[1..]));
    }
  }

  /** Sorting gives an ordered permutation. */
  lemma {:induction false} SortBySorts<T>(key: T -> int, s: seq<T>)
    ensures multiset(SortBy(key, s)) == multiset(s)
    ensures SortedBy(key, SortBy(key, s))
    ensures |SortBy(key, s)| == |s|
  {
    if s != [] {
      SortBySorts(key, s[1..]);
      InsertAdds(key, s[0], SortBy(key, s[1..]));
      InsertSorts(key, s[0], SortBy(key, s[1..]));
      assert s == [s[0]] + s[1..];
    }
    assert |multiset(SortBy(key, s))| == |SortBy(key, s)|;
  }

  lemma {:induction false} SameMembers<T>(s: seq<T>, t: seq<T>)
    requires multiset(s) == multiset(t)
    ensures forall x :: x in s <==> x in t
    ensures |s| == |t|
  {
    assert forall x :: x in s <==> x in multiset(s);
    assert |multiset(s)| == |s| && |multiset(t)| == |t|;
  }

  ghost function Names<T, K>(name: T -> K, s: seq<T>): set<K> {
    set x | x in s :: name(x)
  }

  lemma {:induction false} NamesAtMost<T, K>(name: T -> K, s: seq<T>)
    ensures |Names(name, s)| <= |s|
  {
    if s != [] {
      var init := s[..|s| - 1];
      NamesAtMost(name, init);
      assert s == init + [s[|s| - 1]];
      assert Names(name, s) == Names(name, init) + {name(s[|s| - 1])};
    }
  }

  lemma {:induction false} NamesOfConcat<T, K>(name: T -> K, a: seq<T>, b: seq<T>)
    ensures Names(name, a + b) == Names(name, a) + Names(name, b)
  {
  }

  lemma {:induction false} NoNames<T, K>(name: T -> K, s: seq<T>)
    requires s == []
    ensures Names(name, s) == {}
  {
  }

  lemma {:induction false} NamesAppend<T, K>(name: T -> K, s: seq<T>, x: T)
    ensures Names(name, s + [x]) == Names(name, s) + {name(x)}
  {
    NamesOfConcat(name, s, [x]);
    assert Names(name, [x]) == {name(x)};
  }

  lemma {:induction false} NamesPrefixStep<T, K>(name: T -> K, s: seq<T>, k: nat)
    requires k < |s| && Distinct(name, s)
    ensures Names(name, s[..k + 1]) == Names(name, s[..k]) + {name(s[k])}
    ensures name(s[k]) !in Names(name, s[..k])
    ensures Names(name, s[..k + 1]) <= Names(name, s)
  {
    assert s[..k + 1] == s[..k] + [s[k]];
    NamesAppend(name, s[..k], s[k]);
    assert s == s[..k + 1] + s[k + 1..];
    NamesOfConcat(name, s[..k + 1], s[k + 1..]);
  }

  ghost predicate Distinct<T, K>(name: T -> K, s: seq<T>) {
    forall i, j :: 0 <= i < j < |s| ==> name(s[i]) != name(s[j])
  }

  /** No two elements share a name exactly when there are as many names as elements. */
  lemma {:induction false} DistinctByCount<T, K>(name: T -> K, s: seq<T>)
    ensures Distinct(name, s) <==> |Names(name, s)| == |s|
  {
    if s != [] {
      var init, last := s[..|s| - 1], s[|s| - 1];
      assert s == init + [last];
      NamesAppend(name, init, last);
      NamesAtMost(name, init);
      DistinctByCount(name, init);
      if name(last) in Names(name, init) {
        var x :| x in init && name(x) == name(last);
        var i :| 0 <= i < |init| && init[i] == x;
        assert s[i] == x && name(s[i]) == name(s[|s| - 1]);
        assert !Distinct(name, s);
      } else {
        assert Distinct(name, s) <==> Distinct(name, init);
      }
    }
  }

  lemma {:induction false} CardinalityAtMost<T>(a: set<T>, b: set<T>)
    requires a <= b
    ensures |a| <= |b|
    ensures |a| == |b| ==> a == b
  {
    assert b == a + (b - a);
  }

  // ---------------------------------------------------------------------------------------------
  // Listings of a map
  // ---------------------------------------------------------------------------------------------

  /** `out` lists the values at the given keys, each once, in some order; `name` is a value's key. */
  ghost predicate Lists<K, V>(m: map<K, V>, name: V -> K, keys: set<K>, out: seq<V>) {
    && (forall v :: v in out ==> name(v) in m && m[name(v)] == v)
    && Names(name, out) == keys
    && |out| == |keys|
  }

  /** The keys of the values that pass `keep`. */
  function Chosen<K, V>(m: map<K, V>, keep: V -> bool): set<K> {
    set k | k in m && keep(m[k])
  }

  lemma {:induction false} ChosenKey<K, V>(m: map<K, V>, keep: V -> bool, k: K)
    requires k in m
    ensures k in Chosen(m, keep) <==> keep(m[k])
  {
  }

  lemma {:induction false} ChosenWithin<K, V>(m: map<K, V>, keep: V -> bool)
    ensures Chosen(m, keep) <= m.Keys
  {
  }

  /** A scan over the keys takes one more of them. */
  lemma {:induction false} ScanOne<K>(kept: set<K>, wanted: set<K>, unseen: set<K>, k: K)
    requires k in unseen && kept !! unseen && kept <= wanted <= kept + unseen
    ensures k in wanted ==> kept + {k} <= wanted <= kept + {k} + (unseen - {k}) && kept + {k} !! unseen - {k}
    ensures k !in wanted ==> wanted <= kept + (unseen - {k}) && kept !! unseen - {k}
  {
  }

  lemma {:induction false} ListsNothing<K, V>(m: map<K, V>, name: V -> K)
    ensures Lists(m, name, {}, [])
  {
  }

  /** Listing one more entry. */
  lemma {:induction false} ListsOne<K, V>(m: map<K, V>, name: V -> K, keys: set<K>, out: seq<V>, k: K)
    requires Lists(m, name, keys, out) && k in m && name(m[k]) == k && k !in keys
    ensures Lists(m, name, keys + {k}, out + [m[k]])
  {
    ListsStep(m, name, keys, out, m[k]);
    assert m[k := m[k]] == m;
  }

  /** Writing a new entry and listing it keeps a listing. */
  lemma {:induction false} ListsStep<K, V>(m: map<K, V>, name: V -> K, keys: set<K>, out: seq<V>, v: V)
    requires Lists(m, name, keys, out) && name(v) !in keys
    ensures Lists(m[name(v) := v], name, keys + {name(v)}, out + [v])
  {
    var after := m[name(v) := v];
    NamesAppend(name, out, v);
    forall w | w in out + [v]
      ensures name(w) in after && after[name(w)] == w
    {
      if w in out {
        assert name(w) in Names(name, out);
      }
    }
  }

  lemma {:induction false} ListsPermuted<K, V>(m: map<K, V>, name: V -> K, keys: set<K>, out: seq<V>, other: seq<V>)
    requires Lists(m, name, keys, out) && multiset(out) == multiset(other)
    ensures Lists(m, name, keys, other)
  {
    SameMembers(out, other);
    assert Names(name, out) == Names(name, other);
  }

  /** The first `n` of a sorted listing list the `n` least values. */
  lemma {:induction false} ListsLeast<K, V>(m: map<K, V>, name: V -> K, key: V -> int, keys: set<K>,
                                            sorted: seq<V>, n: nat)
    requires Lists(m, name, keys, sorted) && SortedBy(key, sorted) && n <= |sorted|
    ensures Lists(m, name, Names(name, sorted[..n]), sorted[..n])
    ensures Names(name, sorted[..n]) <= keys
    ensures SortedBy(key, sorted[..n])
    ensures forall k, i :: k in keys - Names(name, sorted[..n]) && 0 <= i < n ==> k in m && key(sorted[i]) <= key(m[k])
  {
    var out, rest := sorted[..n], sorted[n..];
    assert sorted == out + rest;
    NamesOfConcat(name, out, rest);
    DistinctByCount(name, sorted);
    DistinctPrefix(name, sorted, n);
    DistinctByCount(name, out);
    forall k, i | k in keys - Names(name, out) && 0 <= i < n
      ensures k in m && key(sorted[i]) <= key(m[k])
    {
      assert k in Names(name, rest);
      var v := SortedRest(name, key, sorted, n, i, k);
    }
  }

  lemma {:induction false} DistinctPrefix<T, K>(name: T -> K, s: seq<T>, n: nat)
    requires n <= |s| && Distinct(name, s)
    ensures Distinct(name, s[..n])
  {
  }

  lemma {:induction false} SortedRest<K, V>(name: V -> K, key: V -> int, sorted: seq<V>, n: nat, i: nat, k: K)
    returns (v: V)
    requires SortedBy(key, sorted) && i < n <= |sorted| && k in Names(name, sorted[n..])
    ensures v in sorted && name(v) == k && key(sorted[i]) <= key(v)
  {
    v :| v in sorted[n..] && name(v) == k;
    var j :| 0 <= j < |sorted[n..]| && sorted[n..][j] == v;
    assert sorted[n + j] == v;
  }
}
