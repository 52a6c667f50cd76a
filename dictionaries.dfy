/** The parts of .NET's `Dictionary<K, V>` and `SortedDictionary<int, V>` that the
    search client relies on. A dictionary is its list of entries in enumeration
    order; since the client never removes from a dictionary it has filled, that
    order is the order of insertion. `ToMap` gives the mathematical meaning. */
module Dictionaries {
  import opened Outcomes

  /** The set of keys that occur among the entries. */
  function Keys<K, V>(es: seq<(K, V)>): set<K> {
    if es == [] then {} else Keys(es[..|es| - 1]) + {es[|es| - 1].0}
  }

  /** No key occurs twice among the entries: each entry's key is new when it is
      added after the entries before it. */
  predicate DistinctKeys<K(==), V>(es: seq<(K, V)>) {
    es == [] || (DistinctKeys(es[..|es| - 1]) && es[|es| - 1].0 !in Keys(es[..|es| - 1]))
  }

  /** A dictionary: its entries in enumeration order, keys pairwise distinct. */
  type Dictionary<K(==), V> = es: seq<(K, V)> | DistinctKeys(es) witness []

  lemma {:induction false} KeysAppend<K, V>(a: seq<(K, V)>, b: seq<(K, V)>)
    ensures Keys(a + b) == Keys(a) + Keys(b)
  {
    if b != [] {
      var n := |b| - 1;
      assert (a + b)[..|a + b| - 1] == a + b[..n];
      KeysAppend(a, b[..n]);
    } else {
      assert a + b == a;
    }
  }

  lemma {:induction false} KeyAt<K, V>(es: seq<(K, V)>, i: nat)
    requires i < |es|
    ensures es[i].0 in Keys(es)
  {
    if i < |es| - 1 {
      KeyAt(es[..|es| - 1], i);
    }
  }

  /** The map the entries denote; a later entry overrides an earlier one with the
      same key (which cannot happen in a `Dictionary`). */
  function ToMap<K, V>(es: seq<(K, V)>): (m: map<K, V>)
    ensures m.Keys == Keys(es)
  {
    if es == [] then map[]
    else
      var n := |es| - 1;
      ToMap(es[..n])[es[n].0 := es[n].1]
  }

  /** The indexer `d[k]`: the value stored under `k`, or `KeyNotFoundException`. */
  function Get<K(==), V>(es: seq<(K, V)>, k: K): (r: Result<V>)
    ensures r.Success? <==> k in Keys(es)
    ensures r.Success? ==> r.value == ToMap(es)[k]
    ensures r.Failure? ==> r.error == KeyNotFoundException
  {
    if es == [] then Failure(KeyNotFoundException)
    else
      var n := |es| - 1;
      if es[n].0 == k then Success(es[n].1) else Get(es[..n], k)
  }

  /** `Dictionary.Add`: appends a new entry, or throws `ArgumentException` when
      the key is already present. */
  function Add<K(==), V>(d: Dictionary<K, V>, k: K, v: V): (r: Result<Dictionary<K, V>>)
    ensures r.Failure? <==> k in Keys(d)
    ensures r.Failure? ==> r.error == ArgumentException
    ensures r.Success? ==> r.value == d + [(k, v)]
    ensures r.Success? ==> Keys(r.value) == Keys(d) + {k} && ToMap(r.value) == ToMap(d)[k := v]
  {
    if k in Keys(d) then Failure(ArgumentException)
    else
      var e := d + [(k, v)];
      assert e[..|d|] == d;
      Success(e)
  }

  /** `ToDictionary` over a sequence of pairs: adds the pairs in order, and throws
      `ArgumentException` at the first key that repeats. */
  function FromEntries<K(==), V>(es: seq<(K, V)>): (r: Result<Dictionary<K, V>>)
    ensures r.Success? <==> DistinctKeys(es)
    ensures r.Success? ==> r.value == es
    ensures r.Failure? ==> r.error == ArgumentException
  {
    if es == [] then Success([])
    else
      var n := |es| - 1;
      match FromEntries(es[..n])
      case Failure(e) =>
        assert !DistinctKeys(es[..n]);
        Failure(e)
      case Success(d) =>
        assert d == es[..n];
        assert es == d + [es[n]];
        Add(d, es[n].0, es[n].1)
  }

  /** `Where(x => x.Key != k)` followed by `ToDictionary`: every entry except the
      one under `k`, in the same order. */
  function RemoveKey<K(==), V>(es: seq<(K, V)>, k: K): (r: seq<(K, V)>)
    ensures Keys(r) == Keys(es) - {k}
    ensures ToMap(r) == ToMap(es) - {k}
    ensures DistinctKeys(es) ==> DistinctKeys(r)
    ensures k !in Keys(es) ==> r == es
  {
    if es == [] then []
    else
      var n := |es| - 1;
      var front := RemoveKey(es[..n], k);
      assert es == es[..n] + [es[n]];
      if es[n].0 == k then front
      else
        var r := front + [es[n]];
        assert r[..|front|] == front;
        r
  }

  /** `ToDictionary(x => x.Key, x => f(x.Value))` over a dictionary: same keys in
      the same order, each value passed through `f`. */
  function MapValues<K, V, W>(es: seq<(K, V)>, f: V -> W): (r: seq<(K, W)>)
    ensures |r| == |es|
    ensures forall i :: 0 <= i < |es| ==> r[i].0 == es[i].0 && r[i].1 == f(es[i].1)
  {
    if es == [] then []
    else
      var n := |es| - 1;
      MapValues(es[..n], f) + [(es[n].0, f(es[n].1))]
  }

  /** Mapping the values keeps the keys, so it keeps a dictionary a dictionary,
      and the map it denotes is the old map with `f` applied to every value. */
  lemma {:induction false} MapValuesMeaning<K, V, W>(es: seq<(K, V)>, f: V -> W)
    ensures Keys(MapValues(es, f)) == Keys(es)
    ensures DistinctKeys(es) ==> DistinctKeys(MapValues(es, f))
    ensures ToMap(MapValues(es, f)) == map k | k in ToMap(es) :: f(ToMap(es)[k])
  {
    if es != [] {
      var n := |es| - 1;
      var r := MapValues(es, f);
      MapValuesMeaning(es[..n], f);
      assert r[..n] == MapValues(es[..n], f);
    }
  }

  /** Wrapping every value and unwrapping it again gives back the entries. */
  lemma MapValuesInverse<K, V, W>(es: seq<(K, V)>, f: V -> W, g: W -> V)
    requires forall v :: g(f(v)) == v
    ensures MapValues(MapValues(es, f), g) == es
  {
  }

  // ---------------------------------------------------------------------------
  // SortedDictionary<int, V>

  /** Keys strictly increase along the entries (so they are also distinct). */
  predicate StrictlyAscending<V>(es: seq<(int, V)>) {
    forall i, j :: 0 <= i < j < |es| ==> es[i].0 < es[j].0
  }

  /** Places `p` in front of the first entry whose key is larger. */
  function InsertByKey<V>(s: seq<(int, V)>, p: (int, V)): seq<(int, V)> {
    if s == [] || p.0 < s[0].0 then [p] + s
    else [s[0]] + InsertByKey(s[1..], p)
  }

  /** Inserting adds exactly the one entry. */
  lemma {:induction false} InsertByKeyContents<V>(s: seq<(int, V)>, p: (int, V))
    ensures multiset(InsertByKey(s, p)) == multiset(s) + multiset{p}
    ensures Keys(InsertByKey(s, p)) == Keys(s) + {p.0}
  {
    assert Keys([p]) == {p.0} by { assert [p][..0] == []; }
    if s == [] || p.0 < s[0].0 {
      KeysAppend([p], s);
    } else {
      var t := s[1..];
      assert s == [s[0]] + t;
      KeysAppend([s[0]], t);
      assert Keys([s[0]]) == {s[0].0} by { assert [s[0]][..0] == []; }
      InsertByKeyContents(t, p);
      KeysAppend([s[0]], InsertByKey(t, p));
    }
  }

  /** Every key of the entries lies above `lo`. */
  predicate Above<V>(lo: int, s: seq<(int, V)>) {
    forall j :: 0 <= j < |s| ==> lo < s[j].0
  }

  lemma {:induction false} InsertByKeyAbove<V>(s: seq<(int, V)>, p: (int, V), lo: int)
    requires Above(lo, s) && lo < p.0
    ensures Above(lo, InsertByKey(s, p))
  {
    if s != [] && p.0 >= s[0].0 {
      InsertByKeyAbove(s[1..], p, lo);
    }
  }

  lemma AscendingCons<V>(x: (int, V), s: seq<(int, V)>)
    requires StrictlyAscending(s) && Above(x.0, s)
    ensures StrictlyAscending([x] + s)
  {
  }

  /** Inserting a new key keeps the entries in strictly ascending key order. */
  lemma {:induction false} InsertByKeyAscending<V>(s: seq<(int, V)>, p: (int, V))
    requires StrictlyAscending(s) && p.0 !in Keys(s)
    ensures StrictlyAscending(InsertByKey(s, p))
  {
    if s == [] || p.0 < s[0].0 {
      assert Above(p.0, s) by {
        forall j | 0 <= j < |s| ensures p.0 < s[j].0 {
          if j > 0 { assert s[0].0 < s[j].0; }
        }
      }
      AscendingCons(p, s);
    } else {
      var t := s[1..];
      assert s == [s[0]] + t;
      KeysAppend([s[0]], t);
      KeyAt(s, 0);
      assert StrictlyAscending(t) by {
        forall i, j | 0 <= i < j < |t| ensures t[i].0 < t[j].0 {
          assert t[i] == s[i + 1] && t[j] == s[j + 1];
        }
      }
      assert Above(s[0].0, t) by {
        forall j | 0 <= j < |t| ensures s[0].0 < t[j].0 {
          assert t[j] == s[j + 1];
        }
      }
      InsertByKeyAscending(t, p);
      InsertByKeyAbove(t, p, s[0].0);
      AscendingCons(s[0], InsertByKey(t, p));
    }
  }

  /** The entries of `new SortedDictionary<int, V>(d)`: the entries of `d`
      inserted one at a time, in `d`'s enumeration order. */
  function SortedByKey<V>(es: seq<(int, V)>): seq<(int, V)> {
    if es == [] then []
    else
      var n := |es| - 1;
      InsertByKey(SortedByKey(es[..n]), es[n])
  }

  /** Sorting keeps the set of keys. */
  lemma {:induction false} SortedByKeyKeys<V>(es: seq<(int, V)>)
    ensures Keys(SortedByKey(es)) == Keys(es)
  {
    if es != [] {
      var n := |es| - 1;
      SortedByKeyKeys(es[..n]);
      InsertByKeyContents(SortedByKey(es[..n]), es[n]);
    }
  }

  /** Sorting keeps the entries, counted with multiplicity. */
  lemma {:induction false} SortedByKeyMultiset<V>(es: seq<(int, V)>)
    ensures multiset(SortedByKey(es)) == multiset(es)
  {
    if es != [] {
      var n := |es| - 1;
      SortedByKeyMultiset(es[..n]);
      InsertByKeyContents(SortedByKey(es[..n]), es[n]);
      assert es == es[..n] + [es[n]];
    }
  }

  /** Sorting entries with distinct keys orders them by strictly ascending key. */
  lemma {:induction false} SortedByKeyAscending<V>(es: seq<(int, V)>)
    requires DistinctKeys(es)
    ensures StrictlyAscending(SortedByKey(es))
  {
    if es != [] {
      var n := |es| - 1;
      SortedByKeyAscending(es[..n]);
      SortedByKeyKeys(es[..n]);
      InsertByKeyAscending(SortedByKey(es[..n]), es[n]);
    }
  }

  /** Sorting a dictionary yields its own entries, by strictly ascending key. */
  lemma SortedByKeyCorrect<V>(es: seq<(int, V)>)
    requires DistinctKeys(es)
    ensures StrictlyAscending(SortedByKey(es))
    ensures multiset(SortedByKey(es)) == multiset(es)
    ensures Keys(SortedByKey(es)) == Keys(es)
  {
    SortedByKeyAscending(es);
    SortedByKeyMultiset(es);
    SortedByKeyKeys(es);
  }

  /** The first entry of a key-ascending list has the least key, and is the only
      entry with that key. */
  lemma AscendingHead<V>(s: seq<(int, V)>, x: (int, V))
    requires StrictlyAscending(s) && x in s
    ensures s[0].0 <= x.0
    ensures x.0 == s[0].0 ==> x == s[0]
  {
  }

  lemma AscendingTail<V>(s: seq<(int, V)>)
    requires StrictlyAscending(s) && s != []
    ensures StrictlyAscending(s[1..])
  {
  }

  lemma TailMultiset<V>(s: seq<(int, V)>)
    requires s != []
    ensures multiset(s[1..]) == multiset(s) - multiset{s[0]}
  {
    assert s == [s[0]] + s[1..];
  }

  lemma AscendingSameHead<V>(a: seq<(int, V)>, b: seq<(int, V)>)
    requires StrictlyAscending(a) && StrictlyAscending(b)
    requires multiset(a) == multiset(b) && a != [] && b != []
    ensures a[0] == b[0]
  {
    assert a[0] in multiset(b) && b[0] in multiset(a);
    AscendingHead(b, a[0]);
    AscendingHead(a, b[0]);
  }

  /** Two key-ascending entry lists with the same entries are the same list: the
      order of a `SortedDictionary` is fixed by its contents. */
  lemma {:induction false} AscendingUnique<V>(a: seq<(int, V)>, b: seq<(int, V)>)
    requires StrictlyAscending(a) && StrictlyAscending(b)
    requires multiset(a) == multiset(b)
    ensures a == b
  {
    assert |a| == |multiset(a)| == |multiset(b)| == |b|;
    if a != [] {
      AscendingSameHead(a, b);
      TailMultiset(a);
      TailMultiset(b);
      AscendingTail(a);
      AscendingTail(b);
      AscendingUnique(a[1..], b[1..]);
      assert a == [a[0]] + a[1..] && b == [b[0]] + b[1..];
    }
  }
}
