/** Insertion-ordered dictionaries and counters: Python's `dict` and
    `defaultdict(int)` as the analyzer uses them, a mapping together with
    the order in which its keys were first added. */
module Dicts {

  /** `keys` lists the mapped keys in insertion order; `entries` maps them. */
  datatype Dict<K(!new), V> = Dict(keys: seq<K>, entries: map<K, V>) {

    /** Each key is listed once, and the listed keys are exactly the mapped ones. */
    predicate Valid() {
      && Distinct(keys)
      && (forall k | k in entries :: k in keys)
      && (forall k | k in keys :: k in entries)
    }
  }

  /** A `defaultdict(int)` used for counting. */
  type Counter<K(!new)> = Dict<K, nat>

  predicate Distinct<T(==)>(s: seq<T>) {
    forall i, j :: 0 <= i < j < |s| ==> s[i] != s[j]
  }

  function Empty<K(!new), V>(): (d: Dict<K, V>)
    ensures d.Valid()
    ensures forall k :: k !in d.entries
  {
    Dict([], map[])
  }

  /** `d.get(k, default)`: never inserts. */
  function Get<K(!new), V>(d: Dict<K, V>, k: K, default: V): V {
    if k in d.entries then d.entries[k] else default
  }

  /** `d[k] = v`: an existing key keeps its position, a new key is appended. */
  function Put<K(!new), V>(d: Dict<K, V>, k: K, v: V): (r: Dict<K, V>)
    requires d.Valid()
    ensures r.Valid()
    ensures k in r.entries && r.entries[k] == v
    ensures forall k' :: k' != k ==> (k' in r.entries <==> k' in d.entries)
    ensures forall k' :: k' != k && k' in d.entries ==> r.entries[k'] == d.entries[k']
    ensures k in d.entries ==> r.keys == d.keys
    ensures k !in d.entries ==> r.keys == d.keys + [k]
  {
    if k in d.entries then Dict(d.keys, d.entries[k := v])
    else Dict(d.keys + [k], d.entries[k := v])
  }

  /** `d.items()`: the (key, value) pairs in insertion order. */
  function Items<K(!new), V>(d: Dict<K, V>): (r: seq<(K, V)>)
    requires d.Valid()
    ensures |r| == |d.keys|
    ensures forall i :: 0 <= i < |r| ==> r[i].0 == d.keys[i] && r[i].1 == d.entries[d.keys[i]]
  {
    seq(|d.keys|, i requires 0 <= i < |d.keys| => (d.keys[i], d.entries[d.keys[i]]))
  }

  /** Sum of the counts stored under `keys` (a missing key counts as 0). */
  function Sum<K>(keys: seq<K>, m: map<K, nat>): nat {
    if |keys| == 0 then 0
    else Sum(keys[..|keys| - 1], m) + (if keys[|keys| - 1] in m then m[keys[|keys| - 1]] else 0)
  }

  /** The sum of all counts of a counter. */
  function Total<K(!new)>(c: Counter<K>): nat {
    Sum(c.keys, c.entries)
  }

  /** Every stored count is at least 1: the counter was only ever incremented. */
  predicate Positive<K(!new)>(c: Counter<K>) {
    forall k :: k in c.entries ==> c.entries[k] >= 1
  }

  lemma {:induction false} SumUpdateAbsent<K>(keys: seq<K>, m: map<K, nat>, k: K, v: nat)
    requires k !in keys
    ensures Sum(keys, m[k := v]) == Sum(keys, m)
  {
    if |keys| > 0 {
      SumUpdateAbsent(keys[..|keys| - 1], m, k, v);
    }
  }

  lemma {:induction false} SumUpdateOnce<K>(keys: seq<K>, m: map<K, nat>, k: K, v: nat)
    requires Distinct(keys) && k in keys && k in m
    ensures Sum(keys, m[k := v]) + m[k] == Sum(keys, m) + v
  {
    var n := |keys|;
    var init := keys[..n - 1];
    assert Distinct(init);
    if keys[n - 1] == k {
      assert k !in init;
      SumUpdateAbsent(init, m, k, v);
    } else {
      assert k in init by {
        var i :| 0 <= i < n && keys[i] == k;
        assert init[i] == k;
      }
      SumUpdateOnce(init, m, k, v);
    }
  }

  /** Incrementing a listed key raises the sum by one. */
  lemma IncTotalPresent<K>(keys: seq<K>, m: map<K, nat>, k: K)
    requires Distinct(keys) && k in keys && k in m
    ensures Sum(keys, m[k := m[k] + 1]) == Sum(keys, m) + 1
  {
    SumUpdateOnce(keys, m, k, m[k] + 1);
  }

  /** Appending a new key with count 1 raises the sum by one. */
  lemma IncTotalAbsent<K>(keys: seq<K>, m: map<K, nat>, k: K)
    requires k !in keys
    ensures Sum(keys + [k], m[k := 1]) == Sum(keys, m) + 1
  {
    var keys' := keys + [k];
    assert keys'[..|keys'| - 1] == keys;
    SumUpdateAbsent(keys, m, k, 1);
  }

  /** `c[k] += 1` on a `defaultdict(int)`: a missing key starts from 0 and is appended. */
  function Inc<K(!new)>(c: Counter<K>, k: K): (r: Counter<K>)
    requires c.Valid()
    ensures r.Valid()
    ensures Get(r, k, 0) == Get(c, k, 0) + 1
    ensures forall k' :: k' != k ==> Get(r, k', 0) == Get(c, k', 0)
    ensures k in r.entries && forall k' :: k' != k ==> (k' in r.entries <==> k' in c.entries)
    ensures k in c.entries ==> r.keys == c.keys
    ensures k !in c.entries ==> r.keys == c.keys + [k]
    ensures Total(r) == Total(c) + 1
    ensures Positive(c) ==> Positive(r)
  {
    if k in c.entries then
      IncTotalPresent(c.keys, c.entries, k);
      Put(c, k, c.entries[k] + 1)
    else
      IncTotalAbsent(c.keys, c.entries, k);
      Put(c, k, 1)
  }

  /** Counting the keys of `ks` one by one into a fresh counter. */
  function CountAll<K(!new)>(ks: seq<K>): (c: Counter<K>)
    ensures c.Valid()
  {
    if |ks| == 0 then Empty() else Inc(CountAll(ks[..|ks| - 1]), ks[|ks| - 1])
  }

  /** Counting one more key is one more increment. */
  lemma CountAllSnoc<K(!new)>(ks: seq<K>, y: K)
    ensures CountAll(ks + [y]) == Inc(CountAll(ks), y)
  {
    assert (ks + [y])[..|ks|] == ks;
  }

  /** Counting a key not seen before appends it to the key order. */
  lemma CountAllSnocNew<K(!new)>(ks: seq<K>, y: K)
    requires y !in ks
    ensures CountAll(ks + [y]).keys == CountAll(ks).keys + [y]
  {
    CountAllSnoc(ks, y);
    CountAllMembers(ks);
  }

  /** Counting distinct keys lists each of them, in order. */
  lemma {:induction false} CountAllDistinct<K(!new)>(ks: seq<K>)
    requires Distinct(ks)
    ensures CountAll(ks).keys == ks
  {
    if |ks| > 0 {
      var init, y := ks[..|ks| - 1], ks[|ks| - 1];
      assert ks == init + [y];
      assert Distinct(init);
      assert y !in init;
      CountAllDistinct(init);
      CountAllSnocNew(init, y);
    }
  }

  /** Index of the first occurrence of `x` in `s`. */
  function FirstIndex<T(==)>(s: seq<T>, x: T): (i: nat)
    requires x in s
    ensures i < |s| && s[i] == x
    ensures forall j :: 0 <= j < i ==> s[j] != x
  {
    if s[0] == x then 0 else 1 + FirstIndex(s[1..], x)
  }

  /** `keys` lists elements of `s` in the order of their first occurrence in `s`. */
  predicate FirstSeenOrder<T(==)>(s: seq<T>, keys: seq<T>) {
    forall i, j :: 0 <= i < j < |keys| ==>
      keys[i] in s && keys[j] in s && FirstIndex(s, keys[i]) < FirstIndex(s, keys[j])
  }

  lemma {:induction false} FirstIndexAppend<T>(s: seq<T>, y: T, x: T)
    requires x in s + [y]
    ensures x in s ==> FirstIndex(s + [y], x) == FirstIndex(s, x)
    ensures x !in s ==> FirstIndex(s + [y], x) == |s|
  {
    var i := FirstIndex(s + [y], x);
    if x in s {
      var k := FirstIndex(s, x);
      assert (s + [y])[k] == x;
    }
  }

  /** The count of each key is its number of occurrences. */
  lemma {:induction false} CountAllCounts<K(!new)>(ks: seq<K>)
    ensures forall k :: Get(CountAll(ks), k, 0) == multiset(ks)[k]
  {
    if |ks| > 0 {
      var init, y := ks[..|ks| - 1], ks[|ks| - 1];
      assert ks == init + [y];
      assert multiset(ks) == multiset(init) + multiset{y};
      CountAllCounts(init);
    }
  }

  /** The counted keys are exactly the elements of the sequence. */
  lemma {:induction false} CountAllMembers<K(!new)>(ks: seq<K>)
    ensures forall k :: k in CountAll(ks).entries <==> k in ks
  {
    if |ks| > 0 {
      var init, y := ks[..|ks| - 1], ks[|ks| - 1];
      assert ks == init + [y];
      CountAllMembers(init);
      forall k | k in ks
        ensures k in init || k == y
      {
        var i :| 0 <= i < |ks| && ks[i] == k;
        if i < |init| { assert init[i] == k; }
      }
    }
  }

  /** Every key counted so far has a positive count, and the counts add up to the length. */
  lemma {:induction false} CountAllTotal<K(!new)>(ks: seq<K>)
    ensures Positive(CountAll(ks))
    ensures Total(CountAll(ks)) == |ks|
  {
    if |ks| > 0 {
      CountAllTotal(ks[..|ks| - 1]);
    }
  }

  /** Extending `s` keeps the order of keys already seen, and a new element
      may be listed after them. */
  lemma FirstSeenOrderAppend<T>(s: seq<T>, keys: seq<T>, y: T)
    requires FirstSeenOrder(s, keys)
    requires forall k | k in keys :: k in s
    ensures FirstSeenOrder(s + [y], keys)
    ensures y !in s ==> FirstSeenOrder(s + [y], keys + [y])
  {
    forall i, j | 0 <= i < j < |keys|
      ensures FirstIndex(s + [y], keys[i]) < FirstIndex(s + [y], keys[j])
    {
      FirstIndexAppend(s, y, keys[i]);
      FirstIndexAppend(s, y, keys[j]);
    }
    if y !in s {
      var keys' := keys + [y];
      forall i, j | 0 <= i < j < |keys'|
        ensures keys'[i] in s + [y] && keys'[j] in s + [y]
        ensures FirstIndex(s + [y], keys'[i]) < FirstIndex(s + [y], keys'[j])
      {
        assert keys'[i] == keys[i] && keys[i] in s;
        FirstIndexAppend(s, y, keys'[i]);
        FirstIndexAppend(s, y, keys'[j]);
      }
    }
  }

  /** The key order of the counter is the order of first occurrence. */
  lemma {:induction false} CountAllOrder<K(!new)>(ks: seq<K>)
    ensures FirstSeenOrder(ks, CountAll(ks).keys)
  {
    if |ks| > 0 {
      var init, y := ks[..|ks| - 1], ks[|ks| - 1];
      assert ks == init + [y];
      CountAllOrder(init);
      CountAllMembers(init);
      var c0 := CountAll(init);
      assert CountAll(ks) == Inc(c0, y);
      assert forall k | k in c0.keys :: k in init;
      FirstSeenOrderAppend(init, c0.keys, y);
    }
  }

  /** Counting a sequence: the count of each key is its number of occurrences,
      the counted keys are exactly the elements, and the key order is the order
      of first occurrence. */
  lemma {:induction false} CountAllSpec<K(!new)>(ks: seq<K>)
    ensures forall k :: Get(CountAll(ks), k, 0) == multiset(ks)[k]
    ensures forall k :: k in CountAll(ks).entries <==> k in ks
    ensures Positive(CountAll(ks))
    ensures Total(CountAll(ks)) == |ks|
    ensures FirstSeenOrder(ks, CountAll(ks).keys)
  {
    CountAllCounts(ks);
    CountAllMembers(ks);
    CountAllTotal(ks);
    CountAllOrder(ks);
  }

  /** The positions of `s` holding `x`. */
  function Occurrences<T(==)>(s: seq<T>, x: T): (r: set<int>)
    ensures forall i :: i in r <==> 0 <= i < |s| && s[i] == x
  {
    set i | 0 <= i < |s| && s[i] == x
  }

  /** The number of positions holding `x` is the multiplicity of `x`. */
  lemma {:induction false} OccurrencesCount<T>(s: seq<T>, x: T)
    ensures |Occurrences(s, x)| == multiset(s)[x]
  {
    if |s| > 0 {
      var init, y := s[..|s| - 1], s[|s| - 1];
      assert s == init + [y];
      OccurrencesCount(init, x);
      if y == x {
        assert Occurrences(s, x) == Occurrences(init, x) + {|s| - 1};
      } else {
        assert Occurrences(s, x) == Occurrences(init, x);
      }
    } else {
      assert Occurrences(s, x) == {};
    }
  }

  /** Counting a single key. */
  lemma CountOne<K(!new)>(a: K)
    ensures CountAll([a]).keys == [a] && Get(CountAll([a]), a, 0) == 1
  {
    assert [a][..0] == [];
  }

  /** Counting two different keys lists them in order, once each. */
  lemma CountTwo<K(!new)>(a: K, b: K)
    requires a != b
    ensures CountAll([a, b]).keys == [a, b]
    ensures Get(CountAll([a, b]), a, 0) == 1 && Get(CountAll([a, b]), b, 0) == 1
  {
    CountOne(a);
    var c1 := CountAll([a]);
    assert b !in c1.entries;
    assert Get(c1, b, 0) == 0;
    assert [a, b][..1] == [a];
    assert CountAll([a, b]) == Inc(c1, b);
  }

  /** A repeated key is counted twice and listed once, at its first position. */
  lemma CountOneThenTwo<K(!new)>(a: K, b: K)
    requires a != b
    ensures CountAll([a, b, b]).keys == [a, b]
    ensures Get(CountAll([a, b, b]), a, 0) == 1 && Get(CountAll([a, b, b]), b, 0) == 2
  {
    var ab := [a, b];
    CountTwo(a, b);
    var c2 := CountAll(ab);
    assert b in c2.entries;
    CountAllSnoc(ab, b);
    assert ab + [b] == [a, b, b];
  }

  /** Three different keys are listed in the order counted. */
  lemma CountThreeDistinct<K(!new)>(a: K, b: K, c: K)
    requires a != b && b != c && a != c
    ensures CountAll([a, b, c]).keys == [a, b, c]
  {
    var abc := [a, b, c];
    assert Distinct(abc) by {
      forall i, j | 0 <= i < j < 3
        ensures abc[i] != abc[j]
      {
      }
    }
    CountAllDistinct(abc);
  }
}
