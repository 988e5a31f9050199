/** The rows `save_results` hands to the CSV writer: a tag block sorted by
    count with "Untagged" last, a blank row, then a (port, protocol) block in
    counting order. */
module Report {
  import opened Dicts
  import opened Lookup
  import opened FlowLog

  /** A CSV cell: text, or a count the writer renders in decimal. */
  datatype Cell = Str(text: string) | Num(count: nat)

  type Row = seq<Cell>

  /** A `(tag, count)` pair of `tag_counts.items()`. */
  type Item = (string, nat)

  const TagCaption: Row := [Str("Tag Counts")]
  const TagHeader: Row := [Str("Tag"), Str("Count")]
  const PairCaption: Row := [Str("Port/Protocol Combination Counts")]
  const PairHeader: Row := [Str("Port"), Str("Protocol"), Str("Count")]

  /** Counts never increase along `xs`. */
  predicate NonIncreasing(xs: seq<Item>) {
    forall i, j :: 0 <= i < j < |xs| ==> xs[i].1 >= xs[j].1
  }

  /** The items of `xs` whose count is `c`, in their order in `xs`. */
  function WithCount(xs: seq<Item>, c: nat): seq<Item> {
    if |xs| == 0 then []
    else (if xs[0].1 == c then [xs[0]] else []) + WithCount(xs[1..], c)
  }

  /** Sum of the counts of `xs`. */
  function SumItems(xs: seq<Item>): nat {
    if |xs| == 0 then 0 else xs[0].1 + SumItems(xs[1..])
  }

  lemma {:induction false} SumItemsAppend(a: seq<Item>, b: seq<Item>)
    ensures SumItems(a + b) == SumItems(a) + SumItems(b)
  {
    if |a| == 0 {
      assert a + b == b;
    } else {
      assert (a + b)[1..] == a[1..] + b;
      SumItemsAppend(a[1..], b);
    }
  }

  /** Places `x` before the first item of the non-increasing `s` whose count
      is not larger, so it precedes the items of equal count. */
  function Insert(x: Item, s: seq<Item>): (r: seq<Item>)
    requires NonIncreasing(s)
    ensures |r| == |s| + 1 && (r[0] == x || (|s| > 0 && r[0] == s[0]))
    ensures NonIncreasing(r)
    ensures multiset(r) == multiset(s) + multiset{x}
  {
    if |s| == 0 || s[0].1 <= x.1 then [x] + s
    else
      var rest := Insert(x, s[1..]);
      assert s == [s[0]] + s[1..];
      assert rest[0].1 <= s[0].1;
      [s[0]] + rest
  }

  lemma {:induction false} InsertSum(x: Item, s: seq<Item>)
    requires NonIncreasing(s)
    ensures SumItems(Insert(x, s)) == x.1 + SumItems(s)
  {
    if |s| > 0 && s[0].1 > x.1 {
      InsertSum(x, s[1..]);
      assert ([s[0]] + Insert(x, s[1..]))[1..] == Insert(x, s[1..]);
    } else {
      assert ([x] + s)[1..] == s;
    }
  }

  /** Among the items of one count, the inserted one comes first. */
  lemma {:induction false} InsertStable(x: Item, s: seq<Item>, c: nat)
    requires NonIncreasing(s)
    ensures WithCount(Insert(x, s), c) == if x.1 == c then [x] + WithCount(s, c) else WithCount(s, c)
  {
    if |s| > 0 && s[0].1 > x.1 {
      InsertStable(x, s[1..], c);
      assert ([s[0]] + Insert(x, s[1..]))[1..] == Insert(x, s[1..]);
    } else {
      assert ([x] + s)[1..] == s;
    }
  }

  /** `sorted(items, key=count, reverse=True)`, a stable sort by count,
      largest first: the result is a permutation of `xs` whose counts never
      increase, with the same total. */
  function SortByCountDesc(xs: seq<Item>): (r: seq<Item>)
    ensures NonIncreasing(r)
    ensures multiset(r) == multiset(xs)
    ensures SumItems(r) == SumItems(xs)
  {
    if |xs| == 0 then []
    else
      var sorted := SortByCountDesc(xs[1..]);
      assert xs == [xs[0]] + xs[1..];
      InsertSum(xs[0], sorted);
      Insert(xs[0], sorted)
  }

  /** The sort is stable: for every count, the items with that count appear
      in the same order as in `xs`. */
  lemma {:induction false} SortByCountDescStable(xs: seq<Item>, c: nat)
    ensures WithCount(SortByCountDesc(xs), c) == WithCount(xs, c)
  {
    if |xs| > 0 {
      SortByCountDescStable(xs[1..], c);
      InsertStable(xs[0], SortByCountDesc(xs[1..]), c);
    }
  }

  /** The items of the counter other than "Untagged", in insertion order. */
  function TaggedItems(keys: seq<string>, m: map<string, nat>): seq<Item>
    requires forall k :: k in keys ==> k in m
  {
    if |keys| == 0 then []
    else
      var last := keys[|keys| - 1];
      TaggedItems(keys[..|keys| - 1], m) + (if last == Untagged then [] else [(last, m[last])])
  }

  /** Each item other than "Untagged" appears exactly once, with its count. */
  lemma {:induction false} TaggedItemsContents(keys: seq<string>, m: map<string, nat>)
    requires forall k :: k in keys ==> k in m
    requires Distinct(keys)
    ensures forall p: Item :: multiset(TaggedItems(keys, m))[p]
              == (if p.0 != Untagged && p.0 in keys && m[p.0] == p.1 then 1 else 0)
  {
    if |keys| > 0 {
      var init, last := keys[..|keys| - 1], keys[|keys| - 1];
      assert keys == init + [last];
      assert Distinct(init);
      assert last !in init;
      TaggedItemsContents(init, m);
      forall k | k in keys
        ensures k in init || k == last
      {
        var i :| 0 <= i < |keys| && keys[i] == k;
        if i < |init| { assert init[i] == k; }
      }
    }
  }

  /** Leaving out "Untagged" loses exactly its count from the sum. */
  lemma {:induction false} TaggedItemsSum(keys: seq<string>, m: map<string, nat>)
    requires forall k :: k in keys ==> k in m
    requires Distinct(keys)
    ensures SumItems(TaggedItems(keys, m)) + (if Untagged in keys then m[Untagged] else 0) == Sum(keys, m)
  {
    if |keys| > 0 {
      var init, last := keys[..|keys| - 1], keys[|keys| - 1];
      assert keys == init + [last];
      assert Distinct(init);
      assert last !in init;
      TaggedItemsSum(init, m);
      var tail: seq<Item> := if last == Untagged then [] else [(last, m[last])];
      SumItemsAppend(TaggedItems(init, m), tail);
      assert Untagged in keys <==> Untagged in init || last == Untagged;
    }
  }

  /** The non-Untagged items in report order, counts never increasing. */
  function RankedTags(tags: Counter<string>): (r: seq<Item>)
    requires tags.Valid()
    ensures NonIncreasing(r)
  {
    SortByCountDesc(TaggedItems(tags.keys, tags.entries))
  }

  /** Ties keep counting order: for each count, the ranked tags with that
      count are in the order in which the counter first saw them. */
  lemma RankedTagsStable(tags: Counter<string>, c: nat)
    requires tags.Valid()
    ensures WithCount(RankedTags(tags), c) == WithCount(TaggedItems(tags.keys, tags.entries), c)
  {
    SortByCountDescStable(TaggedItems(tags.keys, tags.entries), c);
  }

  /** The items of the tag block: the ranked tags, then "Untagged" with its
      count when that count is above zero (`tag_counts.get("Untagged", 0)`). */
  function TagBlockItems(tags: Counter<string>): (b: seq<Item>)
    requires tags.Valid()
  {
    var u := Get(tags, Untagged, 0);
    RankedTags(tags) + (if u > 0 then [(Untagged, u)] else [])
  }

  /** No ranked item is "Untagged". */
  lemma RankedTagsTagged(tags: Counter<string>)
    requires tags.Valid()
    ensures forall i :: 0 <= i < |RankedTags(tags)| ==> RankedTags(tags)[i].0 != Untagged
  {
    var ranked := RankedTags(tags);
    var items := TaggedItems(tags.keys, tags.entries);
    TaggedItemsContents(tags.keys, tags.entries);
    forall i | 0 <= i < |ranked|
      ensures ranked[i].0 != Untagged
    {
      assert ranked[i] in multiset(items);
    }
  }

  /** "Untagged" appears at most once in the tag block, only as its last
      row, only with a count above zero, and always when its count is above
      zero; the counts before it never increase. */
  lemma TagBlockOrder(tags: Counter<string>)
    requires tags.Valid()
    ensures var b, u := TagBlockItems(tags), Get(tags, Untagged, 0);
      && (forall i :: 0 <= i < |b| && b[i].0 == Untagged ==> i == |b| - 1 && b[i].1 == u)
      && (u > 0 <==> |b| > 0 && b[|b| - 1] == (Untagged, u))
      && (forall i, j :: 0 <= i < j < |b| && b[j].0 != Untagged ==> b[i].1 >= b[j].1)
  {
    RankedTagsTagged(tags);
    var ranked := RankedTags(tags);
    var b := TagBlockItems(tags);
    assert b[..|ranked|] == ranked;
    forall i, j | 0 <= i < j < |b| && b[j].0 != Untagged
      ensures b[i].1 >= b[j].1
    {
      assert j < |ranked|;
      assert b[i] == ranked[i] && b[j] == ranked[j];
    }
  }

  /** Every tag of the counter other than "Untagged" is listed exactly once
      with its count, and no other tag is listed. */
  lemma {:induction false} TagBlockContents(tags: Counter<string>)
    requires tags.Valid()
    ensures forall p: Item :: p.0 != Untagged ==>
      multiset(TagBlockItems(tags))[p] == (if p.0 in tags.entries && tags.entries[p.0] == p.1 then 1 else 0)
  {
    var u := Get(tags, Untagged, 0);
    var tail: seq<Item> := if u > 0 then [(Untagged, u)] else [];
    TaggedItemsContents(tags.keys, tags.entries);
    assert multiset(TagBlockItems(tags)) == multiset(RankedTags(tags)) + multiset(tail);
  }

  /** The counts of the tag block add up to the counter's total: leaving out
      a zero "Untagged" loses nothing. */
  lemma {:induction false} TagBlockTotal(tags: Counter<string>)
    requires tags.Valid()
    ensures SumItems(TagBlockItems(tags)) == Total(tags)
  {
    var u := Get(tags, Untagged, 0);
    var tail: seq<Item> := if u > 0 then [(Untagged, u)] else [];
    TaggedItemsSum(tags.keys, tags.entries);
    SumItemsAppend(RankedTags(tags), tail);
  }

  function ItemRow(p: Item): Row {
    [Str(p.0), Num(p.1)]
  }

  function PairRow(k: Key, n: nat): Row {
    [Str(k.port), Str(k.protocol), Num(n)]
  }

  /** The caption, the header and one row per item of the tag block. */
  function TagSection(b: seq<Item>): (rows: seq<Row>)
    ensures |rows| == |b| + 2 && rows[0] == TagCaption && rows[1] == TagHeader
    ensures forall i :: 0 <= i < |b| ==> rows[2 + i] == ItemRow(b[i])
  {
    [TagCaption, TagHeader] + seq(|b|, i requires 0 <= i < |b| => ItemRow(b[i]))
  }

  /** The caption, the header and one row per counted pair, in counting order. */
  function PairSection(ps: seq<(Key, nat)>): (rows: seq<Row>)
    ensures |rows| == |ps| + 2 && rows[0] == PairCaption && rows[1] == PairHeader
    ensures forall i :: 0 <= i < |ps| ==> rows[2 + i] == PairRow(ps[i].0, ps[i].1)
  {
    [PairCaption, PairHeader] + seq(|ps|, i requires 0 <= i < |ps| => PairRow(ps[i].0, ps[i].1))
  }

  /** The layout of the report: the tag section, a blank row, the pair section. */
  predicate IsReport(r: seq<Row>, b: seq<Item>, ps: seq<(Key, nat)>) {
    && |r| == |b| + 5 + |ps|
    && r[0] == TagCaption && r[1] == TagHeader
    && (forall i :: 0 <= i < |b| ==> r[2 + i] == ItemRow(b[i]))
    && r[2 + |b|] == [] && r[3 + |b|] == PairCaption && r[4 + |b|] == PairHeader
    && (forall i :: 0 <= i < |ps| ==> r[5 + |b| + i] == PairRow(ps[i].0, ps[i].1))
  }

  lemma ReportLayout(b: seq<Item>, ps: seq<(Key, nat)>)
    ensures IsReport(TagSection(b) + [[]] + PairSection(ps), b, ps)
  {
    var top, bottom := TagSection(b), PairSection(ps);
    var r := top + [[]] + bottom;
    forall i | 0 <= i < |b|
      ensures r[2 + i] == ItemRow(b[i])
    {
      assert r[2 + i] == top[2 + i];
    }
    forall i | 0 <= i < |ps|
      ensures r[5 + |b| + i] == PairRow(ps[i].0, ps[i].1)
    {
      assert r[5 + |b| + i] == bottom[2 + i];
    }
    assert r[0] == top[0] && r[1] == top[1];
    assert r[3 + |b|] == bottom[0] && r[4 + |b|] == bottom[1];
  }

  /** `save_results` without the file: the rows written, in order. */
  function SaveResults(tags: Counter<string>, pairs: Counter<Key>): (r: seq<Row>)
    requires tags.Valid() && pairs.Valid()
    ensures IsReport(r, TagBlockItems(tags), Items(pairs))
  {
    var b, ps := TagBlockItems(tags), Items(pairs);
    ReportLayout(b, ps);
    TagSection(b) + [[]] + PairSection(ps)
  }

  /** The counter of a log whose first line is tagged `a`, whose second
      line matches no entry, and whose third line is tagged `b`. */
  function ExampleTags(a: string, b: string, na: nat, nu: nat, nb: nat): Counter<string> {
    Dict([a, Untagged, b], map[a := na, Untagged := nu, b := nb])
  }

  lemma ExampleValid(a: string, b: string, na: nat, nu: nat, nb: nat)
    requires a != b && a != Untagged && b != Untagged
    ensures ExampleTags(a, b, na, nu, nb).Valid()
  {
    var keys := [a, Untagged, b];
    assert keys[0] != keys[1] && keys[1] != keys[2] && keys[0] != keys[2];
  }

  lemma ExampleItems(a: string, b: string, na: nat, nu: nat, nb: nat)
    requires a != b && a != Untagged && b != Untagged
    ensures var tags := ExampleTags(a, b, na, nu, nb);
      TaggedItems(tags.keys, tags.entries) == [(a, na), (b, nb)]
  {
    var keys, m := [a, Untagged, b], map[a := na, Untagged := nu, b := nb];
    assert keys[..2] == [a, Untagged] && keys[..2][..1] == [a] && keys[..2][..1][..0] == [];
    assert TaggedItems(keys[..2][..1], m) == [(a, na)];
    assert TaggedItems(keys[..2], m) == [(a, na)];
  }

  /** Sorting two items: already in order (ties included) they stay, else they swap. */
  lemma SortTwo(x: Item, y: Item)
    ensures SortByCountDesc([x, y]) == if x.1 >= y.1 then [x, y] else [y, x]
  {
    var items: seq<Item> := [x, y];
    assert |items[1..][1..]| == 0;
    assert SortByCountDesc(items[1..]) == [y];
  }

  /** Tags are listed by count, largest first, ties in counting order, with
      "Untagged" last whatever its count. */
  lemma TagBlockExample(a: string, b: string, na: nat, nu: nat, nb: nat)
    requires a != b && a != Untagged && b != Untagged && nu > 0
    ensures ExampleTags(a, b, na, nu, nb).Valid()
    ensures TagBlockItems(ExampleTags(a, b, na, nu, nb))
            == (if na >= nb then [(a, na), (b, nb)] else [(b, nb), (a, na)]) + [(Untagged, nu)]
  {
    var tags := ExampleTags(a, b, na, nu, nb);
    var ranked: seq<Item> := if na >= nb then [(a, na), (b, nb)] else [(b, nb), (a, na)];
    ExampleValid(a, b, na, nu, nb);
    ExampleItems(a, b, na, nu, nb);
    SortTwo((a, na), (b, nb));
    assert RankedTags(tags) == ranked;
    assert Get(tags, Untagged, 0) == nu;
    assert TagBlockItems(tags) == RankedTags(tags) + [(Untagged, nu)];
  }
}
