/**
  Listings of a string-keyed map: strictly sorted by key, one entry per key (`ListItems` in
  `pkg/store/store.go`, the sort in `pkg/store/backends/memory/memory.go`).
 */
module Listings {

  /** Byte-wise lexicographic order, the order of `<` on strings in the original. */
  predicate Less(a: string, b: string) {
    b != [] && (a == [] || a[0] < b[0] || (a[0] == b[0] && Less(a[1..], b[1..])))
  }

  lemma {:induction false} LessTotal(a: string, b: string)
    ensures Less(a, b) || a == b || Less(b, a)
    ensures !(Less(a, b) && Less(b, a)) && !Less(a, a)
  {
    if a != [] && b != [] {
      LessTotal(a[1..], b[1..]);
      assert a == [a[0]] + a[1..] && b == [b[0]] + b[1..];
    }
    if a != [] {
      LessTotal(a[1..], a[1..]);
    }
  }

  lemma {:induction false} LessTransitive(a: string, b: string, c: string)
    requires Less(a, b) && Less(b, c)
    ensures Less(a, c)
  {
    if a != [] && a[0] == b[0] == c[0] {
      LessTransitive(a[1..], b[1..], c[1..]);
    }
  }

  /** A common prefix does not change the order. */
  lemma {:induction false} LessUnderPrefix(p: string, a: string, b: string)
    ensures Less(p + a, p + b) <==> Less(a, b)
  {
    if p == [] {
      assert p + a == a && p + b == b;
    } else {
      assert (p + a)[1..] == p[1..] + a && (p + b)[1..] == p[1..] + b;
      LessUnderPrefix(p[1..], a, b);
    }
  }

  datatype ListItem<V> = ListItem(key: string, value: V)

  ghost predicate Sorted<V>(items: seq<ListItem<V>>) {
    forall i, j :: 0 <= i < j < |items| ==> Less(items[i].key, items[j].key)
  }

  ghost predicate HasKey<V>(items: seq<ListItem<V>>, k: string) {
    exists i :: 0 <= i < |items| && items[i].key == k
  }

  /** `items` is the sorted listing of `m`. */
  ghost predicate Lists<V>(items: seq<ListItem<V>>, m: map<string, V>) {
    && Sorted(items)
    && (forall i :: 0 <= i < |items| ==> items[i].key in m && m[items[i].key] == items[i].value)
    && (forall k :: k in m ==> HasKey(items, k))
  }

  lemma ListingEmpty<V>(items: seq<ListItem<V>>, m: map<string, V>)
    requires Lists(items, m)
    ensures items == [] <==> m == map[]
  {
    if items != [] {
      assert items[0].key in m;
    } else {
      assert forall k :: k in m ==> HasKey(items, k);
    }
  }

  /** The first entry of a listing has the least key. */
  lemma HeadLeast<V>(items: seq<ListItem<V>>, m: map<string, V>, k: string)
    requires Lists(items, m) && k in m
    ensures items != [] && (k == items[0].key || Less(items[0].key, k))
  {
    assert HasKey(items, k);
    var i :| 0 <= i < |items| && items[i].key == k;
  }

  /** A map has only one sorted listing. */
  lemma {:induction false} ListingUnique<V>(a: seq<ListItem<V>>, b: seq<ListItem<V>>, m: map<string, V>)
    requires Lists(a, m) && Lists(b, m)
    ensures a == b
    decreases |a|
  {
    ListingEmpty(a, m);
    ListingEmpty(b, m);
    if a != [] {
      HeadLeast(a, m, b[0].key);
      HeadLeast(b, m, a[0].key);
      LessTotal(a[0].key, b[0].key);
      assert a[0] == b[0];
      TailLists(a, m);
      TailLists(b, m);
      ListingUnique(a[1..], b[1..], m - {a[0].key});
      assert a == [a[0]] + a[1..] && b == [b[0]] + b[1..];
    }
  }

  lemma TailLists<V>(a: seq<ListItem<V>>, m: map<string, V>)
    requires Lists(a, m) && a != []
    ensures Lists(a[1..], m - {a[0].key})
  {
    LessTotal(a[0].key, a[0].key);
    forall k | k in m - {a[0].key} ensures HasKey(a[1..], k) {
      assert HasKey(a, k);
      var i :| 0 <= i < |a| && a[i].key == k;
      assert a[1..][i - 1].key == k;
    }
    forall i | 0 <= i < |a| - 1 ensures a[1..][i].key != a[0].key {
      assert Less(a[0].key, a[i + 1].key);
    }
  }

  function InsertSorted<V>(items: seq<ListItem<V>>, item: ListItem<V>): seq<ListItem<V>> {
    if items == [] || Less(item.key, items[0].key) then [item] + items
    else [items[0]] + InsertSorted(items[1..], item)
  }

  lemma {:induction false} InsertSortedMember<V>(items: seq<ListItem<V>>, item: ListItem<V>, x: ListItem<V>)
    ensures x in InsertSorted(items, item) <==> x == item || x in items
  {
    if !(items == [] || Less(item.key, items[0].key)) {
      InsertSortedMember(items[1..], item, x);
      assert items == [items[0]] + items[1..];
    }
  }

  lemma {:induction false} InsertSortedOrder<V>(items: seq<ListItem<V>>, item: ListItem<V>)
    requires Sorted(items) && !HasKey(items, item.key)
    ensures Sorted(InsertSorted(items, item))
  {
    if items == [] {
    } else if Less(item.key, items[0].key) {
      forall j | 0 <= j < |items| ensures Less(item.key, items[j].key) {
        if j > 0 {
          LessTransitive(item.key, items[0].key, items[j].key);
        }
      }
    } else {
      forall j | 0 <= j < |items| - 1 ensures items[1..][j].key != item.key {
        assert items[j + 1].key != item.key;
      }
      InsertSortedOrder(items[1..], item);
      var rest := InsertSorted(items[1..], item);
      LessTotal(item.key, items[0].key);
      forall j | 0 <= j < |rest| ensures Less(items[0].key, rest[j].key) {
        assert rest[j] in rest;
        InsertSortedMember(items[1..], item, rest[j]);
      }
    }
  }

  /** Adding a fresh key to a listed map, wherever the map iteration happens to be. */
  lemma InsertLists<V>(items: seq<ListItem<V>>, m: map<string, V>, item: ListItem<V>)
    requires Lists(items, m) && item.key !in m
    ensures Lists(InsertSorted(items, item), m[item.key := item.value])
  {
    var r, m' := InsertSorted(items, item), m[item.key := item.value];
    InsertSortedOrder(items, item);
    forall i | 0 <= i < |r| ensures r[i].key in m' && m'[r[i].key] == r[i].value {
      assert r[i] in r;
      InsertSortedMember(items, item, r[i]);
      if r[i] != item {
        var j :| 0 <= j < |items| && items[j] == r[i];
      }
    }
    forall k | k in m' ensures HasKey(r, k) {
      var x := item;
      if k != item.key {
        assert HasKey(items, k);
        var j :| 0 <= j < |items| && items[j].key == k;
        x := items[j];
      }
      InsertSortedMember(items, item, x);
      var i :| 0 <= i < |r| && r[i] == x;
    }
  }

  /** ListItems.AsMap gives the listed map back. */
  method AsMap<V>(items: seq<ListItem<V>>, ghost listed: map<string, V>) returns (m: map<string, V>)
    requires Lists(items, listed)
    ensures m == listed
  {
    m := map[];
    for i := 0 to |items|
      invariant forall k :: k in m ==> k in listed && m[k] == listed[k]
      invariant forall j :: 0 <= j < i ==> items[j].key in m
    {
      m := m[items[i].key := items[i].value];
    }
    forall k | k in listed ensures k in m {
      assert HasKey(items, k);
    }
  }
}
