/** The prefix view of a store (`pkg/store/middleware/prefix/prefix.go`). */
module PrefixStore {
  import opened Maybe
  import opened Options
  import opened Listings
  import opened Memory

  /** What the store behind prefix `p` shows of the backend. */
  function View<V>(m: map<string, V>, p: string): map<string, V> {
    var keys := set k | k in m && p <= k :: k[|p|..];
    ViewKeys(m, p);
    map k | k in keys :: m[p + k]
  }

  lemma ViewKeys<V>(m: map<string, V>, p: string)
    ensures forall k :: k in (set k | k in m && p <= k :: k[|p|..]) <==> p + k in m
  {
    forall k ensures k in (set k | k in m && p <= k :: k[|p|..]) <==> p + k in m {
      assert (p + k)[|p|..] == k;
      if x :| x in m && p <= x && x[|p|..] == k {
        assert x == p + k;
      }
    }
  }

  lemma Viewed<V>(m: map<string, V>, p: string, k: string)
    ensures k in View(m, p) <==> p + k in m
    ensures k in View(m, p) ==> View(m, p)[k] == m[p + k]
  {
    ViewKeys(m, p);
  }

  lemma SameView<V>(m: map<string, V>, p: string, v: map<string, V>)
    requires forall k :: (p + k in m <==> k in v) && (k in v ==> m[p + k] == v[k])
    ensures View(m, p) == v
  {
    forall k ensures k in View(m, p) <==> k in v {
      Viewed(m, p, k);
    }
    forall k | k in v ensures View(m, p)[k] == v[k] {
      Viewed(m, p, k);
    }
  }

  predicate NamesPrefix<V>(op: Op<V>) {
    op.GetAll? && First(op.opts, IsPrefix).Some?
  }

  function Stripped<V>(r: Result<V>, p: string): Result<V> {
    if r.Listed? then Listed(View(r.view, p)) else r
  }

  function PrefixStep<V>(m: map<string, V>, zero: V, p: string, op: Op<V>): (map<string, V>, Result<V>) {
    match op
    case Put(w, key, opts) => MemoryStep(m, zero, Put(w, p + key, opts))
    case Get(key, opts) => MemoryStep(m, zero, Get(p + key, opts))
    case GetAll(opts) =>
      if First(opts, IsPrefix).Some? then (m, Failed(Rejected))
      else (m, Stripped(ListResult(m, zero, opts + [StringOption("prefix", p)]), p))
  }

  // ---- refinement and isolation ---------------------------------------------------------

  lemma WithOwnPrefix(opts: seq<Leaf>, p: string)
    requires First(opts, IsPrefix).None?
    ensures var all := opts + [StringOption("prefix", p)];
      Without(all, IsPrefix) == opts && Without(opts, IsPrefix) == opts && Text(First(all, IsPrefix)) == p
  {
    var own := [StringOption("prefix", p)];
    assert First(own, IsPrefix) == Some(own[0]) && Without(own, IsPrefix) == [];
    FirstOfConcat(opts, own, IsPrefix);
    MissKeeps(opts, IsPrefix);
    assert opts + [] == opts;
  }

  lemma SameKey(p: string, k: string, key: string)
    ensures p + k == p + key <==> k == key
  {
    assert (p + k)[|p|..] == k && (p + key)[|p|..] == key;
  }

  lemma ViewOfWrite<V>(m: map<string, V>, p: string, key: string, value: V)
    ensures View(m[p + key := value], p) == View(m, p)[key := value]
  {
    var m', v' := m[p + key := value], View(m, p)[key := value];
    forall k ensures (p + k in m' <==> k in v') && (k in v' ==> m'[p + k] == v'[k]) {
      SameKey(p, k, key);
      Viewed(m, p, k);
    }
    SameView(m', p, v');
  }

  lemma ViewOfDelete<V>(m: map<string, V>, p: string, key: string)
    ensures View(m - {p + key}, p) == View(m, p) - {key}
  {
    var m', v' := m - {p + key}, View(m, p) - {key};
    forall k ensures (p + k in m' <==> k in v') && (k in v' ==> m'[p + k] == v'[k]) {
      SameKey(p, k, key);
      Viewed(m, p, k);
    }
    SameView(m', p, v');
  }

  lemma ListedView<V>(m: map<string, V>, zero: V, p: string, opts: seq<Leaf>)
    requires First(opts, IsPrefix).None?
    ensures Stripped(ListResult(m, zero, opts + [StringOption("prefix", p)]), p) == ListResult(View(m, p), zero, opts)
  {
    WithOwnPrefix(opts, p);
    var all := opts + [StringOption("prefix", p)];
    var inner, outer := Visible(m, zero, all), Visible(View(m, p), zero, opts);
    var prefix := Text(First(opts, IsPrefix));
    forall k ensures (p + k in inner <==> k in outer) && (k in outer ==> inner[p + k] == outer[k]) {
      Viewed(m, p, k);
    }
    SameView(inner, p, outer);
  }

  lemma PutRefines<V>(m: map<string, V>, p: string, w: Write<V>, key: string, opts: seq<Leaf>)
    ensures WriteError(m, w, p + key, opts) == WriteError(View(m, p), w, key, opts)
    ensures View(WriteMap(m, w, p + key, opts), p) == WriteMap(View(m, p), w, key, opts)
  {
    Viewed(m, p, key);
    if w.Deleting? {
      ViewOfDelete(m, p, key);
    } else {
      ViewOfWrite(m, p, key, w.value);
    }
  }

  /** Through the prefix, the backend behaves as a store of its own that holds the view. */
  lemma PrefixStepRefines<V>(m: map<string, V>, zero: V, p: string, op: Op<V>)
    requires !NamesPrefix(op)
    ensures
      var (m', r) := PrefixStep(m, zero, p, op);
      var (v', r') := MemoryStep(View(m, p), zero, op);
      View(m', p) == v' && r == r'
  {
    match op
    case Put(w, key, opts) => PutRefines(m, p, w, key, opts);
    case Get(key, opts) => Viewed(m, p, key);
    case GetAll(opts) => ListedView(m, zero, p, opts);
  }

  /** Neither prefix extends the other, so neither store can reach the other's keys. */
  predicate Apart(p: string, q: string) {
    !(p <= q) && !(q <= p)
  }

  lemma PrefixesOfSame(p: string, q: string, a: string, b: string)
    requires p + a == q + b
    ensures p <= q || q <= p
  {
    if |p| <= |q| {
      assert p == (p + a)[..|p|] && q[..|p|] == (q + b)[..|p|];
    } else {
      assert q == (q + b)[..|q|] && p[..|q|] == (p + a)[..|q|];
    }
  }

  lemma PrefixStepIsolates<V>(m: map<string, V>, zero: V, p: string, q: string, op: Op<V>)
    requires Apart(p, q)
    ensures View(PrefixStep(m, zero, p, op).0, q) == View(m, q)
  {
    if op.Put? {
      forall k ensures q + k != p + op.key {
        if q + k == p + op.key {
          PrefixesOfSame(p, q, op.key, k);
        }
      }
      var m' := PrefixStep(m, zero, p, op).0;
      forall k ensures (q + k in m' <==> k in View(m, q)) && (k in View(m, q) ==> m'[q + k] == View(m, q)[k]) {
        Viewed(m, q, k);
      }
      SameView(m', q, View(m, q));
    }
  }

  /** Calls on two prefix stores over one backend, in any interleaving. */
  datatype Tagged<V> = Tagged(first: bool, op: Op<V>)

  function SharedRun<V>(m: map<string, V>, zero: V, p: string, q: string, ops: seq<Tagged<V>>)
    : (map<string, V>, seq<Result<V>>)
    decreases |ops|
  {
    if ops == [] then (m, [])
    else
      var (m', r) := PrefixStep(m, zero, if ops[0].first then p else q, ops[0].op);
      var (end, rs) := SharedRun(m', zero, p, q, ops[1..]);
      (end, [r] + rs)
  }

  function Only<V>(ops: seq<Tagged<V>>, first: bool): seq<Op<V>> {
    if ops == [] then []
    else (if ops[0].first == first then [ops[0].op] else []) + Only(ops[1..], first)
  }

  function ResultsOf<V>(ops: seq<Tagged<V>>, rs: seq<Result<V>>, first: bool): seq<Result<V>>
    requires |ops| == |rs|
  {
    if ops == [] then []
    else (if ops[0].first == first then [rs[0]] else []) + ResultsOf(ops[1..], rs[1..], first)
  }

  lemma {:induction false} SharedRunLength<V>(m: map<string, V>, zero: V, p: string, q: string, ops: seq<Tagged<V>>)
    ensures |SharedRun(m, zero, p, q, ops).1| == |ops|
    decreases |ops|
  {
    if ops != [] {
      SharedRunLength(PrefixStep(m, zero, if ops[0].first then p else q, ops[0].op).0, zero, p, q, ops[1..]);
    }
  }

  /** Each of two stores with unrelated prefixes sees exactly a private store that received its own calls only. */
  lemma {:induction false} StoresAreIndependent<V>(m: map<string, V>, zero: V, p: string, q: string,
                                                   ops: seq<Tagged<V>>, first: bool)
    requires Apart(p, q) && forall i :: 0 <= i < |ops| ==> !NamesPrefix(ops[i].op)
    ensures |SharedRun(m, zero, p, q, ops).1| == |ops|
    ensures
      var mine := if first then p else q;
      var (end, rs) := SharedRun(m, zero, p, q, ops);
      var (v, own) := MemoryRun(View(m, mine), zero, Only(ops, first));
      View(end, mine) == v && ResultsOf(ops, rs, first) == own
    decreases |ops|
  {
    SharedRunLength(m, zero, p, q, ops);
    if ops != [] {
      var mine, other := if first then p else q, if first then q else p;
      var head, rest := ops[0], ops[1..];
      var (m', r) := PrefixStep(m, zero, if head.first then p else q, head.op);
      StoresAreIndependent(m', zero, p, q, rest, first);
      var rs := SharedRun(m, zero, p, q, ops).1;
      assert rs == [r] + SharedRun(m', zero, p, q, rest).1;
      assert rs[1..] == SharedRun(m', zero, p, q, rest).1;
      if head.first == first {
        PrefixStepRefines(m, zero, mine, head.op);
        assert ([head.op] + Only(rest, first))[1..] == Only(rest, first);
      } else {
        PrefixStepIsolates(m, zero, other, mine, head.op);
        assert [] + Only(rest, first) == Only(rest, first);
        assert [] + ResultsOf(rest, rs[1..], first) == ResultsOf(rest, rs[1..], first);
      }
    }
  }

  // ---- the store ------------------------------------------------------------------------

  /** Stripping a common prefix from a sorted listing leaves a sorted listing of the view. */
  lemma StripLists<V>(items: seq<ListItem<V>>, stripped: seq<ListItem<V>>, m: map<string, V>, p: string)
    requires Lists(items, m) && forall k :: k in m ==> p <= k
    requires |stripped| == |items| && forall i :: 0 <= i < |items| ==>
      p <= items[i].key && stripped[i] == ListItem(items[i].key[|p|..], items[i].value)
    ensures Lists(stripped, View(m, p))
  {
    forall i | 0 <= i < |items| ensures items[i].key == p + stripped[i].key {}
    forall i, j | 0 <= i < j < |items| ensures Less(stripped[i].key, stripped[j].key) {
      LessUnderPrefix(p, stripped[i].key, stripped[j].key);
    }
    forall i | 0 <= i < |items|
      ensures stripped[i].key in View(m, p) && View(m, p)[stripped[i].key] == stripped[i].value
    {
      Viewed(m, p, stripped[i].key);
    }
    forall k | k in View(m, p) ensures HasKey(stripped, k) {
      Viewed(m, p, k);
      assert HasKey(items, p + k);
      var i :| 0 <= i < |items| && items[i].key == p + k;
      assert stripped[i].key == k;
    }
  }

  class Prefix<V> {
    const backend: Memory<V>
    const prefix: string

    constructor (backend: Memory<V>, prefix: string)
      ensures this.backend == backend && this.prefix == prefix
    {
      this.backend, this.prefix := backend, prefix;
    }

    /** An empty prefix is refused. */
    static method New(backend: Memory<V>, prefix: string) returns (store: Prefix?<V>, err: Option<Error>)
      ensures err.Some? <==> prefix == ""
      ensures store == null <==> err.Some?
      ensures store != null ==> store.backend == backend && store.prefix == prefix
    {
      if prefix == "" {
        return null, Some(Rejected);
      }
      store := new Prefix(backend, prefix);
      err := None;
    }

    method Create(key: string, value: V, opts: array<Leaf>, n: nat) returns (err: Option<Error>)
      requires n <= opts.Length
      modifies backend, opts
      ensures (backend.store, WriteResult(err))
        == PrefixStep(old(backend.store), backend.zero, prefix, Put(Creating(value), key, old(opts[..n])))
    {
      err := backend.Create(prefix + key, value, opts, n);
    }

    method Read(key: string, opts: array<Leaf>, n: nat) returns (item: Option<V>, err: Option<Error>)
      requires n <= opts.Length
      ensures
        (backend.store,
         if err.Some? then Failed(err.value) else if item.Some? then Found(item.value) else Written)
        == PrefixStep(backend.store, backend.zero, prefix, Get(key, opts[..n]))
    {
      item, err := backend.Read(prefix + key, opts, n);
    }

    method Update(key: string, value: V, opts: array<Leaf>, n: nat) returns (err: Option<Error>)
      requires n <= opts.Length
      modifies backend, opts
      ensures (backend.store, WriteResult(err))
        == PrefixStep(old(backend.store), backend.zero, prefix, Put(Updating(value), key, old(opts[..n])))
    {
      err := backend.Update(prefix + key, value, opts, n);
    }

    method Apply(key: string, value: V, opts: array<Leaf>, n: nat) returns (err: Option<Error>)
      requires n <= opts.Length
      modifies backend, opts
      ensures (backend.store, WriteResult(err))
        == PrefixStep(old(backend.store), backend.zero, prefix, Put(Applying(value), key, old(opts[..n])))
    {
      err := backend.Apply(prefix + key, value, opts, n);
    }

    method Delete(key: string, opts: array<Leaf>, n: nat) returns (err: Option<Error>)
      requires n <= opts.Length
      modifies backend, opts
      ensures (backend.store, WriteResult(err))
        == PrefixStep(old(backend.store), backend.zero, prefix, Put(Deleting, key, old(opts[..n])))
    {
      err := backend.Delete(prefix + key, opts, n);
    }

    method List(opts: array<Leaf>, n: nat) returns (items: seq<ListItem<V>>, err: Option<Error>)
      requires n <= opts.Length
      modifies opts
      ensures First(old(opts[..n]), IsPrefix).Some? ==> err == Some(Rejected) && items == []
      ensures
        match PrefixStep(backend.store, backend.zero, prefix, GetAll(old(opts[..n]))).1
        case Listed(view) => err.None? && Lists(items, view)
        case Failed(error) => err == Some(error) && items == []
        case _ => false
    {
      ghost var before := opts[..n];
      var left, own := MatchFlat(opts, n, IsPrefix);
      if own.Some? {
        return [], Some(Rejected);
      }
      MissKeeps(before, IsPrefix);
      var all := AddPrefix(opts, left);
      items, err := backend.List(all, left + 1);
      if err.Some? {
        return [], err;
      }
      WithOwnPrefix(before, prefix);
      items := StripKeys(items, Visible(backend.store, backend.zero, before + [StringOption("prefix", prefix)]));
    }

    /** The caller's options and the store's own prefix. */
    method AddPrefix(opts: array<Leaf>, n: nat) returns (all: array<Leaf>)
      requires n <= opts.Length
      ensures fresh(all) && all.Length == n + 1 && all[..n + 1] == opts[..n] + [StringOption("prefix", prefix)]
    {
      all := new Leaf[n + 1](i requires 0 <= i < n + 1 && n <= opts.Length reads opts =>
        if i < n then opts[i] else StringOption("prefix", prefix));
      assert all[..n + 1] == opts[..n] + [StringOption("prefix", prefix)];
    }

    /** Overwrites the keys one by one. */
    method StripKeys(listed: seq<ListItem<V>>, ghost view: map<string, V>) returns (items: seq<ListItem<V>>)
      requires Lists(listed, view) && forall k :: k in view ==> prefix <= k
      ensures Lists(items, View(view, prefix))
    {
      items := listed;
      for i := 0 to |items|
        invariant |items| == |listed|
        invariant forall j :: 0 <= j < i ==> items[j] == ListItem(listed[j].key[|prefix|..], listed[j].value)
        invariant forall j :: i <= j < |items| ==> items[j] == listed[j]
      {
        items := items[i := ListItem(items[i].key[|prefix|..], items[i].value)];
      }
      StripLists(listed, items, view, prefix);
    }
  }
}
