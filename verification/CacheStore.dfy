/**
  The write-through cache over two memory backends (`pkg/store/middleware/cache/cache.go`). Its
  methods are proved to compute a step on the pair of maps, whatever the two maps hold; then every
  run of the cache from equal maps is shown to be a run of the persistent store alone.
 */
module CacheStore {
  import opened Maybe
  import opened Options
  import opened Listings
  import opened Memory
  import opened DefaultMap

  predicate IsSkipCache(l: Leaf) {
    l.SkipCache?
  }

  predicate Skips(opts: seq<Leaf>) {
    Skipped(First(opts, IsSkipCache))
  }

  function Skipped(o: Option<Leaf>): bool {
    o.Some? && o.value.SkipCache? && o.value.skip
  }

  /** The first skip-cache option counts; without one the cache is not skipped. */
  lemma SkipsMeans(opts: seq<Leaf>, i: nat)
    requires i <= |opts| && forall j :: 0 <= j < i ==> !opts[j].SkipCache?
    ensures i == |opts| ==> !Skips(opts)
    ensures i < |opts| && opts[i].SkipCache? ==> (Skips(opts) <==> opts[i].skip)
  {
    FirstHitAt(opts, IsSkipCache, i);
  }

  // ---- one call on the pair of maps -----------------------------------------------------

  datatype Pair<V> = Pair(persistent: map<string, V>, local: map<string, V>)

  /** The persistent store first; the local one, with its own copy of the options, only after success. */
  function CacheWrite<V>(s: Pair<V>, w: Write<V>, key: string, opts: seq<Leaf>): Pair<V> {
    Pair(
      WriteMap(s.persistent, w, key, opts),
      if WriteError(s.persistent, w, key, opts).Some? then s.local else WriteMap(s.local, w, key, opts))
  }

  function CacheRead<V>(s: Pair<V>, key: string, opts: seq<Leaf>): Result<V> {
    var left := Without(opts, IsSkipCache);
    if !Skips(opts) && ReadError(s.local, key, left).None? then ReadResult(s.local, key, left)
    else ReadResult(s.persistent, key, left)
  }

  /** A bare skip-cache listing clones the persistent store into itself and then lists the local one. */
  function CacheList<V>(s: Pair<V>, zero: V, opts: seq<Leaf>): (Pair<V>, Result<V>) {
    var left := Without(opts, IsSkipCache);
    if Skips(opts) && left != [] then (s, ListResult(s.persistent, zero, left))
    else
      (if Skips(opts) then s.(persistent := Cloned(s.persistent, s.persistent, NewWins)) else s,
       ListResult(s.local, zero, left))
  }

  function CacheStep<V>(s: Pair<V>, zero: V, op: Op<V>): (Pair<V>, Result<V>) {
    match op
    case Put(w, key, opts) => (CacheWrite(s, w, key, opts), WriteResult(WriteError(s.persistent, w, key, opts)))
    case Get(key, opts) => (s, CacheRead(s, key, opts))
    case GetAll(opts) => CacheList(s, zero, opts)
  }

  function CacheRun<V>(s: Pair<V>, zero: V, ops: seq<Op<V>>): (Pair<V>, seq<Result<V>>)
    decreases |ops|
  {
    if ops == [] then (s, [])
    else
      var (s', r) := CacheStep(s, zero, ops[0]);
      var (end, rs) := CacheRun(s', zero, ops[1..]);
      (end, [r] + rs)
  }

  // ---- refinement -----------------------------------------------------------------------

  /** The same call as the persistent store would get it: reads and listings without the skip-cache option. */
  function Bare<V>(op: Op<V>): Op<V> {
    match op
    case Put(_, _, _) => op
    case Get(key, opts) => Get(key, Without(opts, IsSkipCache))
    case GetAll(opts) => GetAll(Without(opts, IsSkipCache))
  }

  function BareAll<V>(ops: seq<Op<V>>): seq<Op<V>> {
    if ops == [] then [] else [Bare(ops[0])] + BareAll(ops[1..])
  }

  lemma CacheStepRefines<V>(m: map<string, V>, zero: V, op: Op<V>)
    ensures
      var (s, r) := CacheStep(Pair(m, m), zero, op);
      var (m', r') := MemoryStep(m, zero, Bare(op));
      s == Pair(m', m') && r == r'
  {
    CloneCopies(m, m);
  }

  /**
    From equal maps, after any calls with any flat options, both maps are equal to what the persistent
    store alone would hold, and every call returned what it alone would have returned.
   */
  lemma {:induction false} CacheRefinesMemory<V>(m: map<string, V>, zero: V, ops: seq<Op<V>>)
    ensures
      var (s, rs) := CacheRun(Pair(m, m), zero, ops);
      var (m', rs') := MemoryRun(m, zero, BareAll(ops));
      s == Pair(m', m') && rs == rs'
    decreases |ops|
  {
    if ops != [] {
      CacheStepRefines(m, zero, ops[0]);
      CacheRefinesMemory(MemoryStep(m, zero, Bare(ops[0])).0, zero, ops[1..]);
      assert BareAll(ops)[0] == Bare(ops[0]) && BareAll(ops)[1..] == BareAll(ops[1..]);
    }
  }

  /**
    With a writer behind the cache's back there is no such guarantee, and a bare skip-cache listing
    does not repair it: it still shows the local map.
   */
  lemma SkipCacheListDoesNotRefresh<V>(s: Pair<V>, zero: V)
    ensures CacheStep(s, zero, GetAll([SkipCache(true)])) == (s, ListResult(s.local, zero, []))
  {
    assert Without([SkipCache(true)], IsSkipCache) == [];
    CloneCopies(s.persistent, s.persistent);
  }

  /**
    The persistent store consumes the dry-run option, and an old slice header over the shared array
    then shows what is left with its last option once more. Whether that still asks for a dry run
    depends on a second such option, or on the only one having come last.
   */
  lemma StaleDryRun(opts: seq<Leaf>)
    requires First(opts, IsDryRun).Some?
    ensures
      var second := First(Without(opts, IsDryRun), IsDryRun);
      opts != [] && (DryRun(StaleView(opts, IsDryRun)) <==>
        if second.Some? then Flag(second) else DryRun(opts) && IsDryRun(opts[|opts| - 1]))
  {
    StaleFirst(opts, IsDryRun);
    assert Hit(IsDryRun, opts[|opts| - 1]) <==> IsDryRun(opts[|opts| - 1]);
  }

  lemma StaleIsNil(opts: seq<Leaf>)
    requires First(opts, IsDryRun).Some? && First(Without(opts, IsDryRun), IsDryRun).None?
    requires opts != [] && !IsDryRun(opts[|opts| - 1]) && NilOnly(Without(opts, IsDryRun))
    ensures
      var stale := StaleView(opts, IsDryRun);
      NilOnly(stale) && First(stale, IsDryRun).None? && Without(stale, IsDryRun) == stale
  {
    StaleFirst(opts, IsDryRun);
    MissKeeps(StaleView(opts, IsDryRun), IsDryRun);
    LastRemains(opts, IsDryRun);
  }

  lemma RealWrite<V>(m: map<string, V>, w: Write<V>, key: string, opts: seq<Leaf>)
    requires w.Applying? && NilOnly(opts) && First(opts, IsDryRun).None? && Without(opts, IsDryRun) == opts
    ensures WriteMap(m, w, key, opts) == m[key := w.value]
  {}

  /** Why the options are cloned first: otherwise a dry run would write to the local store. */
  lemma SharedOptionsWouldDiverge<V>(m: map<string, V>, key: string, value: V, opts: seq<Leaf>)
    requires DryRun(opts) && First(Without(opts, IsDryRun), IsDryRun).None? && NilOnly(Without(opts, IsDryRun))
    requires opts != [] && !IsDryRun(opts[|opts| - 1])
    ensures WriteMap(m, Applying(value), key, opts) == m
    ensures WriteMap(m, Applying(value), key, StaleView(opts, IsDryRun)) == m[key := value]
  {
    StaleIsNil(opts);
    RealWrite(m, Applying(value), key, StaleView(opts, IsDryRun));
  }

  // ---- the store ------------------------------------------------------------------------

  class Cache<V> {
    const persistent: Memory<V>
    const local: Memory<V>

    ghost function State(): Pair<V>
      reads persistent, local
    {
      Pair(persistent.store, local.store)
    }

    constructor (persistent: Memory<V>, local: Memory<V>)
      requires persistent != local
      modifies local
      ensures this.persistent == persistent && this.local == local
      ensures State() == Pair(old(persistent.store), old(persistent.store))
    {
      this.persistent, this.local := persistent, local;
      new;
      var merger := new DefaultMap(local);
      var _ := merger.Clone(persistent, NewWins);
      CloneCopies(old(local.store), old(persistent.store));
    }

    method Create(key: string, value: V, opts: array<Leaf>, n: nat) returns (err: Option<Error>)
      requires persistent != local && n <= opts.Length
      modifies persistent, local, opts
      ensures err == WriteError(old(persistent.store), Creating(value), key, old(opts[..n]))
      ensures State() == CacheWrite(old(State()), Creating(value), key, old(opts[..n]))
      ensures persistent.store == WriteMap(old(persistent.store), Creating(value), key, old(opts[..n]))
      ensures local.store ==
        if err.Some? then old(local.store) else WriteMap(old(local.store), Creating(value), key, old(opts[..n]))
    {
      var copy := Clone(opts, n);
      assert copy[..n] == copy[..];
      err := persistent.Create(key, value, opts, n);
      if err.Some? {
        return;
      }
      var _ := local.Create(key, value, copy, n);
    }

    method Read(key: string, opts: array<Leaf>, n: nat) returns (item: Option<V>, err: Option<Error>)
      requires n <= opts.Length
      modifies opts
      ensures (if err.Some? then Failed(err.value) else if item.Some? then Found(item.value) else Written)
        == CacheRead(State(), key, old(opts[..n]))
      ensures
        var left := Without(old(opts[..n]), IsSkipCache);
        if !Skips(old(opts[..n])) && NilOnly(left) && key in local.store
        then item == Some(local.store[key]) && err == None
        else if NilOnly(left) && key in persistent.store
        then item == Some(persistent.store[key]) && err == None
        else item == None && err == Some(if NilOnly(left) then NotFound else Unsupported)
    {
      hide First, Without, StaleView, FoundAt;
      var left, skip := MatchFlat(opts, n, IsSkipCache);
      if Skipped(skip) {
        item, err := persistent.Read(key, opts, left);
        return;
      }
      var copy := Clone(opts, left);
      assert copy[..left] == copy[..];
      item, err := local.Read(key, copy, left);
      if err.None? {
        return;
      }
      item, err := persistent.Read(key, opts, left);
    }

    method Update(key: string, value: V, opts: array<Leaf>, n: nat) returns (err: Option<Error>)
      requires persistent != local && n <= opts.Length
      modifies persistent, local, opts
      ensures err == WriteError(old(persistent.store), Updating(value), key, old(opts[..n]))
      ensures State() == CacheWrite(old(State()), Updating(value), key, old(opts[..n]))
      ensures persistent.store == WriteMap(old(persistent.store), Updating(value), key, old(opts[..n]))
      ensures local.store ==
        if err.Some? then old(local.store) else WriteMap(old(local.store), Updating(value), key, old(opts[..n]))
    {
      var copy := Clone(opts, n);
      assert copy[..n] == copy[..];
      err := persistent.Update(key, value, opts, n);
      if err.Some? {
        return;
      }
      var _ := local.Update(key, value, copy, n);
    }

    method Apply(key: string, value: V, opts: array<Leaf>, n: nat) returns (err: Option<Error>)
      requires persistent != local && n <= opts.Length
      modifies persistent, local, opts
      ensures err == WriteError(old(persistent.store), Applying(value), key, old(opts[..n]))
      ensures State() == CacheWrite(old(State()), Applying(value), key, old(opts[..n]))
      ensures persistent.store == WriteMap(old(persistent.store), Applying(value), key, old(opts[..n]))
      ensures local.store ==
        if err.Some? then old(local.store) else WriteMap(old(local.store), Applying(value), key, old(opts[..n]))
    {
      var copy := Clone(opts, n);
      assert copy[..n] == copy[..];
      err := persistent.Apply(key, value, opts, n);
      if err.Some? {
        return;
      }
      var _ := local.Apply(key, value, copy, n);
    }

    method Delete(key: string, opts: array<Leaf>, n: nat) returns (err: Option<Error>)
      requires persistent != local && n <= opts.Length
      modifies persistent, local, opts
      ensures err == WriteError(old(persistent.store), Deleting, key, old(opts[..n]))
      ensures State() == CacheWrite(old(State()), Deleting, key, old(opts[..n]))
      ensures persistent.store == WriteMap(old(persistent.store), Deleting, key, old(opts[..n]))
      ensures local.store ==
        if err.Some? then old(local.store) else WriteMap(old(local.store), Deleting, key, old(opts[..n]))
    {
      var copy := Clone(opts, n);
      assert copy[..n] == copy[..];
      err := persistent.Delete(key, opts, n);
      if err.Some? {
        return;
      }
      var _ := local.Delete(key, copy, n);
    }

    method List(opts: array<Leaf>, n: nat) returns (items: seq<ListItem<V>>, err: Option<Error>)
      requires persistent != local && persistent.zero == local.zero && n <= opts.Length
      modifies persistent, opts
      ensures State() == CacheList(old(State()), local.zero, old(opts[..n])).0
      ensures persistent.store == old(persistent.store) && local.store == old(local.store)
      ensures
        var left := Without(old(opts[..n]), IsSkipCache);
        var listed := if Skips(old(opts[..n])) && left != [] then persistent.store else local.store;
        if ListSupports(left) then err == None && Lists(items, Visible(listed, local.zero, left))
        else err == Some(Unsupported) && items == []
      ensures
        match CacheList(old(State()), local.zero, old(opts[..n])).1
        case Listed(view) => err.None? && Lists(items, view)
        case Failed(error) => err == Some(error) && items == []
        case _ => false
    {
      hide First, Without, StaleView, FoundAt;
      var left, skip := MatchFlat(opts, n, IsSkipCache);
      if Skipped(skip) && left > 0 {
        items, err := persistent.List(opts, left);
        return;
      }
      if Skipped(skip) {
        var merger := new DefaultMap(persistent);
        err := merger.Clone(persistent, NewWins);
      }
      items, err := local.List(opts, left);
    }
  }
}
