/**
  The in-memory backend every store middleware is compared with (`pkg/store/backends/memory/memory.go`):
  its operations on values, and the class whose methods compute them while consuming the caller's
  option slice in place.
 */
module Memory {
  import opened Maybe
  import opened Options
  import opened Listings

  datatype Error = Conflict | NotFound | Unsupported | Rejected

  // ---- options --------------------------------------------------------------------------

  predicate IsDryRun(l: Leaf) {
    l.BoolOption? && l.key == "dryRun"
  }

  predicate IsKeysOnly(l: Leaf) {
    l.BoolOption? && l.key == "keysOnly"
  }

  predicate IsPrefix(l: Leaf) {
    l.StringOption? && l.key == "prefix"
  }

  function Flag(o: Option<Leaf>): bool {
    o.Some? && o.value.BoolOption? && o.value.flag
  }

  function Text(o: Option<Leaf>): string {
    if o.Some? && o.value.StringOption? then o.value.text else ""
  }

  predicate DryRun(opts: seq<Leaf>) {
    Flag(First(opts, IsDryRun))
  }

  /** The option at `i` is the first with its key, and true. */
  predicate SetsFlag(opts: seq<Leaf>, i: nat, key: string) {
    i < |opts| && opts[i] == BoolOption(key, true)
    && forall j :: 0 <= j < i ==> !(opts[j].BoolOption? && opts[j].key == key)
  }

  /** A dry run is asked for when the first option with that key says so. */
  lemma {:induction false} DryRunMeans(opts: seq<Leaf>)
    ensures DryRun(opts) <==> exists i: nat :: SetsFlag(opts, i, "dryRun")
  {
    if opts != [] && !(opts[0].BoolOption? && opts[0].key == "dryRun") {
      DryRunMeans(opts[1..]);
      if i: nat :| SetsFlag(opts[1..], i, "dryRun") {
        assert SetsFlag(opts, i + 1, "dryRun");
      }
      if i: nat :| SetsFlag(opts, i, "dryRun") {
        assert SetsFlag(opts[1..], i - 1, "dryRun");
      }
    } else if opts != [] {
      assert DryRun(opts) ==> SetsFlag(opts, 0, "dryRun");
    }
  }

  lemma {:induction false} KeysOnlyMeans(opts: seq<Leaf>)
    ensures Flag(First(opts, IsKeysOnly)) <==> exists i: nat :: SetsFlag(opts, i, "keysOnly")
  {
    if opts != [] && !(opts[0].BoolOption? && opts[0].key == "keysOnly") {
      KeysOnlyMeans(opts[1..]);
      if i: nat :| SetsFlag(opts[1..], i, "keysOnly") {
        assert SetsFlag(opts, i + 1, "keysOnly");
      }
      if i: nat :| SetsFlag(opts, i, "keysOnly") {
        assert SetsFlag(opts[1..], i - 1, "keysOnly");
      }
    } else if opts != [] {
      assert Flag(First(opts, IsKeysOnly)) ==> SetsFlag(opts, 0, "keysOnly");
    }
  }

  /** The first prefix option counts; without one every key has the prefix. */
  lemma PrefixMeans(opts: seq<Leaf>, i: nat)
    requires i <= |opts| && forall j :: 0 <= j < i ==> !(opts[j].StringOption? && opts[j].key == "prefix")
    ensures i == |opts| ==> Text(First(opts, IsPrefix)) == ""
    ensures i < |opts| && opts[i].StringOption? && opts[i].key == "prefix" ==>
      Text(First(opts, IsPrefix)) == opts[i].text
  {
    FirstHitAt(opts, IsPrefix, i);
  }

  predicate NilOnly(opts: seq<Leaf>) {
    forall l :: l in opts ==> l.NilOption?
  }

  method NilOnlyFlat(a: array<Leaf>, n: nat) returns (ok: bool)
    requires n <= a.Length
    ensures ok == NilOnly(a[..n])
    ensures ok <==> forall i :: 0 <= i < n ==> a[i] == NilOption
  {
    for i := 0 to n
      invariant forall j :: 0 <= j < i ==> a[j].NilOption?
    {
      if !a[i].NilOption? {
        assert a[i] in a[..n];
        return false;
      }
    }
    return true;
  }

  // ---- the operations on values ---------------------------------------------------------

  function MustExist<V>(m: map<string, V>, key: string): Option<Error> {
    if key in m then None else Some(NotFound)
  }

  function MustNotExist<V>(m: map<string, V>, key: string): Option<Error> {
    if key in m then Some(Conflict) else None
  }

  datatype Write<V> = Creating(value: V) | Updating(value: V) | Applying(value: V) | Deleting

  /** What a write says about the key itself. */
  function KeyError<V>(m: map<string, V>, w: Write<V>, key: string): Option<Error> {
    match w
    case Creating(_) => MustNotExist(m, key)
    case Updating(_) => MustExist(m, key)
    case Applying(_) => None
    case Deleting => MustExist(m, key)
  }

  /** Update rejects leftover nil options, the other writes ignore them. */
  predicate WriteSupports<V>(w: Write<V>, left: seq<Leaf>) {
    if w.Updating? then left == [] else NilOnly(left)
  }

  /** A dry run looks at the key only; otherwise leftover options are an error. */
  function WriteError<V>(m: map<string, V>, w: Write<V>, key: string, opts: seq<Leaf>): Option<Error> {
    if DryRun(opts) || WriteSupports(w, Without(opts, IsDryRun)) then KeyError(m, w, key) else Some(Unsupported)
  }

  function WriteMap<V>(m: map<string, V>, w: Write<V>, key: string, opts: seq<Leaf>): map<string, V> {
    if WriteError(m, w, key, opts).Some? || DryRun(opts) then m
    else if w.Deleting? then m - {key}
    else m[key := w.value]
  }

  function ReadError<V>(m: map<string, V>, key: string, opts: seq<Leaf>): Option<Error> {
    if NilOnly(opts) then MustExist(m, key) else Some(Unsupported)
  }

  predicate ListSupports(opts: seq<Leaf>) {
    NilOnly(Without(Without(opts, IsPrefix), IsKeysOnly))
  }

  /** What List shows: the keys with the prefix, their values blanked by a keys-only request. */
  function Visible<V>(m: map<string, V>, zero: V, opts: seq<Leaf>): map<string, V> {
    var prefix := Text(First(opts, IsPrefix));
    var keysOnly := Flag(First(Without(opts, IsPrefix), IsKeysOnly));
    map k | k in m && prefix <= k :: if keysOnly then zero else m[k]
  }

  /** One call on a store, and what it returns; a listing stands for the map it lists. */
  datatype Op<V> =
    | Put(write: Write<V>, key: string, opts: seq<Leaf>)
    | Get(key: string, opts: seq<Leaf>)
    | GetAll(opts: seq<Leaf>)

  datatype Result<V> = Failed(error: Error) | Written | Found(value: V) | Listed(view: map<string, V>)

  function ReadResult<V>(m: map<string, V>, key: string, opts: seq<Leaf>): Result<V> {
    var err := ReadError(m, key, opts);
    if err.Some? then Failed(err.value) else Found(m[key])
  }

  function ListResult<V>(m: map<string, V>, zero: V, opts: seq<Leaf>): Result<V> {
    if ListSupports(opts) then Listed(Visible(m, zero, opts)) else Failed(Unsupported)
  }

  function WriteResult<V>(err: Option<Error>): Result<V> {
    if err.Some? then Failed(err.value) else Written
  }

  function MemoryStep<V>(m: map<string, V>, zero: V, op: Op<V>): (map<string, V>, Result<V>) {
    match op
    case Put(w, key, opts) => (WriteMap(m, w, key, opts), WriteResult(WriteError(m, w, key, opts)))
    case Get(key, opts) => (m, ReadResult(m, key, opts))
    case GetAll(opts) => (m, ListResult(m, zero, opts))
  }

  function MemoryRun<V>(m: map<string, V>, zero: V, ops: seq<Op<V>>): (map<string, V>, seq<Result<V>>)
    decreases |ops|
  {
    if ops == [] then (m, [])
    else
      var (m', r) := MemoryStep(m, zero, ops[0]);
      var (end, rs) := MemoryRun(m', zero, ops[1..]);
      (end, [r] + rs)
  }

  // ---- the store ------------------------------------------------------------------------

  /**
    A write as its caller sees it. A dry run only reports what it would say about the key; unsupported
    options are an error; otherwise that answer is given, and the change made if there is nothing to say.
   */
  ghost predicate Answered<V>(m: map<string, V>, m': map<string, V>, dryRun: bool, supported: bool,
                              keyErr: Option<Error>, changed: map<string, V>, err: Option<Error>) {
    && (dryRun ==> err == keyErr && m' == m)
    && (!dryRun && !supported ==> err == Some(Unsupported) && m' == m)
    && (!dryRun && supported ==> err == keyErr && m' == if keyErr.None? then changed else m)
  }

  class Memory<V> {
    var store: map<string, V>
    const zero: V

    constructor (store: map<string, V>, zero: V)
      ensures this.store == store && this.zero == zero
    {
      this.store, this.zero := store, zero;
    }

    method Create(key: string, value: V, opts: array<Leaf>, n: nat) returns (err: Option<Error>)
      requires n <= opts.Length
      modifies this, opts
      ensures err == WriteError(old(store), Creating(value), key, old(opts[..n]))
      ensures store == WriteMap(old(store), Creating(value), key, old(opts[..n]))
      ensures
        var left := Without(old(opts[..n]), IsDryRun);
        var keyErr := if key in old(store) then Some(Conflict) else None;
        Answered(old(store), store, DryRun(old(opts[..n])), NilOnly(left), keyErr, old(store)[key := value], err)
    {
      hide First, Without, StaleView;
      var left, dryRun := MatchFlat(opts, n, IsDryRun);
      if Flag(dryRun) {
        return MustNotExist(store, key);
      }
      var ok := NilOnlyFlat(opts, left);
      if !ok {
        return Some(Unsupported);
      }
      if key in store {
        return Some(Conflict);
      }
      store := store[key := value];
      return None;
    }

    method Read(key: string, opts: array<Leaf>, n: nat) returns (item: Option<V>, err: Option<Error>)
      requires n <= opts.Length
      ensures err == ReadError(store, key, opts[..n])
      ensures err == if !NilOnly(opts[..n]) then Some(Unsupported) else if key !in store then Some(NotFound) else None
      ensures err.None? ==> key in store && item == Some(store[key])
      ensures err.Some? ==> item == None
    {
      var ok := NilOnlyFlat(opts, n);
      if !ok {
        return None, Some(Unsupported);
      }
      if key !in store {
        return None, Some(NotFound);
      }
      return Some(store[key]), None;
    }

    method Update(key: string, value: V, opts: array<Leaf>, n: nat) returns (err: Option<Error>)
      requires n <= opts.Length
      modifies this, opts
      ensures err == WriteError(old(store), Updating(value), key, old(opts[..n]))
      ensures store == WriteMap(old(store), Updating(value), key, old(opts[..n]))
      ensures
        var left := Without(old(opts[..n]), IsDryRun);
        var keyErr := if key in old(store) then None else Some(NotFound);
        Answered(old(store), store, DryRun(old(opts[..n])), left == [], keyErr, old(store)[key := value], err)
    {
      hide First, Without, StaleView;
      var left, dryRun := MatchFlat(opts, n, IsDryRun);
      if Flag(dryRun) {
        return MustExist(store, key);
      }
      if left > 0 {
        return Some(Unsupported);
      }
      if key !in store {
        return Some(NotFound);
      }
      store := store[key := value];
      return None;
    }

    method Apply(key: string, value: V, opts: array<Leaf>, n: nat) returns (err: Option<Error>)
      requires n <= opts.Length
      modifies this, opts
      ensures err == WriteError(old(store), Applying(value), key, old(opts[..n]))
      ensures store == WriteMap(old(store), Applying(value), key, old(opts[..n]))
      ensures
        var left := Without(old(opts[..n]), IsDryRun);
        var keyErr := None;
        Answered(old(store), store, DryRun(old(opts[..n])), NilOnly(left), keyErr, old(store)[key := value], err)
    {
      hide First, Without, StaleView;
      var left, dryRun := MatchFlat(opts, n, IsDryRun);
      if Flag(dryRun) {
        return None;
      }
      var ok := NilOnlyFlat(opts, left);
      if !ok {
        return Some(Unsupported);
      }
      store := store[key := value];
      return None;
    }

    method Delete(key: string, opts: array<Leaf>, n: nat) returns (err: Option<Error>)
      requires n <= opts.Length
      modifies this, opts
      ensures err == WriteError(old(store), Deleting, key, old(opts[..n]))
      ensures store == WriteMap(old(store), Deleting, key, old(opts[..n]))
      ensures
        var left := Without(old(opts[..n]), IsDryRun);
        var keyErr := if key in old(store) then None else Some(NotFound);
        Answered(old(store), store, DryRun(old(opts[..n])), NilOnly(left), keyErr, old(store) - {key}, err)
    {
      hide First, Without, StaleView;
      var left, dryRun := MatchFlat(opts, n, IsDryRun);
      if Flag(dryRun) {
        return MustExist(store, key);
      }
      var ok := NilOnlyFlat(opts, left);
      if !ok {
        return Some(Unsupported);
      }
      if key !in store {
        return Some(NotFound);
      }
      store := store - {key};
      return None;
    }

    /** Collects the visible entries in whatever order the map yields them, keeping them sorted. */
    method List(opts: array<Leaf>, n: nat) returns (items: seq<ListItem<V>>, err: Option<Error>)
      requires n <= opts.Length
      modifies opts
      ensures err == if ListSupports(old(opts[..n])) then None else Some(Unsupported)
      ensures err.None? ==> Lists(items, Visible(store, zero, old(opts[..n])))
      ensures
        var prefix := Text(First(old(opts[..n]), IsPrefix));
        var rest := Without(old(opts[..n]), IsPrefix);
        var keysOnly := Flag(First(rest, IsKeysOnly));
        && (err.None? <==> NilOnly(Without(rest, IsKeysOnly)))
        && (err.None? ==> forall k :: k in store && prefix <= k ==> HasKey(items, k))
        && (err.None? ==> forall i :: 0 <= i < |items| ==>
              && items[i].key in store && prefix <= items[i].key
              && items[i].value == if keysOnly then zero else store[items[i].key])
      ensures err.Some? ==> items == []
    {
      var left, prefixOpt := MatchFlat(opts, n, IsPrefix);
      var left2, keysOpt := MatchFlat(opts, left, IsKeysOnly);
      var ok := NilOnlyFlat(opts, left2);
      if !ok {
        return [], Some(Unsupported);
      }
      var prefix, keysOnly := Text(prefixOpt), Flag(keysOpt);
      ghost var visible := Visible(store, zero, old(opts[..n]));
      items := Collect(prefix, keysOnly, visible);
      return items, None;
    }

    method Collect(prefix: string, keysOnly: bool, ghost visible: map<string, V>) returns (items: seq<ListItem<V>>)
      requires visible == map k | k in store && prefix <= k :: if keysOnly then zero else store[k]
      ensures Lists(items, visible)
    {
      items := [];
      var todo := store.Keys;
      ghost var seen: map<string, V> := map[];
      while todo != {}
        invariant todo <= store.Keys
        invariant forall k :: k in seen <==> k in visible && k !in todo
        invariant forall k :: k in seen ==> seen[k] == visible[k]
        invariant Lists(items, seen)
        decreases |todo|
      {
        var k :| k in todo;
        todo := todo - {k};
        if prefix <= k {
          var item := ListItem(k, if keysOnly then zero else store[k]);
          InsertLists(items, seen, item);
          items := InsertSorted(items, item);
          seen := seen[k := item.value];
        }
      }
      assert seen == visible;
    }
  }
}
