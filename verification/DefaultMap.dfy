/** Merging and cloning stores (`pkg/store/utilities/defaultmap/defaultmap.go`). */
module DefaultMap {
  import opened Maybe
  import opened Options
  import opened Listings
  import opened Memory

  type Collision<!V> = (V, V) -> V

  function Collided<V>(d: map<string, V>, key: string, value: V, f: Collision<V>): V {
    if key in d then f(d[key], value) else value
  }

  function Merged<V>(d: map<string, V>, o: map<string, V>, f: Collision<V>): map<string, V> {
    map k | k in d.Keys + o.Keys :: if k in o then Collided(d, k, o[k], f) else d[k]
  }

  function Cloned<V>(d: map<string, V>, o: map<string, V>, f: Collision<V>): map<string, V> {
    map k | k in o :: Collided(d, k, o[k], f)
  }

  /** Every key of `o` holds the collision of old and new, or the new value where there was none. */
  ghost predicate Resolved<V>(d: map<string, V>, o: map<string, V>, f: Collision<V>, m: map<string, V>) {
    forall k :: k in o ==> k in m && m[k] == if k in d then f(d[k], o[k]) else o[k]
  }

  function NewWins<V>(older: V, newer: V): V {
    newer
  }

  /** "New wins" makes a clone an exact copy whatever was there before; onto itself it is the identity. */
  lemma CloneCopies<V>(d: map<string, V>, o: map<string, V>)
    ensures Cloned(d, o, NewWins) == o
    ensures Cloned(o, o, NewWins) == o
  {}

  /** Cloning is merging followed by dropping what the other store does not have. */
  lemma CloneIsMergeRestricted<V>(d: map<string, V>, o: map<string, V>, f: Collision<V>)
    ensures Cloned(d, o, f) == Merged(d, o, f) - (d.Keys - o.Keys)
  {}

  lemma MergeOne<V>(d: map<string, V>, o: map<string, V>, todo: set<string>, k: string, f: Collision<V>)
    requires k in todo && k in o
    ensures
      var before := Merged(d, o - todo, f);
      Merged(d, o - (todo - {k}), f) == before[k := Collided(before, k, o[k], f)]
  {}

  /** The entries not yet looked at, and those that stay. */
  function Kept<V>(m: map<string, V>, todo: set<string>, keep: set<string>): map<string, V> {
    map k | k in m && (k in todo || k in keep) :: m[k]
  }

  lemma KeptEnds<V>(m: map<string, V>, keep: set<string>)
    ensures Kept(m, m.Keys, keep) == m
    ensures Kept(m, {}, keep) == m - (m.Keys - keep)
  {}

  lemma DropOne<V>(m: map<string, V>, todo: set<string>, keep: set<string>, k: string)
    requires k in todo && todo <= m.Keys
    ensures k in Kept(m, todo, keep)
    ensures Kept(m, todo - {k}, keep) == if k in keep then Kept(m, todo, keep) else Kept(m, todo, keep) - {k}
  {}

  class DefaultMap<V> {
    const backend: Memory<V>

    constructor (backend: Memory<V>)
      ensures this.backend == backend
    {
      this.backend := backend;
    }

    /** Without options the memory backend fails a read with NotFound only, so no error can surface. */
    method Update(key: string, value: V, f: Collision<V>) returns (err: Option<Error>)
      modifies backend
      ensures err.None?
      ensures backend.store == old(backend.store)[key := Collided(old(backend.store), key, value, f)]
      ensures key in old(backend.store) ==>
        backend.store == old(backend.store)[key := f(old(backend.store)[key], value)]
      ensures key !in old(backend.store) ==> backend.store == old(backend.store)[key := value]
    {
      var none := new Leaf[0];
      assert none[..0] == [];
      var current, readErr := backend.Read(key, none, 0);
      if readErr.None? {
        err := backend.Update(key, f(current.value, value), none, 0);
      } else {
        err := backend.Create(key, value, none, 0);
      }
    }

    method Delete(key: string) returns (err: Option<Error>)
      modifies backend
      ensures err == MustExist(old(backend.store), key)
      ensures backend.store == old(backend.store) - {key}
    {
      var none := new Leaf[0];
      assert none[..0] == [];
      err := backend.Delete(key, none, 0);
      assert key !in old(backend.store) ==> old(backend.store) - {key} == old(backend.store);
    }

    static method Snapshot(other: Memory<V>) returns (m: map<string, V>)
      ensures m == other.store
    {
      var none := new Leaf[0];
      assert none[..0] == [];
      var items, _ := other.List(none, 0);
      assert Visible(other.store, other.zero, []) == other.store;
      m := AsMap(items, other.store);
    }

    method MergeAll(theirs: map<string, V>, f: Collision<V>) returns (err: Option<Error>)
      modifies backend
      ensures err.None? && backend.store == Merged(old(backend.store), theirs, f)
    {
      var todo := theirs.Keys;
      err := None;
      assert theirs - todo == map[] && Merged(backend.store, map[], f) == backend.store;
      while todo != {}
        invariant todo <= theirs.Keys && err.None?
        invariant backend.store == Merged(old(backend.store), theirs - todo, f)
        decreases |todo|
      {
        var k :| k in todo;
        MergeOne(old(backend.store), theirs, todo, k, f);
        todo := todo - {k};
        err := Update(k, theirs[k], f);
      }
      assert theirs - {} == theirs;
    }

    method Merge(other: Memory<V>, f: Collision<V>) returns (err: Option<Error>)
      modifies backend
      ensures err.None? && backend.store == Merged(old(backend.store), old(other.store), f)
      ensures backend.store.Keys == old(backend.store).Keys + old(other.store).Keys
      ensures Resolved(old(backend.store), old(other.store), f, backend.store)
      ensures forall k :: k in old(backend.store) && k !in old(other.store) ==>
        backend.store[k] == old(backend.store)[k]
      ensures other != backend ==> other.store == old(other.store)
    {
      var theirs := Snapshot(other);
      err := MergeAll(theirs, f);
    }

    method DropOthers(theirs: map<string, V>) returns (err: Option<Error>)
      modifies backend
      ensures err.None? && backend.store == old(backend.store) - (old(backend.store).Keys - theirs.Keys)
    {
      var ours := Snapshot(backend);
      KeptEnds(ours, theirs.Keys);
      var todo := ours.Keys;
      err := None;
      while todo != {}
        invariant todo <= ours.Keys && err.None?
        invariant backend.store == Kept(ours, todo, theirs.Keys)
        decreases |todo|
      {
        var k :| k in todo;
        DropOne(ours, todo, theirs.Keys, k);
        todo := todo - {k};
        if k !in theirs {
          err := Delete(k);
        }
      }
    }

    /** Also when `other` is the backend itself: the first listing is taken before anything changes. */
    method Clone(other: Memory<V>, f: Collision<V>) returns (err: Option<Error>)
      modifies backend
      ensures err.None? && backend.store == Cloned(old(backend.store), old(other.store), f)
      ensures backend.store.Keys == old(other.store).Keys
      ensures Resolved(old(backend.store), old(other.store), f, backend.store)
      ensures other != backend ==> other.store == old(other.store)
    {
      var theirs := Snapshot(other);
      err := MergeAll(theirs, f);
      ghost var merged := backend.store;
      err := DropOthers(theirs);
      CloneIsMergeRestricted(old(backend.store), theirs, f);
    }
  }
}
