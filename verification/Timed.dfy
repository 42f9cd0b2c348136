/**
  Entries that expire (`pkg/store/utilities/timed/timed.go`, `item.go`). Times are nanoseconds on one
  clock; the code keeps and compares whole seconds only, and the results say what that costs.
 */
module Timed {
  import opened Maybe
  import opened Options
  import opened Listings
  import opened Memory

  const SECOND: nat := 1_000_000_000

  /** time.Now().Unix(). */
  function Unix(now: nat): nat {
    now / SECOND
  }

  datatype CacheItem<V> = CacheItem(value: V, timestamp: int)

  /** `maxAge` is a duration in nanoseconds, cut to whole seconds. */
  predicate IsExpired<V>(item: CacheItem<V>, now: nat, maxAge: nat) {
    Unix(now) - item.timestamp >= Unix(maxAge)
  }

  function Purged<V>(m: map<string, CacheItem<V>>, now: nat, maxAge: nat): map<string, CacheItem<V>> {
    map k | k in m && !IsExpired(m[k], now, maxAge) :: m[k]
  }

  class Timed<V> {
    const backend: Memory<CacheItem<V>>
    const maxAge: nat
    const refreshAgeOnRead: bool

    constructor (backend: Memory<CacheItem<V>>, maxAge: nat, refreshAgeOnRead: bool)
      ensures this.backend == backend && this.maxAge == maxAge && this.refreshAgeOnRead == refreshAgeOnRead
    {
      this.backend, this.maxAge, this.refreshAgeOnRead := backend, maxAge, refreshAgeOnRead;
    }

    method Apply(key: string, value: V, opts: array<Leaf>, n: nat, now: nat) returns (err: Option<Error>)
      requires n <= opts.Length
      modifies backend, opts
      ensures err == WriteError(old(backend.store), Applying(CacheItem(value, Unix(now))), key, old(opts[..n]))
      ensures backend.store == WriteMap(old(backend.store), Applying(CacheItem(value, Unix(now))), key, old(opts[..n]))
    {
      err := backend.Apply(key, CacheItem(value, Unix(now)), opts, n);
    }

    /** A read may write the entry back with a fresh timestamp; an expired entry is still returned. */
    method Read(key: string, opts: array<Leaf>, n: nat, now: nat) returns (value: Option<V>, err: Option<Error>)
      requires n <= opts.Length
      modifies backend
      ensures err == ReadError(old(backend.store), key, opts[..n])
      ensures err.None? ==> key in old(backend.store) && value == Some(old(backend.store)[key].value)
      ensures backend.store == if err.None? && refreshAgeOnRead
        then old(backend.store)[key := old(backend.store)[key].(timestamp := Unix(now))] else old(backend.store)
    {
      var item;
      item, err := backend.Read(key, opts, n);
      if err.Some? {
        return None, err;
      }
      if refreshAgeOnRead {
        var none := new Leaf[0];
        assert none[..0] == [];
        err := backend.Update(key, item.value.(timestamp := Unix(now)), none, 0);
      }
      value := Some(item.value.value);
    }

    method DeleteItemsOlderThan(now: nat) returns (err: Option<Error>)
      modifies backend
      ensures err.None? && backend.store == Purged(old(backend.store), now, maxAge)
    {
      hide Answered;
      var none := new Leaf[0];
      assert none[..0] == [];
      var items, listErr := backend.List(none, 0);
      ghost var all := backend.store;
      assert Visible(all, backend.zero, []) == all;
      err := None;
      for i := 0 to |items|
        invariant err.None?
        invariant forall k :: k in backend.store ==> k in all && backend.store[k] == all[k]
        invariant forall j :: i <= j < |items| ==> items[j].key in backend.store
        invariant forall j :: 0 <= j < i ==>
          (items[j].key in backend.store <==> !IsExpired(items[j].value, now, maxAge))
      {
        if IsExpired(items[i].value, now, maxAge) {
          forall j | 0 <= j < |items| && j != i ensures items[j].key != items[i].key {
            LessTotal(items[i].key, items[j].key);
          }
          err := Drop(items[i].key);
        }
      }
      forall k | k in all ensures k in backend.store <==> !IsExpired(all[k], now, maxAge) {
        assert HasKey(items, k);
        var j :| 0 <= j < |items| && items[j].key == k;
      }
      assert backend.store == Purged(all, now, maxAge);
    }

    method Drop(key: string) returns (err: Option<Error>)
      modifies backend
      ensures err == MustExist(old(backend.store), key)
      ensures backend.store == old(backend.store) - {key}
    {
      var none := new Leaf[0];
      assert none[..0] == [];
      err := backend.Delete(key, none, 0);
      assert key !in old(backend.store) ==> old(backend.store) - {key} == old(backend.store);
    }
  }

  // ---- ages over a run ------------------------------------------------------------------

  /** What happens to the timestamps: a write or refreshing read, a deletion, a purge. */
  datatype Event = Touch(key: string, at: nat) | Remove(key: string, at: nat) | Purge(at: nat)

  /** An entry's stored second, and the exact time it stands for. */
  datatype Stamp = Stamp(timestamp: int, touched: nat)

  function Step(m: map<string, Stamp>, maxAge: nat, e: Event): map<string, Stamp> {
    match e
    case Touch(key, at) => m[key := Stamp(Unix(at), at)]
    case Remove(key, _) => m - {key}
    case Purge(at) => map k | k in m && !IsExpired(CacheItem((), m[k].timestamp), at, maxAge) :: m[k]
  }

  function Run(maxAge: nat, events: seq<Event>): map<string, Stamp> {
    if events == [] then map[] else Step(Run(maxAge, events[..|events| - 1]), maxAge, events[|events| - 1])
  }

  /** The timestamps of a store, whatever its values. */
  ghost predicate Tracks<V>(m: map<string, CacheItem<V>>, stamps: map<string, Stamp>) {
    m.Keys == stamps.Keys && forall k :: k in m ==> m[k].timestamp == stamps[k].timestamp
  }

  /** Each event moves the timestamps as the store's own operations do. */
  lemma StepTracks<V>(m: map<string, CacheItem<V>>, stamps: map<string, Stamp>, maxAge: nat,
                      key: string, value: V, at: nat)
    requires Tracks(m, stamps)
    ensures Tracks(m[key := CacheItem(value, Unix(at))], Step(stamps, maxAge, Touch(key, at)))
    ensures Tracks(m - {key}, Step(stamps, maxAge, Remove(key, at)))
    ensures Tracks(Purged(m, at, maxAge), Step(stamps, maxAge, Purge(at)))
  {
    forall k ensures k in Purged(m, at, maxAge) <==> k in Step(stamps, maxAge, Purge(at)) {}
  }

  /** Events come in time order, none after `now`. */
  ghost predicate Timely(events: seq<Event>, now: nat) {
    && (forall i :: 0 <= i < |events| ==> events[i].at <= now)
    && forall i, j :: 0 <= i < j < |events| ==> events[i].at <= events[j].at
  }

  /** The ticker started at `start` purged after every further period. */
  ghost predicate Ticked(events: seq<Event>, start: nat, period: nat, now: nat) {
    forall k: nat :: k > 0 && start + k * period <= now ==> Purge(start + k * period) in events
  }

  /** What has survived every purge since it was last touched. */
  lemma {:induction false} Survivors(maxAge: nat, events: seq<Event>, now: nat, key: string, p: nat)
    requires Timely(events, now) && key in Run(maxAge, events)
    ensures var e := Run(maxAge, events)[key];
      && e.timestamp == Unix(e.touched) && e.touched <= now
      && (Purge(p) in events && p > e.touched ==> Unix(p) - Unix(e.touched) < Unix(maxAge))
  {
    var n := |events| - 1;
    var front, last := events[..n], events[n];
    assert events == front + [last];
    if !(last.Touch? && last.key == key) {
      Survivors(maxAge, front, now, key, p);
    }
  }

  lemma UnixGap(a: nat, b: nat, seconds: nat)
    ensures b >= a + seconds * SECOND ==> Unix(b) - Unix(a) >= seconds
    ensures Unix(b) - Unix(a) >= seconds && seconds > 0 ==> b > a + (seconds - 1) * SECOND
  {}

  /** The least tick after `t`. */
  lemma NextTick(start: nat, period: nat, t: nat) returns (k: nat)
    requires period > 0 && start <= t
    ensures k > 0 && t < start + k * period <= t + period
  {
    k := (t - start) / period + 1;
    assert (t - start) / period * period + (t - start) % period == t - start;
    assert k * period == (t - start) / period * period + period;
  }

  function Later(a: nat, b: nat): nat {
    if a < b then b else a
  }

  /**
    With M the maximum age in whole seconds, no entry is ever present M seconds plus one sync period
    after it was last written (or read, when reads refresh); an entry already overdue when the ticker
    starts is gone within the first period.
   */
  lemma NeverOlderThanMaxAgePlusPeriod(maxAge: nat, events: seq<Event>, start: nat, period: nat, now: nat, key: string)
    requires Timely(events, now) && period > 0 && Ticked(events, start, period, now)
    requires key in Run(maxAge, events)
    ensures now < Later(start, Run(maxAge, events)[key].touched + Unix(maxAge) * SECOND) + period
  {
    var touched := Run(maxAge, events)[key].touched;
    var due := Later(start, touched + Unix(maxAge) * SECOND);
    if now >= due + period {
      var k := NextTick(start, period, due);
      var tick := start + k * period;
      assert Purge(tick) in events;
      Survivors(maxAge, events, now, key, tick);
      UnixGap(touched, tick, Unix(maxAge));
    }
  }

  /** A purge only ever takes entries older than M - 1 seconds. */
  lemma NeverPurgedEarly(maxAge: nat, events: seq<Event>, now: nat, key: string)
    requires Timely(events, now) && key in Run(maxAge, events) && Unix(maxAge) > 0
    requires key !in Step(Run(maxAge, events), maxAge, Purge(now))
    ensures now > Run(maxAge, events)[key].touched + (Unix(maxAge) - 1) * SECOND
  {
    Survivors(maxAge, events, now, key, 0);
    UnixGap(Run(maxAge, events)[key].touched, now, Unix(maxAge));
  }

  /**
    Flooring shows: with M = 2 an entry of 1 second and a nanosecond can go, while one of 2 seconds less a
    nanosecond can stay.
   */
  lemma FlooringIsVisible()
    ensures
      var maxAge := 2 * SECOND;
      && "k" !in Run(maxAge, [Touch("k", SECOND - 1), Purge(2 * SECOND)])
      && "k" in Run(maxAge, [Touch("k", SECOND), Purge(3 * SECOND - 1)])
  {
    var maxAge := 2 * SECOND;
    var a, b := [Touch("k", SECOND - 1), Purge(2 * SECOND)], [Touch("k", SECOND), Purge(3 * SECOND - 1)];
    assert a[..1] == [a[0]] && b[..1] == [b[0]] && [a[0]][..0] == [] && [b[0]][..0] == [];
    assert Run(maxAge, [a[0]]) == map["k" := Stamp(0, SECOND - 1)];
    assert Run(maxAge, [b[0]]) == map["k" := Stamp(1, SECOND)];
  }
}
