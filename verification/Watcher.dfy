/** The polling file watcher (`pkg/fsnotify/watcher.go`). */
module Watcher {
  import opened Maybe

  type Digest = nat

  /** The hash of each readable file. */
  type Disk = map<string, Digest>

  type Hashes = map<string, Digest>

  /** The root of the file system is already mounted, so a leading slash goes, unless told otherwise. */
  function Key(file: string, notRootFS: bool): string {
    if !notRootFS && |file| > 2 && file[0] == '/' then file[1..] else file
  }

  datatype Scanned = Scanned(hashes: Hashes, changed: bool, failed: bool)

  /** One tick: record new files, stop at the first changed or unreadable one. */
  function Scan(files: seq<string>, notRootFS: bool, hashes: Hashes, disk: Disk): Scanned {
    if files == [] then Scanned(hashes, false, false)
    else
      var key := Key(files[0], notRootFS);
      if key !in disk then Scanned(hashes, false, true)
      else if key !in hashes then Scan(files[1..], notRootFS, hashes[key := disk[key]], disk)
      else if hashes[key] != disk[key] then Scanned(hashes[key := disk[key]], true, false)
      else Scan(files[1..], notRootFS, hashes, disk)
  }

  class IntervalWatcher {
    const notRootFS: bool

    constructor (notRootFS: bool)
      ensures this.notRootFS == notRootFS
    {
      this.notRootFS := notRootFS;
    }

    /** The hashes are the caller's map, handed in and back. */
    method FileHashChanged(files: seq<string>, disk: Disk, recorded: Hashes)
      returns (hashes: Hashes, changed: bool, failed: bool)
      ensures Scanned(hashes, changed, failed) == Scan(files, notRootFS, recorded, disk)
    {
      hashes := recorded;
      for i := 0 to |files|
        invariant Scan(files, notRootFS, recorded, disk) == Scan(files[i..], notRootFS, hashes, disk)
      {
        assert files[i..][0] == files[i] && files[i..][1..] == files[i + 1..];
        var key := Key(files[i], notRootFS);
        if key !in disk {
          return hashes, false, true;
        }
        var hash := disk[key];
        if key !in hashes {
          hashes := hashes[key := hash];
        } else if hashes[key] != hash {
          return hashes[key := hash], true, false;
        }
      }
      return hashes, false, false;
    }

    /**
      The first `ticks` ticks of Watch, which an unreadable file ends early. `ran` ticks went through,
      and `called` lists the calls of `do` with the hashes each was given; `hashes` are the last ones.
     */
    method Watch(files: seq<string>, disks: nat -> Disk, ticks: nat)
      returns (called: seq<Callback>, ran: nat, failed: bool, hashes: Hashes)
      ensures ran <= ticks && (failed <==> ran < ticks)
      ensures forall t: nat :: t < ran ==> !Fails(files, notRootFS, disks, t)
      ensures failed ==> Fails(files, notRootFS, disks, ran)
      ensures hashes == Ticks(files, notRootFS, disks, if failed then ran + 1 else ran)
      ensures called == Callbacks(files, notRootFS, disks, ran)
    {
      hashes := map[];
      called, ran := [], 0;
      while ran < ticks
        invariant ran <= ticks
        invariant forall t: nat :: t < ran ==> !Fails(files, notRootFS, disks, t)
        invariant hashes == Ticks(files, notRootFS, disks, ran)
        invariant called == Callbacks(files, notRootFS, disks, ran)
      {
        var changed;
        hashes, changed, failed := FileHashChanged(files, disks(ran), hashes);
        if failed {
          return;
        }
        if changed {
          called := called + [Callback(ran, hashes)];
        }
        ran := ran + 1;
      }
      failed := false;
    }
  }

  datatype Callback = Callback(tick: nat, hashes: Hashes)

  /** The recorded hashes after `n` ticks. */
  function Ticks(files: seq<string>, notRootFS: bool, disks: nat -> Disk, n: nat): Hashes
    decreases n, 0
  {
    if n == 0 then map[] else ScanAt(files, notRootFS, disks, n - 1).hashes
  }

  /** What tick `n` finds. */
  function ScanAt(files: seq<string>, notRootFS: bool, disks: nat -> Disk, n: nat): Scanned
    decreases n, 1
  {
    Scan(files, notRootFS, Ticks(files, notRootFS, disks, n), disks(n))
  }

  predicate Fails(files: seq<string>, notRootFS: bool, disks: nat -> Disk, n: nat) {
    ScanAt(files, notRootFS, disks, n).failed
  }

  /** Tick `n` calls back. */
  predicate Calls(files: seq<string>, notRootFS: bool, disks: nat -> Disk, n: nat) {
    ScanAt(files, notRootFS, disks, n).changed
  }

  /** The calls made in the first `n` ticks. */
  function Callbacks(files: seq<string>, notRootFS: bool, disks: nat -> Disk, n: nat): seq<Callback> {
    if n == 0 then []
    else
      var before := Callbacks(files, notRootFS, disks, n - 1);
      if !Calls(files, notRootFS, disks, n - 1) then before
      else before + [Callback(n - 1, Ticks(files, notRootFS, disks, n))]
  }

  /** A tick is in the list exactly when it found a change, with the hashes as that tick left them. */
  lemma {:induction false} CallbacksAreChanges(files: seq<string>, notRootFS: bool, disks: nat -> Disk,
                                               n: nat, c: Callback)
    ensures c in Callbacks(files, notRootFS, disks, n) <==>
      c.tick < n && Calls(files, notRootFS, disks, c.tick) && c.hashes == Ticks(files, notRootFS, disks, c.tick + 1)
  {
    if n > 0 {
      CallbacksAreChanges(files, notRootFS, disks, n - 1, c);
    }
  }

  /** Callbacks of increasing ticks, all before `n`. */
  ghost predicate InOrder(calls: seq<Callback>, n: nat) {
    && (forall a :: 0 <= a < |calls| ==> calls[a].tick < n)
    && (forall a, b :: 0 <= a < b < |calls| ==> calls[a].tick < calls[b].tick)
  }

  lemma {:induction false} CallbacksInOrder(files: seq<string>, notRootFS: bool, disks: nat -> Disk, n: nat)
    ensures InOrder(Callbacks(files, notRootFS, disks, n), n)
  {
    if n > 0 {
      var before := Callbacks(files, notRootFS, disks, n - 1);
      CallbacksInOrder(files, notRootFS, disks, n - 1);
      assert InOrder(before, n);
      assert InOrder(before + [Callback(n - 1, Ticks(files, notRootFS, disks, n))], n);
    }
  }

  // ---- convergence ----------------------------------------------------------------------

  function Keys(files: seq<string>, notRootFS: bool): set<string> {
    set f | f in files :: Key(f, notRootFS)
  }

  ghost predicate Readable(files: seq<string>, notRootFS: bool, disk: Disk) {
    Keys(files, notRootFS) <= disk.Keys
  }

  /** Recorded file keys whose hash is out of date. */
  function Stale(keys: set<string>, hashes: Hashes, disk: Disk): set<string> {
    set k | k in keys && k in hashes && k in disk && disk[k] != hashes[k]
  }

  ghost predicate UpToDate(keys: set<string>, hashes: Hashes, disk: Disk) {
    forall k :: k in keys ==> k in hashes && k in disk && disk[k] == hashes[k]
  }

  lemma KeysStep(files: seq<string>, notRootFS: bool)
    requires files != []
    ensures Keys(files, notRootFS) == {Key(files[0], notRootFS)} + Keys(files[1..], notRootFS)
  {
    assert files == [files[0]] + files[1..];
  }

  /** A scan leaves the keys of other files alone, and never makes a key stale. */
  lemma {:induction false} ScanEffect(files: seq<string>, notRootFS: bool, all: set<string>, hashes: Hashes, disk: Disk)
    requires Readable(files, notRootFS, disk) && Keys(files, notRootFS) <= all
    ensures
      var s := Scan(files, notRootFS, hashes, disk);
      var keys := Keys(files, notRootFS);
      && !s.failed
      && (s.changed <==> Stale(keys, hashes, disk) != {})
      && (s.changed ==> exists k ::
            k in Stale(keys, hashes, disk) && Stale(all, s.hashes, disk) == Stale(all, hashes, disk) - {k})
      && (!s.changed ==> UpToDate(keys, s.hashes, disk) && Stale(all, s.hashes, disk) == Stale(all, hashes, disk))
      && (forall k :: k in hashes && k !in Stale(all, hashes, disk) ==> k in s.hashes && s.hashes[k] == hashes[k])
  {
    if files != [] {
      KeysStep(files, notRootFS);
      var key := Key(files[0], notRootFS);
      var rest := files[1..];
      assert key in Keys(files, notRootFS);
      var hash := disk[key];
      if key !in hashes {
        var hashes' := hashes[key := hash];
        ScanEffect(rest, notRootFS, all, hashes', disk);
        assert Stale(Keys(rest, notRootFS), hashes', disk) == Stale(Keys(files, notRootFS), hashes, disk);
        assert Stale(all, hashes', disk) == Stale(all, hashes, disk);
      } else if hashes[key] != hash {
        assert key in Stale(Keys(files, notRootFS), hashes, disk);
        assert Stale(all, hashes[key := hash], disk) == Stale(all, hashes, disk) - {key};
      } else {
        ScanEffect(rest, notRootFS, all, hashes, disk);
        assert Stale(Keys(rest, notRootFS), hashes, disk) == Stale(Keys(files, notRootFS), hashes, disk);
      }
    }
  }

  /** The file at `i` is where a scan ends: it is unreadable or stale, and no file before it is. */
  predicate EndsAt(files: seq<string>, notRootFS: bool, hashes: Hashes, disk: Disk, i: nat) {
    && i < |files| && Settled(files, notRootFS, hashes, disk, i)
    && var key := Key(files[i], notRootFS);
       key !in disk || (key in hashes && hashes[key] != disk[key])
  }

  /** The first `i` files are readable and not stale. */
  predicate Settled(files: seq<string>, notRootFS: bool, hashes: Hashes, disk: Disk, i: nat) {
    i <= |files| && forall j :: 0 <= j < i ==>
      var key := Key(files[j], notRootFS);
      key in disk && (key !in hashes || hashes[key] == disk[key])
  }

  lemma SettledRest(files: seq<string>, notRootFS: bool, hashes: Hashes, disk: Disk, i: nat)
    requires 0 < i <= |files| && Settled(files, notRootFS, hashes, disk, i)
    ensures
      var recorded := hashes[Key(files[0], notRootFS) := disk[Key(files[0], notRootFS)]];
      && Settled(files[1..], notRootFS, recorded, disk, i - 1)
      && (EndsAt(files, notRootFS, hashes, disk, i) ==> EndsAt(files[1..], notRootFS, recorded, disk, i - 1))
  {
    forall j | 0 <= j < i - 1
      ensures
        var key := Key(files[1..][j], notRootFS);
        key in disk && (key !in hashes || hashes[key] == disk[key])
    {
      assert files[1..][j] == files[j + 1];
    }
  }

  /**
    A scan goes up to the first unreadable or stale file: it fails on the one and reports a change on
    the other, having recorded the files before it, and the changed one, and no other.
   */
  lemma {:induction false} ScanEnds(files: seq<string>, notRootFS: bool, hashes: Hashes, disk: Disk, i: nat, k: string)
    requires Settled(files, notRootFS, hashes, disk, i)
    requires i == |files| || EndsAt(files, notRootFS, hashes, disk, i)
    ensures
      var s := Scan(files, notRootFS, hashes, disk);
      && (s.failed <==> i < |files| && Key(files[i], notRootFS) !in disk)
      && (s.changed <==> i < |files| && Key(files[i], notRootFS) in disk)
      && if k in Keys(files[..if s.changed then i + 1 else i], notRootFS)
         then k in disk && k in s.hashes && s.hashes[k] == disk[k]
         else (k in s.hashes <==> k in hashes) && (k in hashes ==> s.hashes[k] == hashes[k])
    decreases |files|
  {
    var s := Scan(files, notRootFS, hashes, disk);
    if i == 0 {
      assert files != [] ==> files[..1] == [files[0]];
    } else {
      var key, rest := Key(files[0], notRootFS), files[1..];
      var recorded := hashes[key := disk[key]];
      assert key in hashes ==> recorded == hashes;
      SettledRest(files, notRootFS, hashes, disk, i);
      ScanEnds(rest, notRootFS, recorded, disk, i - 1, k);
      var m := if s.changed then i + 1 else i;
      KeysStep(files[..m], notRootFS);
      assert files[..m][1..] == rest[..m - 1];
    }
  }

  /** A watched root is already mounted: a leading slash makes no difference to a longer name. */
  lemma LeadingSlash(file: string)
    requires |file| > 1 && file[0] != '/'
    ensures Key("/" + file, false) == file && Key(file, false) == file && Key("/" + file, true) == "/" + file
  {}

  /** What one more tick of an unchanging disk does to the number of stale files. */
  lemma TickEffect(files: seq<string>, notRootFS: bool, hashes: Hashes, disk: Disk)
    requires Readable(files, notRootFS, disk)
    ensures
      var s := Scan(files, notRootFS, hashes, disk);
      var keys := Keys(files, notRootFS);
      var stale := |Stale(keys, hashes, disk)|;
      && !s.failed && (s.changed <==> stale > 0)
      && |Stale(keys, s.hashes, disk)| == (if stale > 0 then stale - 1 else 0)
      && (stale == 0 ==> UpToDate(keys, s.hashes, disk))
  {
    var keys := Keys(files, notRootFS);
    ScanEffect(files, notRootFS, keys, hashes, disk);
    var s := Scan(files, notRootFS, hashes, disk);
    if s.changed {
      var k :| k in Stale(keys, hashes, disk) && Stale(keys, s.hashes, disk) == Stale(keys, hashes, disk) - {k};
    }
  }

  /**
    Once the files stay as they are, from tick `from` on, there is one callback per tick for as many
    ticks as there are recorded but stale files, and none after that; then every recorded hash is right.
   */
  lemma {:induction false} WatchConverges(files: seq<string>, notRootFS: bool, disks: nat -> Disk,
                                          from: nat, disk: Disk, n: nat)
    requires Readable(files, notRootFS, disk) && forall t: nat :: t >= from ==> disks(t) == disk
    ensures
      var keys := Keys(files, notRootFS);
      var stale := |Stale(keys, Ticks(files, notRootFS, disks, from), disk)|;
      var now := Ticks(files, notRootFS, disks, from + n);
      && (Calls(files, notRootFS, disks, from + n) <==> n < stale)
      && !Scan(files, notRootFS, now, disk).failed
      && |Stale(keys, now, disk)| == (if n < stale then stale - n else 0)
      && (n > stale ==> UpToDate(keys, now, disk))
  {
    if n > 0 {
      WatchConverges(files, notRootFS, disks, from, disk, n - 1);
      TickEffect(files, notRootFS, Ticks(files, notRootFS, disks, from + n - 1), disk);
    }
    TickEffect(files, notRootFS, Ticks(files, notRootFS, disks, from + n), disk);
  }
}
