/**
  Label isolation (`pkg/store/backends/labels/util.go`, `labels.go`): several labellers share one
  store, each stamps what it writes with its immutable labels and lists only what carries them.
 */
module Labels {
  import opened Maybe
  import opened Options
  import opened Listings
  import opened Memory

  type LabelSet = map<string, string>

  /** A parsed selector: every requirement looks at the value of one label, or at its absence. */
  datatype Requirement = Requirement(key: string, test: Option<string> -> bool)

  type Selector = seq<Requirement>

  function Lookup(labels: LabelSet, key: string): Option<string> {
    if key in labels then Some(labels[key]) else None
  }

  predicate Satisfies(selector: Selector, labels: LabelSet) {
    forall i :: 0 <= i < |selector| ==> selector[i].test(Lookup(labels, selector[i].key))
  }

  ghost predicate Carries(labels: LabelSet, immutable: LabelSet) {
    forall k :: k in immutable ==> Lookup(labels, k) == Some(immutable[k])
  }

  predicate IsLabels(l: Leaf) {
    l.MapOption? && l.key == "labels"
  }

  predicate IsSelector(l: Leaf) {
    l.StringOption? && l.key == "labelSelector"
  }

  function Entries(o: Option<Leaf>): LabelSet {
    if o.Some? && o.value.MapOption? then o.value.entries else map[]
  }

  // ---- building labels and selectors ----------------------------------------------------

  /** The parsed extra selector, joined to the immutable labels unless it speaks of one of their keys. */
  method GenerateLabelSelector(immutable: LabelSet, additional: Option<Selector>) returns (selector: Option<Selector>)
    ensures selector.Some? <==>
      additional.Some? && forall i :: 0 <= i < |additional.value| ==> additional.value[i].key !in immutable
    ensures selector.Some? ==> forall labels ::
      Satisfies(selector.value, labels) <==> Carries(labels, immutable) && Satisfies(additional.value, labels)
  {
    if additional.None? {
      return None;
    }
    if |immutable| == 0 {
      return additional;
    }
    var base := RequireAll(immutable);
    for i := 0 to |additional.value|
      invariant forall j :: 0 <= j < i ==> additional.value[j].key !in immutable
    {
      for b := 0 to |base|
        invariant forall c :: 0 <= c < b ==> base[c].key != additional.value[i].key
      {
        if base[b].key == additional.value[i].key {
          assert Names(base, additional.value[i].key);
          return None;
        }
      }
      assert !Names(base, additional.value[i].key);
    }
    selector := Some(base + additional.value);
    forall labels ensures
      Satisfies(selector.value, labels) <==> Satisfies(base, labels) && Satisfies(additional.value, labels)
    {
      JoinedMatches(base, additional.value, labels);
    }
  }

  lemma JoinedMatches(a: Selector, b: Selector, labels: LabelSet)
    ensures Satisfies(a + b, labels) <==> Satisfies(a, labels) && Satisfies(b, labels)
  {
    if Satisfies(a + b, labels) {
      forall i | 0 <= i < |a| ensures a[i].test(Lookup(labels, a[i].key)) {
        assert a[i] == (a + b)[i];
      }
      forall i | 0 <= i < |b| ensures b[i].test(Lookup(labels, b[i].key)) {
        assert b[i] == (a + b)[|a| + i];
      }
    }
  }

  predicate Names(selector: Selector, key: string) {
    exists i :: 0 <= i < |selector| && selector[i].key == key
  }

  /** One equality requirement for each immutable label. */
  method RequireAll(immutable: LabelSet) returns (base: Selector)
    ensures forall k :: Names(base, k) <==> k in immutable
    ensures forall labels :: Satisfies(base, labels) <==> Carries(labels, immutable)
  {
    base := [];
    var todo := immutable.Keys;
    while todo != {}
      invariant todo <= immutable.Keys
      invariant forall k :: Names(base, k) <==> k in immutable.Keys - todo
      invariant forall i :: 0 <= i < |base| ==> base[i].key in immutable
      invariant forall i, v :: 0 <= i < |base| ==> (base[i].test(v) <==> v == Some(immutable[base[i].key]))
      decreases |todo|
    {
      var k :| k in todo;
      todo := todo - {k};
      var value := immutable[k];
      ghost var before := base;
      base := base + [Requirement(k, v => v == Some(value))];
      NamesNext(before, base[|before|]);
    }
    forall labels ensures Satisfies(base, labels) <==> Carries(labels, immutable) {
      EqualitiesCarry(base, immutable, labels);
    }
  }

  lemma NamesNext(selector: Selector, r: Requirement)
    ensures forall k :: Names(selector + [r], k) <==> Names(selector, k) || k == r.key
  {
    var longer := selector + [r];
    assert longer[|selector|] == r;
    forall k | Names(selector, k) ensures Names(longer, k) {
      var i :| 0 <= i < |selector| && selector[i].key == k;
      assert longer[i].key == k;
    }
  }

  lemma EqualitiesCarry(base: Selector, immutable: LabelSet, labels: LabelSet)
    requires forall k :: Names(base, k) <==> k in immutable
    requires forall i :: 0 <= i < |base| ==> base[i].key in immutable
    requires forall i, v :: 0 <= i < |base| ==> (base[i].test(v) <==> v == Some(immutable[base[i].key]))
    ensures Satisfies(base, labels) <==> Carries(labels, immutable)
  {
    if Satisfies(base, labels) {
      forall k | k in immutable ensures Lookup(labels, k) == Some(immutable[k]) {
        assert Names(base, k);
        var i :| 0 <= i < |base| && base[i].key == k;
      }
    }
  }

  /** How one labeller is set up; the enricher, when there is one, may fail on an object. */
  datatype Config<!V> = Config(immutable: LabelSet, enricher: Option<V -> Option<LabelSet>>)

  function Enriched<V>(cfg: Config<V>, obj: V): Option<LabelSet> {
    if cfg.enricher.None? then Some(map[]) else cfg.enricher.value(obj)
  }

  /** The labels of an object, or nothing when the enricher fails or an immutable label would be set again. */
  function Stamp<V>(cfg: Config<V>, obj: V, opts: seq<Leaf>): Option<LabelSet> {
    var custom, own := Entries(First(opts, IsLabels)), Enriched(cfg, obj);
    if own.None? || cfg.immutable.Keys * (custom.Keys + own.value.Keys) != {} then None
    else Some(own.value + custom + cfg.immutable)
  }

  /** Immutable labels are always there; of the other two kinds the custom ones win. */
  lemma StampPrecedence<V>(cfg: Config<V>, obj: V, opts: seq<Leaf>, k: string)
    requires Stamp(cfg, obj, opts).Some?
    ensures
      var labels, custom := Stamp(cfg, obj, opts).value, Entries(First(opts, IsLabels));
      && Carries(labels, cfg.immutable)
      && (k in custom ==> k !in cfg.immutable && Lookup(labels, k) == Some(custom[k]))
      && (k !in custom && k !in cfg.immutable ==> Lookup(labels, k) == Lookup(Enriched(cfg, obj).value, k))
  {
    var custom, own := Entries(First(opts, IsLabels)), Enriched(cfg, obj).value;
    assert k in cfg.immutable.Keys * (custom.Keys + own.Keys) <==> k in cfg.immutable && (k in custom || k in own);
  }

  method BuildLabels<V>(cfg: Config<V>, obj: V, opts: array<Leaf>, n: nat) returns (n': nat, labels: Option<LabelSet>)
    requires n <= opts.Length
    modifies opts
    ensures labels == Stamp(cfg, obj, old(opts[..n]))
    ensures n' <= n && opts[..n'] == Without(old(opts[..n]), IsLabels)
  {
    var found;
    n', found := MatchFlat(opts, n, IsLabels);
    var custom := Entries(found);
    var own: LabelSet := map[];
    if cfg.enricher.Some? {
      var enriched := cfg.enricher.value(obj);
      if enriched.None? {
        return n', None;
      }
      own := enriched.value;
    }
    var clash := SetsImmutable(cfg.immutable, custom, own);
    return n', if clash then None else Some(own + custom + cfg.immutable);
  }

  method SetsImmutable(immutable: LabelSet, custom: LabelSet, own: LabelSet) returns (clash: bool)
    ensures clash <==> immutable.Keys * (custom.Keys + own.Keys) != {}
  {
    var todo := immutable.Keys;
    while todo != {}
      invariant todo <= immutable.Keys
      invariant (immutable.Keys - todo) * (custom.Keys + own.Keys) == {}
      decreases |todo|
    {
      var k :| k in todo;
      if k in custom || k in own {
        assert k in immutable.Keys * (custom.Keys + own.Keys);
        return true;
      }
      todo := todo - {k};
    }
    assert immutable.Keys - {} == immutable.Keys;
    return false;
  }

  /**
    The labels a server adds to a request. Custom labels are meant to be refused when they set an
    immutable key; the code looks their values up instead, and an override is silently undone.
   */
  method EnrichLabels(immutable: LabelSet, custom: LabelSet) returns (labels: Option<LabelSet>)
    ensures labels.None? <==> exists k :: k in custom && custom[k] in immutable
    ensures labels.Some? ==> Carries(labels.value, immutable)
    ensures labels.Some? ==> forall k :: k !in immutable ==> Lookup(labels.value, k) == Lookup(custom, k)
  {
    var todo := custom.Keys;
    while todo != {}
      invariant todo <= custom.Keys
      invariant forall k :: k in custom && k !in todo ==> custom[k] !in immutable
      decreases |todo|
    {
      var k :| k in todo;
      if custom[k] in immutable {
        return None;
      }
      todo := todo - {k};
    }
    return Some(custom + immutable);
  }

  // ---- the labelled store on values -----------------------------------------------------

  datatype Labeled<V> = Labeled(name: string, labels: LabelSet, data: V)

  /** The store holds pointers; a keys-only listing returns nil ones. */
  type Stored<V> = map<string, Option<Labeled<V>>>

  datatype LabelError = LabelsRejected | StoreFailed(error: Error)

  function Lift<V>(w: Write<V>, key: string, labels: LabelSet): (lifted: Write<Option<Labeled<V>>>)
    requires !w.Deleting?
  {
    var item := Some(Labeled(key, labels, w.value));
    if w.Creating? then Creating(item) else if w.Updating? then Updating(item) else Applying(item)
  }

  function Inner<V>(cfg: Config<V>, w: Write<V>, key: string, opts: seq<Leaf>)
    : Option<(Write<Option<Labeled<V>>>, seq<Leaf>)>
  {
    if w.Deleting? then Some((Deleting, opts))
    else
      var labels := Stamp(cfg, w.value, opts);
      if labels.None? then None else Some((Lift(w, key, labels.value), Without(opts, IsLabels)))
  }

  function PutError<V>(cfg: Config<V>, m: Stored<V>, w: Write<V>, key: string, opts: seq<Leaf>): Option<LabelError> {
    match Inner(cfg, w, key, opts)
    case None => Some(LabelsRejected)
    case Some((inner, left)) =>
      var err := WriteError(m, inner, key, left);
      if err.Some? then Some(StoreFailed(err.value)) else None
  }

  function PutMap<V>(cfg: Config<V>, m: Stored<V>, w: Write<V>, key: string, opts: seq<Leaf>): Stored<V> {
    match Inner(cfg, w, key, opts)
    case None => m
    case Some((inner, left)) => WriteMap(m, inner, key, left)
  }

  datatype Listing<V> = Items(items: seq<ListItem<V>>) | SelectorRejected | NilDereference

  /** A read dereferences the pointer it finds. */
  datatype Reading<V> = Data(data: V) | Unread(error: Error) | NilRead

  /** The data of the entries whose labels a selector accepts. */
  ghost function Selected<V>(m: Stored<V>, selector: Selector): map<string, V> {
    map k | k in m && m[k].Some? && Satisfies(selector, m[k].value.labels) :: m[k].value.data
  }

  /** The entries a labeller lists: visible, stamped with its immutable labels, and matching the extra selector. */
  ghost function Own<V>(cfg: Config<V>, m: Stored<V>, additional: Selector, opts: seq<Leaf>): map<string, V> {
    var prefix := Text(First(opts, IsPrefix));
    map k | k in m && prefix <= k && m[k].Some? && Carries(m[k].value.labels, cfg.immutable)
            && Satisfies(additional, m[k].value.labels) :: m[k].value.data
  }

  /** Some entry a listing shows is a nil pointer: stored like that, or blanked because only keys were asked for. */
  ghost predicate ShowsNil<V>(m: Stored<V>, opts: seq<Leaf>) {
    var visible := Visible(m, None, opts);
    exists k :: k in visible && visible[k].None?
  }

  predicate KeysOnly(opts: seq<Leaf>) {
    Flag(First(Without(opts, IsPrefix), IsKeysOnly))
  }

  /** A keys-only listing has nothing to read labels from; any other shows nil only where it is stored. */
  lemma ShowsNilWhen<V>(m: Stored<V>, opts: seq<Leaf>)
    ensures KeysOnly(opts) ==> (ShowsNil(m, opts) <==> Visible(m, None, opts) != map[])
    ensures !KeysOnly(opts) && (forall k :: k in m ==> m[k].Some?) ==> !ShowsNil(m, opts)
  {
    var visible := Visible(m, None, opts);
    if KeysOnly(opts) && visible != map[] {
      var k :| k in visible;
      assert visible[k].None?;
    }
  }

  /**
    What List may return. An error of the wrapped store is dropped, which leaves an empty listing, and
    a nil entry is dereferenced.
   */
  ghost predicate Lawful<V>(cfg: Config<V>, m: Stored<V>, additional: Option<Selector>, opts: seq<Leaf>,
                            listing: Listing<V>) {
    if additional.None? || exists i :: 0 <= i < |additional.value| && additional.value[i].key in cfg.immutable then
      listing == SelectorRejected
    else if !ListSupports(opts) then listing == Items([])
    else if ShowsNil(m, opts) then listing == NilDereference
    else listing.Items? && Lists(listing.items, Own(cfg, m, additional.value, opts))
  }

  /** The part of a listed map that its first `n` entries cover. */
  ghost function Upto<W>(items: seq<ListItem<W>>, m: map<string, W>, n: nat): map<string, W>
    requires n <= |items|
  {
    map k | k in m && HasKey(items[..n], k) :: m[k]
  }

  lemma UptoNext<W>(items: seq<ListItem<W>>, m: map<string, W>, n: nat)
    requires Lists(items, m) && n < |items|
    ensures Upto(items, m, n + 1) == Upto(items, m, n)[items[n].key := items[n].value]
    ensures forall k :: k in Upto(items, m, n) ==> Less(k, items[n].key)
  {
    forall k ensures HasKey(items[..n + 1], k) <==> HasKey(items[..n], k) || k == items[n].key {
      if HasKey(items[..n], k) {
        var i :| 0 <= i < n && items[..n][i].key == k;
        assert items[..n + 1][i].key == k;
      }
      assert items[..n + 1][n] == items[n];
    }
    forall k | k in Upto(items, m, n) ensures Less(k, items[n].key) {
      var i :| 0 <= i < n && items[..n][i].key == k;
    }
  }

  lemma UptoAll<W>(items: seq<ListItem<W>>, m: map<string, W>)
    requires Lists(items, m)
    ensures Upto(items, m, 0) == map[] && Upto(items, m, |items|) == m
  {
    assert items[..|items|] == items;
  }

  /** An entry above all others goes at the end of a listing. */
  lemma AppendLists<W>(items: seq<ListItem<W>>, m: map<string, W>, item: ListItem<W>)
    requires Lists(items, m) && forall k :: k in m ==> Less(k, item.key)
    ensures Lists(items + [item], m[item.key := item.value])
  {
    var longer := items + [item];
    LessTotal(item.key, item.key);
    forall k | k in m ensures HasKey(longer, k) {
      assert HasKey(items, k);
      var i :| 0 <= i < |items| && items[i].key == k;
      assert longer[i].key == k;
    }
    assert longer[|items|].key == item.key;
  }

  /** One more listed entry changes the selection by at most that entry. */
  lemma SelectNext<V>(items: seq<ListItem<V>>, m: Stored<V>, key: string, labeled: Labeled<V>, selector: Selector)
    requires Lists(items, Selected(m, selector)) && forall k :: k in m ==> Less(k, key)
    ensures
      var longer := if Satisfies(selector, labeled.labels) then items + [ListItem(key, labeled.data)] else items;
      Lists(longer, Selected(m[key := Some(labeled)], selector))
  {
    LessTotal(key, key);
    assert key !in m;
    var more := Selected(m[key := Some(labeled)], selector);
    if Satisfies(selector, labeled.labels) {
      AppendLists(items, Selected(m, selector), ListItem(key, labeled.data));
      assert more == Selected(m, selector)[key := labeled.data];
    } else {
      assert more == Selected(m, selector);
    }
  }

  lemma SelectedAreOwn<V>(cfg: Config<V>, m: Stored<V>, selector: Selector, additional: Selector, opts: seq<Leaf>)
    requires forall labels ::
      Satisfies(selector, labels) <==> Carries(labels, cfg.immutable) && Satisfies(additional, labels)
    requires !ShowsNil(m, opts)
    ensures Selected(Visible(m, None, opts), selector) == Own(cfg, m, additional, opts)
  {
    var visible := Visible(m, None, opts);
    forall k | k in visible ensures visible[k] == m[k] && m[k].Some? {}
    forall k | k in m && Text(First(opts, IsPrefix)) <= k ensures k in visible {}
  }

  // ---- runs of several labellers over one store -----------------------------------------

  datatype Act<V> = Act(who: nat, write: Write<V>, key: string, opts: seq<Leaf>)

  predicate Known<V>(cfgs: seq<Config<V>>, acts: seq<Act<V>>) {
    forall i :: 0 <= i < |acts| ==> acts[i].who < |cfgs|
  }

  /** The shared store, empty at first, after a run. */
  function After<V>(cfgs: seq<Config<V>>, acts: seq<Act<V>>): Stored<V>
    requires Known(cfgs, acts)
  {
    if acts == [] then map[]
    else
      var a := acts[|acts| - 1];
      PutMap(cfgs[a.who], After(cfgs, acts[..|acts| - 1]), a.write, a.key, a.opts)
  }

  /** The write succeeds and is not a dry run. */
  predicate TakesEffect<V>(cfg: Config<V>, m: Stored<V>, a: Act<V>) {
    PutError(cfg, m, a.write, a.key, a.opts).None? && !DryRun(a.opts)
  }

  /** The latest write of a key that took effect. */
  function LastWrite<V>(cfgs: seq<Config<V>>, acts: seq<Act<V>>, key: string): Option<Act<V>>
    requires Known(cfgs, acts)
  {
    if acts == [] then None
    else
      var before, a := acts[..|acts| - 1], acts[|acts| - 1];
      if a.key == key && TakesEffect(cfgs[a.who], After(cfgs, before), a) then Some(a) else LastWrite(cfgs, before, key)
  }

  /** What the last write of a key leaves there. */
  function Left<V>(cfgs: seq<Config<V>>, last: Option<Act<V>>, key: string): Option<Labeled<V>> {
    match last
    case Some(Act(who, write, _, opts)) =>
      if write.Deleting? || who >= |cfgs| then None
      else
        var labels := Stamp(cfgs[who], write.value, opts);
        if labels.None? then None else Some(Labeled(key, labels.value, write.value))
    case None => None
  }

  lemma {:induction false} FirstOfOthers(ls: seq<Leaf>, p: Leaf -> bool, q: Leaf -> bool)
    requires forall l :: !(p(l) && q(l))
    ensures First(Without(ls, p), q) == First(ls, q)
  {
    if ls != [] {
      FirstOfOthers(ls[1..], p, q);
      if !Hit(p, ls[0]) {
        assert Without(ls, p)[1..] == Without(ls[1..], p);
      }
    }
  }

  lemma PutMapKey<V>(cfg: Config<V>, m: Stored<V>, a: Act<V>, key: string)
    ensures
      var m' := PutMap(cfg, m, a.write, a.key, a.opts);
      if a.key == key && TakesEffect(cfg, m, a) then
        if a.write.Deleting? then key !in m'
        else
          && Stamp(cfg, a.write.value, a.opts).Some? && key in m'
          && m'[key] == Some(Labeled(key, Stamp(cfg, a.write.value, a.opts).value, a.write.value))
      else (key in m' <==> key in m) && (key in m ==> m'[key] == m[key])
  {
    FirstOfOthers(a.opts, IsLabels, IsDryRun);
  }

  /** After any run, each key holds exactly what its last effective write put there. */
  lemma {:induction false} StoreHoldsLastWrites<V>(cfgs: seq<Config<V>>, acts: seq<Act<V>>, key: string)
    requires Known(cfgs, acts)
    ensures
      var left := Left(cfgs, LastWrite(cfgs, acts, key), key);
      (key in After(cfgs, acts) <==> left.Some?) && (left.Some? ==> After(cfgs, acts)[key] == left)
    ensures
      var last := LastWrite(cfgs, acts, key);
      && (last.Some? ==> last.value.who < |cfgs|)
      && (last.Some? && !last.value.write.Deleting? <==> Left(cfgs, last, key).Some?)
  {
    if acts != [] {
      var before, a := acts[..|acts| - 1], acts[|acts| - 1];
      StoreHoldsLastWrites(cfgs, before, key);
      PutMapKey(cfgs[a.who], After(cfgs, before), a, key);
    }
  }

  /** Two labellers give some label different immutable values. */
  predicate Disagree(a: LabelSet, b: LabelSet) {
    exists k :: k in a && k in b && a[k] != b[k]
  }

  lemma DisagreeExcludes(labels: LabelSet, a: LabelSet, b: LabelSet)
    requires Disagree(a, b)
    ensures !(Carries(labels, a) && Carries(labels, b))
  {
    var k :| k in a && k in b && a[k] != b[k];
    assert Lookup(labels, k) != Some(a[k]) || Lookup(labels, k) != Some(b[k]);
  }

  /**
    After any run, a labeller that disagrees with all others lists exactly the visible keys whose last
    effective write was its own, not a deletion, and matches the extra selector, with the data written.
   */
  lemma LabelIsolation<V>(cfgs: seq<Config<V>>, acts: seq<Act<V>>, who: nat,
                          additional: Selector, opts: seq<Leaf>, key: string)
    requires Known(cfgs, acts) && who < |cfgs|
    requires forall j :: 0 <= j < |cfgs| && j != who ==> Disagree(cfgs[who].immutable, cfgs[j].immutable)
    ensures
      var own := Own(cfgs[who], After(cfgs, acts), additional, opts);
      var last := LastWrite(cfgs, acts, key);
      var left := Left(cfgs, last, key);
      && (last.Some? && !last.value.write.Deleting? <==> left.Some?)
      && (key in own <==>
            && left.Some? && last.value.who == who
            && Text(First(opts, IsPrefix)) <= key && Satisfies(additional, left.value.labels))
      && (key in own ==> own[key] == last.value.write.value)
  {
    StoreHoldsLastWrites(cfgs, acts, key);
    var last := LastWrite(cfgs, acts, key);
    if Left(cfgs, last, key).Some? {
      var a, labels := last.value, Left(cfgs, last, key).value.labels;
      StampPrecedence(cfgs[a.who], a.write.value, a.opts, "");
      assert Carries(labels, cfgs[a.who].immutable);
      if a.who != who {
        DisagreeExcludes(labels, cfgs[who].immutable, cfgs[a.who].immutable);
      }
    }
  }

  /** The labels another labeller needs to be mistaken for this one. */
  function Missing(mine: LabelSet, other: LabelSet): LabelSet {
    map k | k in mine && k !in other :: mine[k]
  }

  lemma StampedForBoth<V>(mine: LabelSet, other: Config<V>, value: V)
    requires !Disagree(mine, other.immutable) && Stamp(other, value, []).Some?
    ensures
      var stamp := Stamp(other, value, [MapOption("labels", Missing(mine, other.immutable))]);
      stamp.Some? && Carries(stamp.value, mine)
  {
    var custom, own := Missing(mine, other.immutable), Enriched(other, value).value;
    assert First([MapOption("labels", custom)], IsLabels) == Some(MapOption("labels", custom));
    assert other.immutable.Keys * (custom.Keys + own.Keys) == other.immutable.Keys * own.Keys;
    var none: LabelSet := map[];
    assert none.Keys + own.Keys == own.Keys;
  }

  /** Without a disagreement isolation fails: custom labels can supply whatever the other labeller looks for. */
  lemma AgreementLeaks<V>(mine: Config<V>, other: Config<V>, value: V, key: string)
    requires !Disagree(mine.immutable, other.immutable)
    requires Stamp(other, value, []).Some?
    ensures exists custom ::
      Own(mine, PutMap(other, map[], Applying(value), key, [MapOption("labels", custom)]), [], []) == map[key := value]
  {
    var custom := Missing(mine.immutable, other.immutable);
    var opts := [MapOption("labels", custom)];
    StampedForBoth(mine.immutable, other, value);
    assert Without(opts, IsLabels) == [];
    var item := Some(Labeled(key, Stamp(other, value, opts).value, value));
    assert PutMap(other, map[], Applying(value), key, opts) == map[key := item];
    assert Own(mine, map[key := item], [], []) == map[key := value];
  }

  // ---- what one labelled write does -----------------------------------------------------

  /** Each label comes from the immutable ones, then from the custom ones, then from the enricher. */
  ghost predicate Layered(labels: LabelSet, immutable: LabelSet, custom: LabelSet, own: LabelSet) {
    forall k :: Lookup(labels, k) ==
      if k in immutable then Some(immutable[k]) else if k in custom then Some(custom[k]) else Lookup(own, k)
  }

  /**
    A write through a labeller: refused exactly when the enricher fails or some label would set an
    immutable key, else answered as the plain store answers without the labels option, storing the data
    with its layered labels. `keyErr` is what the plain store says about the key, `supported` whether it
    takes the remaining options.
   */
  ghost predicate LabelledPut<V>(cfg: Config<V>, m: Stored<V>, m': Stored<V>, key: string, value: V, opts: seq<Leaf>,
                                 keyErr: Option<Error>, supported: bool, err: Option<LabelError>) {
    var custom := Entries(First(opts, IsLabels));
    var own := if cfg.enricher.None? then Some(map[]) else cfg.enricher.value(value);
    var dryRun := DryRun(Without(opts, IsLabels));
    if own.None? || exists k :: k in cfg.immutable && (k in custom || k in own.value) then
      err == Some(LabelsRejected) && m' == m
    else
      && (dryRun || supported ==> err == if keyErr.Some? then Some(StoreFailed(keyErr.value)) else None)
      && (!dryRun && !supported ==> err == Some(StoreFailed(Unsupported)))
      && (err.Some? || dryRun ==> m' == m)
      && (err.None? && !dryRun ==>
            && key in m' && m'[key].Some? && m' == m[key := m'[key]]
            && m'[key].value.name == key && m'[key].value.data == value
            && Layered(m'[key].value.labels, cfg.immutable, custom, own.value))
  }

  /** What the labels option of a request carries: that of the first one. */
  lemma LabelsMean(opts: seq<Leaf>, i: nat)
    requires i <= |opts| && forall j :: 0 <= j < i ==> !(opts[j].MapOption? && opts[j].key == "labels")
    ensures i == |opts| ==> Entries(First(opts, IsLabels)) == map[]
    ensures i < |opts| && opts[i].MapOption? && opts[i].key == "labels" ==>
      Entries(First(opts, IsLabels)) == opts[i].entries
  {
    FirstHitAt(opts, IsLabels, i);
  }

  /** And its selector, that of the first selector option. */
  lemma SelectorMeans(opts: seq<Leaf>, i: nat)
    requires i <= |opts| && forall j :: 0 <= j < i ==> !(opts[j].StringOption? && opts[j].key == "labelSelector")
    ensures i == |opts| ==> Text(First(opts, IsSelector)) == ""
    ensures i < |opts| && opts[i].StringOption? && opts[i].key == "labelSelector" ==>
      Text(First(opts, IsSelector)) == opts[i].text
  {
    FirstHitAt(opts, IsSelector, i);
  }

  lemma StampLayers<V>(cfg: Config<V>, obj: V, opts: seq<Leaf>)
    ensures
      var custom, own := Entries(First(opts, IsLabels)), Enriched(cfg, obj);
      var stamp := Stamp(cfg, obj, opts);
      && (stamp.None? <==> own.None? || exists k :: k in cfg.immutable && (k in custom || k in own.value))
      && (stamp.Some? ==> Layered(stamp.value, cfg.immutable, custom, own.value))
  {
    var custom, own := Entries(First(opts, IsLabels)), Enriched(cfg, obj);
    if own.Some? {
      var clash := cfg.immutable.Keys * (custom.Keys + own.value.Keys);
      assert forall k :: k in clash <==> k in cfg.immutable && (k in custom || k in own.value);
      assert clash != {} <==> exists k :: k in clash;
    }
  }

  // ---- the labeller ---------------------------------------------------------------------

  class Labeller<V(!new)> {
    const cfg: Config<V>
    const store: Memory<Option<Labeled<V>>>
    const parse: string -> Option<Selector>

    constructor (cfg: Config<V>, store: Memory<Option<Labeled<V>>>, parse: string -> Option<Selector>)
      ensures this.cfg == cfg && this.store == store && this.parse == parse
    {
      this.cfg, this.store, this.parse := cfg, store, parse;
    }

    method Create(key: string, value: V, opts: array<Leaf>, n: nat) returns (err: Option<LabelError>)
      requires n <= opts.Length
      modifies store, opts
      ensures err == PutError(cfg, old(store.store), Creating(value), key, old(opts[..n]))
      ensures store.store == PutMap(cfg, old(store.store), Creating(value), key, old(opts[..n]))
      ensures
        var keyErr := if key in old(store.store) then Some(Conflict) else None;
        var supported := NilOnly(Without(Without(old(opts[..n]), IsLabels), IsDryRun));
        LabelledPut(cfg, old(store.store), store.store, key, value, old(opts[..n]), keyErr, supported, err)
    {
      StampLayers(cfg, value, opts[..n]);
      var left, labels := BuildLabels(cfg, value, opts, n);
      if labels.None? {
        return Some(LabelsRejected);
      }
      var inner := store.Create(key, Some(Labeled(key, labels.value, value)), opts, left);
      err := if inner.Some? then Some(StoreFailed(inner.value)) else None;
    }

    method Update(key: string, value: V, opts: array<Leaf>, n: nat) returns (err: Option<LabelError>)
      requires n <= opts.Length
      modifies store, opts
      ensures err == PutError(cfg, old(store.store), Updating(value), key, old(opts[..n]))
      ensures store.store == PutMap(cfg, old(store.store), Updating(value), key, old(opts[..n]))
      ensures
        var keyErr := if key in old(store.store) then None else Some(NotFound);
        var supported := Without(Without(old(opts[..n]), IsLabels), IsDryRun) == [];
        LabelledPut(cfg, old(store.store), store.store, key, value, old(opts[..n]), keyErr, supported, err)
    {
      StampLayers(cfg, value, opts[..n]);
      var left, labels := BuildLabels(cfg, value, opts, n);
      if labels.None? {
        return Some(LabelsRejected);
      }
      var inner := store.Update(key, Some(Labeled(key, labels.value, value)), opts, left);
      err := if inner.Some? then Some(StoreFailed(inner.value)) else None;
    }

    method Apply(key: string, value: V, opts: array<Leaf>, n: nat) returns (err: Option<LabelError>)
      requires n <= opts.Length
      modifies store, opts
      ensures err == PutError(cfg, old(store.store), Applying(value), key, old(opts[..n]))
      ensures store.store == PutMap(cfg, old(store.store), Applying(value), key, old(opts[..n]))
      ensures
        var keyErr := None;
        var supported := NilOnly(Without(Without(old(opts[..n]), IsLabels), IsDryRun));
        LabelledPut(cfg, old(store.store), store.store, key, value, old(opts[..n]), keyErr, supported, err)
    {
      StampLayers(cfg, value, opts[..n]);
      var left, labels := BuildLabels(cfg, value, opts, n);
      if labels.None? {
        return Some(LabelsRejected);
      }
      var inner := store.Apply(key, Some(Labeled(key, labels.value, value)), opts, left);
      err := if inner.Some? then Some(StoreFailed(inner.value)) else None;
    }

    method Delete(key: string, opts: array<Leaf>, n: nat) returns (err: Option<LabelError>)
      requires n <= opts.Length
      modifies store, opts
      ensures err == PutError(cfg, old(store.store), Deleting, key, old(opts[..n]))
      ensures store.store == PutMap(cfg, old(store.store), Deleting, key, old(opts[..n]))
      ensures store.store == WriteMap(old(store.store), Deleting, key, old(opts[..n]))
      ensures
        var plain := WriteError(old(store.store), Deleting, key, old(opts[..n]));
        err == if plain.Some? then Some(StoreFailed(plain.value)) else None
    {
      var inner := store.Delete(key, opts, n);
      err := if inner.Some? then Some(StoreFailed(inner.value)) else None;
    }

    method Read(key: string, opts: array<Leaf>, n: nat) returns (found: Reading<V>)
      requires n <= opts.Length
      ensures
        var err := ReadError(store.store, key, opts[..n]);
        found == if err.Some? then Unread(err.value)
                 else if store.store[key].None? then NilRead else Data(store.store[key].value.data)
    {
      var enriched, err := store.Read(key, opts, n);
      if err.Some? {
        return Unread(err.value);
      }
      found := if enriched.value.None? then NilRead else Data(enriched.value.value.data);
    }

    /** Drops the wrapped store's error and filters what it listed. */
    method List(opts: array<Leaf>, n: nat) returns (listing: Listing<V>)
      requires n <= opts.Length && store.zero == None
      modifies opts
      ensures
        var asked, rest := Text(First(old(opts[..n]), IsSelector)), Without(old(opts[..n]), IsSelector);
        Lawful(cfg, store.store, parse(asked), rest, listing)
    {
      var left, found := MatchFlat(opts, n, IsSelector);
      var additional := parse(Text(found));
      var selector := GenerateLabelSelector(cfg.immutable, additional);
      if selector.None? {
        return SelectorRejected;
      }
      ghost var asked := opts[..left];
      var enriched, err := store.List(opts, left);
      if err.Some? {
        return Items([]);
      }
      ghost var visible := Visible(store.store, None, asked);
      var filtered := Filter(selector.value, enriched, visible);
      if filtered.None? {
        return NilDereference;
      }
      SelectedAreOwn(cfg, store.store, selector.value, additional.value, asked);
      return Items(filtered.value);
    }

    /** Keeps the matching entries; the first nil one ends the call. */
    method Filter(selector: Selector, enriched: seq<ListItem<Option<Labeled<V>>>>, ghost visible: Stored<V>)
      returns (filtered: Option<seq<ListItem<V>>>)
      requires Lists(enriched, visible)
      ensures filtered.Some? <==> forall k :: k in visible ==> visible[k].Some?
      ensures filtered.Some? ==> Lists(filtered.value, Selected(visible, selector))
    {
      var items: seq<ListItem<V>> := [];
      UptoAll(enriched, visible);
      for i := 0 to |enriched|
        invariant forall k :: k in Upto(enriched, visible, i) ==> visible[k].Some?
        invariant Lists(items, Selected(Upto(enriched, visible, i), selector))
      {
        UptoNext(enriched, visible, i);
        if enriched[i].value.None? {
          assert enriched[i].key in visible;
          return None;
        }
        SelectNext(items, Upto(enriched, visible, i), enriched[i].key, enriched[i].value.value, selector);
        var labeled := enriched[i].value.value;
        if Satisfies(selector, labeled.labels) {
          items := items + [ListItem(enriched[i].key, labeled.data)];
        }
      }
      return Some(items);
    }
  }
}
