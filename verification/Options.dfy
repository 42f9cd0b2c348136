/**
  Store options (`pkg/store/options.go`, `RemoveIndex` and `Clone` in `pkg/slices/slices.go`): a
  handler searches the option list for the options it understands and consumes them. First on
  arbitrarily nested lists as values, then on a flat slice that shares its backing array.
 */
module Options {
  import opened Maybe

  datatype Leaf =
    | NilOption
    | BoolOption(key: string, flag: bool)
    | StringOption(key: string, text: string)
    | MapOption(key: string, entries: map<string, string>)
    | SkipCache(skip: bool)
    | OtherOption(kind: nat)

  datatype Opt = Item(leaf: Leaf) | Nested(items: seq<Opt>)

  /** A type assertion, possibly with a predicate, never succeeds on nil. */
  predicate Hit(p: Leaf -> bool, leaf: Leaf) {
    !leaf.NilOption? && p(leaf)
  }

  /** What matching returns: the list left behind and the option found. */
  datatype Matched = Matched(rest: seq<Opt>, found: Option<Leaf>)

  /** The nested search consumes even when the outer one was asked not to: the configuration is not passed on. */
  function MatchOpts(opts: seq<Opt>, p: Leaf -> bool, skipConsume: bool): Matched
    decreases opts
  {
    if opts == [] then Matched([], None)
    else
      var tail := MatchOpts(opts[1..], p, skipConsume);
      var missed := Matched([opts[0]] + tail.rest, tail.found);
      match opts[0]
      case Item(leaf) =>
        if Hit(p, leaf) then Matched(if skipConsume then opts else opts[1..], Some(leaf)) else missed
      case Nested(items) =>
        var inner := MatchOpts(items, p, false);
        if inner.found.Some? then
          Matched((if inner.rest == [] && !skipConsume then [] else [Nested(inner.rest)]) + opts[1..], inner.found)
        else missed
  }

  function Matches(opt: Opt, p: Leaf -> bool): bool {
    match opt
    case Item(leaf) => Hit(p, leaf)
    case Nested(items) => MatchOpts(items, p, false).found.Some?
  }

  /** Options that do not match are stepped over one at a time. */
  lemma {:induction false} SkipMisses(opts: seq<Opt>, p: Leaf -> bool, skipConsume: bool, i: nat)
    requires i <= |opts| && forall j :: 0 <= j < i ==> !Matches(opts[j], p)
    ensures var m := MatchOpts(opts[i..], p, skipConsume);
      MatchOpts(opts, p, skipConsume) == Matched(opts[..i] + m.rest, m.found)
  {
    if i == 0 {
      assert opts[0..] == opts;
      assert opts[..0] + MatchOpts(opts, p, skipConsume).rest == MatchOpts(opts, p, skipConsume).rest;
    } else {
      SkipMisses(opts, p, skipConsume, i - 1);
      var from := opts[i - 1..];
      assert from[1..] == opts[i..] && from[0] == opts[i - 1];
      var m := MatchOpts(opts[i..], p, skipConsume);
      assert MatchOpts(from, p, skipConsume) == Matched([opts[i - 1]] + m.rest, m.found);
      assert opts[..i - 1] + ([opts[i - 1]] + m.rest) == opts[..i] + m.rest;
    }
  }

  function RemoveIndex<T>(s: seq<T>, i: nat): seq<T>
    requires i < |s|
  {
    s[..i] + s[i + 1..]
  }

  /** A first matching option at `i` decides, wherever it sits. */
  lemma MatchAt(opts: seq<Opt>, p: Leaf -> bool, skipConsume: bool, i: nat)
    requires i < |opts| && forall j :: 0 <= j < i ==> !Matches(opts[j], p)
    ensures
      match opts[i]
      case Item(leaf) => Hit(p, leaf) ==>
        MatchOpts(opts, p, skipConsume) == Matched(if skipConsume then opts else RemoveIndex(opts, i), Some(leaf))
      case Nested(items) =>
        var inner := MatchOpts(items, p, false);
        var left := if inner.rest == [] && !skipConsume then RemoveIndex(opts, i) else opts[i := Nested(inner.rest)];
        inner.found.Some? ==> MatchOpts(opts, p, skipConsume) == Matched(left, inner.found)
  {
    SkipMisses(opts, p, skipConsume, i);
    assert opts[i..][0] == opts[i] && opts[i..][1..] == opts[i + 1..];
    if opts[i].Nested? {
      var rest := MatchOpts(opts[i].items, p, false).rest;
      assert opts[..i] + ([Nested(rest)] + opts[i + 1..]) == opts[i := Nested(rest)];
      assert opts[..i] + ([] + opts[i + 1..]) == RemoveIndex(opts, i);
    } else {
      assert opts[..i] + opts[i..] == opts;
    }
  }

  lemma NoMatch(opts: seq<Opt>, p: Leaf -> bool, skipConsume: bool)
    requires forall j :: 0 <= j < |opts| ==> !Matches(opts[j], p)
    ensures MatchOpts(opts, p, skipConsume) == Matched(opts, None)
  {
    SkipMisses(opts, p, skipConsume, |opts|);
    assert opts[|opts|..] == [] && opts[..|opts|] + [] == opts;
  }

  method MatchOptionBy(opts: seq<Opt>, p: Leaf -> bool, skipConsume: bool)
    returns (rest: seq<Opt>, found: Option<Leaf>)
    ensures Matched(rest, found) == MatchOpts(opts, p, skipConsume)
    decreases opts
  {
    hide MatchOpts, RemoveIndex;
    rest := opts;
    for i := 0 to |opts|
      invariant rest == opts && forall j :: 0 <= j < i ==> !Matches(opts[j], p)
    {
      MatchAt(opts, p, skipConsume, i);
      match opts[i]
      case Item(leaf) =>
        if Hit(p, leaf) {
          if !skipConsume {
            rest := RemoveIndex(rest, i);
          }
          return rest, Some(leaf);
        }
      case Nested(items) =>
        var inner, nested := MatchOptionBy(items, p, false);
        if nested.Some? {
          if !skipConsume && |inner| == 0 {
            Replaced(rest, i, Nested(inner));
          }
          rest := rest[i := Nested(inner)];
          if !skipConsume && |inner| == 0 {
            rest := RemoveIndex(rest, i);
          }
          return rest, nested;
        }
    }
    NoMatch(opts, p, skipConsume);
    return rest, None;
  }

  lemma Replaced<T>(s: seq<T>, i: nat, x: T)
    requires i < |s|
    ensures RemoveIndex(s[i := x], i) == RemoveIndex(s, i)
  {}

  // ---- what matching means --------------------------------------------------------------

  /** The options of a nested list from left to right. */
  function Flatten(opts: seq<Opt>): seq<Leaf>
    decreases opts
  {
    if opts == [] then [] else Leaves(opts[0]) + Flatten(opts[1..])
  }

  function Leaves(opt: Opt): seq<Leaf>
    decreases opt
  {
    match opt case Item(leaf) => [leaf] case Nested(items) => Flatten(items)
  }

  function First(ls: seq<Leaf>, p: Leaf -> bool): Option<Leaf> {
    if ls == [] then None else if Hit(p, ls[0]) then Some(ls[0]) else First(ls[1..], p)
  }

  /** The list without its first hit. */
  function Without(ls: seq<Leaf>, p: Leaf -> bool): seq<Leaf> {
    if ls == [] then [] else if Hit(p, ls[0]) then ls[1..] else [ls[0]] + Without(ls[1..], p)
  }

  function EmptyLists(opts: seq<Opt>): nat
    decreases opts
  {
    if opts == [] then 0 else EmptyInside(opts[0]) + EmptyLists(opts[1..])
  }

  function EmptyInside(opt: Opt): nat
    decreases opt
  {
    match opt case Item(_) => 0 case Nested(items) => if items == [] then 1 else EmptyLists(items)
  }

  lemma {:induction false} FirstOfConcat(a: seq<Leaf>, b: seq<Leaf>, p: Leaf -> bool)
    ensures First(a + b, p) == if First(a, p).Some? then First(a, p) else First(b, p)
    ensures Without(a + b, p) == if First(a, p).Some? then Without(a, p) + b else a + Without(b, p)
  {
    if a == [] {
      assert a + b == b && a + Without(b, p) == Without(b, p);
    } else {
      assert (a + b)[0] == a[0] && (a + b)[1..] == a[1..] + b;
      if !Hit(p, a[0]) {
        FirstOfConcat(a[1..], b, p);
        Prepend(a[0], Without(a[1..], p), b);
        Prepend(a[0], a[1..], Without(b, p));
        assert a == [a[0]] + a[1..];
      }
    }
  }

  lemma {:induction false} MissKeeps(ls: seq<Leaf>, p: Leaf -> bool)
    requires First(ls, p).None?
    ensures Without(ls, p) == ls
  {
    if ls != [] {
      MissKeeps(ls[1..], p);
    }
  }

  lemma Prepend<T>(x: T, a: seq<T>, b: seq<T>)
    ensures [x] + (a + b) == [x] + a + b
  {}

  lemma Headed(head: Opt, tail: seq<Opt>)
    ensures Flatten([head] + tail) == Leaves(head) + Flatten(tail)
    ensures EmptyLists([head] + tail) == EmptyInside(head) + EmptyLists(tail)
  {
    assert ([head] + tail)[1..] == tail;
  }

  /** The claim of MatchConsumesFirst, as a predicate. */
  predicate ConsumesFirst(opts: seq<Opt>, p: Leaf -> bool) {
    var m := MatchOpts(opts, p, false);
    && m.found == First(Flatten(opts), p)
    && Flatten(m.rest) == Without(Flatten(opts), p)
    && EmptyLists(m.rest) == EmptyLists(opts)
    && (m.found.None? ==> m.rest == opts)
  }

  lemma ConsumedItem(leaf: Leaf, tail: seq<Opt>, p: Leaf -> bool)
    requires Hit(p, leaf)
    ensures ConsumesFirst([Item(leaf)] + tail, p)
  {
    Headed(Item(leaf), tail);
    assert ([Item(leaf)] + tail)[1..] == tail;
    assert ([leaf] + Flatten(tail))[1..] == Flatten(tail);
  }

  lemma ConsumedNested(items: seq<Opt>, tail: seq<Opt>, p: Leaf -> bool)
    requires Matches(Nested(items), p) && ConsumesFirst(items, p)
    ensures ConsumesFirst([Nested(items)] + tail, p)
  {
    var inner := MatchOpts(items, p, false).rest;
    Headed(Nested(items), tail);
    Headed(Nested(inner), tail);
    FirstOfConcat(Flatten(items), Flatten(tail), p);
    assert ([Nested(items)] + tail)[1..] == tail;
    assert inner == [] ==> Flatten(inner) + Flatten(tail) == Flatten(tail) && [] + tail == tail;
  }

  lemma ConsumedInTail(head: Opt, tail: seq<Opt>, p: Leaf -> bool)
    requires !Matches(head, p) && ConsumesFirst(tail, p) && (head.Nested? ==> ConsumesFirst(head.items, p))
    ensures ConsumesFirst([head] + tail, p)
  {
    Headed(head, tail);
    FirstOfConcat(Leaves(head), Flatten(tail), p);
    Headed(head, MatchOpts(tail, p, false).rest);
    assert ([head] + tail)[1..] == tail;
    if head.Item? {
      assert Leaves(head)[1..] == [];
    }
  }

  /**
    Matching finds the first hit in left-to-right order, removes exactly it, leaves no list newly
    empty, and changes nothing on a miss.
   */
  lemma {:induction false} MatchConsumesFirst(opts: seq<Opt>, p: Leaf -> bool)
    ensures MatchOpts(opts, p, false).found == First(Flatten(opts), p)
    ensures Flatten(MatchOpts(opts, p, false).rest) == Without(Flatten(opts), p)
    ensures EmptyLists(MatchOpts(opts, p, false).rest) == EmptyLists(opts)
    ensures MatchOpts(opts, p, false).found.None? ==> MatchOpts(opts, p, false).rest == opts
    decreases opts
  {
    if opts != [] {
      var head, tail := opts[0], opts[1..];
      assert opts == [head] + tail;
      if head.Nested? {
        MatchConsumesFirst(head.items, p);
      }
      if Matches(head, p) {
        match head
        case Item(leaf) => ConsumedItem(leaf, tail, p);
        case Nested(items) => ConsumedNested(items, tail, p);
      } else {
        MatchConsumesFirst(tail, p);
        ConsumedInTail(head, tail, p);
      }
      assert ConsumesFirst(opts, p);
    }
  }

  /** The first hit sits in the outer list, before any nested list that holds one. */
  predicate TopLevelFirst(opts: seq<Opt>, p: Leaf -> bool) {
    opts == []
    || (match opts[0]
        case Item(leaf) => Hit(p, leaf) || TopLevelFirst(opts[1..], p)
        case Nested(items) => First(Flatten(items), p).None? && TopLevelFirst(opts[1..], p))
  }

  /** SkipConsume promises to leave the list alone. It does so exactly when the first hit is not nested. */
  lemma {:induction false} SkipConsumeKeepsTopLevelOnly(opts: seq<Opt>, p: Leaf -> bool)
    ensures MatchOpts(opts, p, true).rest == opts <==> TopLevelFirst(opts, p)
    ensures MatchOpts(opts, p, true).found == First(Flatten(opts), p)
  {
    if opts != [] {
      var head, tail := opts[0], opts[1..];
      assert opts == [head] + tail;
      FirstOfConcat(Leaves(head), Flatten(tail), p);
      SkipConsumeKeepsTopLevelOnly(tail, p);
      match head
      case Item(leaf) =>
        assert Leaves(head)[1..] == [];
        assert ([head] + MatchOpts(tail, p, true).rest)[1..] == MatchOpts(tail, p, true).rest;
      case Nested(items) =>
        MatchConsumesFirst(items, p);
        var inner := MatchOpts(items, p, false);
        if inner.found.Some? {
          WithoutShorter(Flatten(items), p);
          assert ([Nested(inner.rest)] + tail)[0] == Nested(inner.rest);
        } else {
          assert ([head] + MatchOpts(tail, p, true).rest)[1..] == MatchOpts(tail, p, true).rest;
        }
    }
  }

  /** A nested first hit is consumed all the same, and only that. */
  lemma {:induction false} SkipConsumeTakesNested(opts: seq<Opt>, p: Leaf -> bool)
    ensures Flatten(MatchOpts(opts, p, true).rest)
      == if TopLevelFirst(opts, p) then Flatten(opts) else Without(Flatten(opts), p)
  {
    if opts != [] {
      var head, tail := opts[0], opts[1..];
      assert opts == [head] + tail;
      FirstOfConcat(Leaves(head), Flatten(tail), p);
      SkipConsumeTakesNested(tail, p);
      Headed(head, MatchOpts(tail, p, true).rest);
      match head
      case Item(leaf) =>
        assert Leaves(head)[1..] == [];
      case Nested(items) =>
        MatchConsumesFirst(items, p);
        Headed(Nested(MatchOpts(items, p, false).rest), tail);
    }
  }

  lemma {:induction false} WithoutShorter(ls: seq<Leaf>, p: Leaf -> bool)
    ensures |Without(ls, p)| == if First(ls, p).Some? then |ls| - 1 else |ls|
  {
    if ls != [] {
      WithoutShorter(ls[1..], p);
    }
  }

  // ---- leftovers ------------------------------------------------------------------------

  /** A leftover that does not count: nil, or a nested list of nil options. */
  predicate Ignored(opt: Opt) {
    match opt
    case Item(leaf) => leaf.NilOption?
    case Nested(items) => forall j :: 0 <= j < |items| ==> items[j] == Item(NilOption)
  }

  predicate Exhausted(opts: seq<Opt>) {
    forall i :: 0 <= i < |opts| ==> Ignored(opts[i])
  }

  method CheckOptionsExhausted(opts: seq<Opt>) returns (ok: bool)
    ensures ok == Exhausted(opts)
    ensures ok ==> forall i :: 0 <= i < |opts| && opts[i].Item? ==> opts[i] == Item(NilOption)
    ensures ok ==> forall i, j :: 0 <= i < |opts| && opts[i].Nested? && 0 <= j < |opts[i].items| ==>
      opts[i].items[j] == Item(NilOption)
    ensures !ok ==> exists i :: 0 <= i < |opts| && opts[i] != Item(NilOption) && !Ignored(opts[i])
  {
    for i := 0 to |opts|
      invariant forall m :: 0 <= m < i ==> Ignored(opts[m])
    {
      match opts[i]
      case Item(leaf) =>
        if !leaf.NilOption? {
          return false;
        }
      case Nested(items) =>
        for j := 0 to |items|
          invariant forall q :: 0 <= q < j ==> items[q] == Item(NilOption)
        {
          if items[j] != Item(NilOption) {
            return false;
          }
        }
    }
    return true;
  }

  /** Lists of nil options, and nested ones, are let through; a single other option is not. */
  lemma NilIsExhausted(opts: seq<Opt>, i: nat)
    requires i < |opts|
    ensures (forall j :: 0 <= j < |opts| ==> opts[j] == Item(NilOption) || opts[j] == Nested([Item(NilOption)])) ==>
      Exhausted(opts)
    ensures opts[i].Item? && opts[i] != Item(NilOption) ==> !Exhausted(opts)
  {}

  // ---- a flat slice over a shared array -------------------------------------------------

  /** A fresh backing array with the same options. */
  method Clone(a: array<Leaf>, n: nat) returns (b: array<Leaf>)
    requires n <= a.Length
    ensures fresh(b) && b.Length == n && b[..] == a[..n]
  {
    b := new Leaf[n](i requires 0 <= i < n && n <= a.Length reads a => a[i]);
    assert b[..] == a[..n];
  }

  /**
    Removing closes the gap in the backing array; an index out of range does nothing. The slice gets
    one shorter, while a second slice header over the same array still sees `n` options.
   */
  method RemoveInPlace(a: array<Leaf>, n: nat, index: int) returns (n': nat)
    requires n <= a.Length
    modifies a
    ensures n' == (if 0 <= index < n then n - 1 else n)
    ensures a[..n'] == if 0 <= index < n then RemoveIndex(old(a[..n]), index) else old(a[..n])
    ensures a[n'..] == old(a[n'..])
  {
    if index < 0 || index >= n {
      return n;
    }
    for i := index to n - 1
      invariant forall j :: 0 <= j < index ==> a[j] == old(a[j])
      invariant forall j :: index <= j < i ==> a[j] == old(a[j + 1])
      invariant forall j :: i <= j < a.Length ==> a[j] == old(a[j])
    {
      a[i] := a[i + 1];
    }
    n' := n - 1;
    assert a[..n'] == RemoveIndex(old(a[..n]), index);
  }

  /** What an old header over the consumed slice shows: the rest, and its last option once more. */
  function StaleView(ls: seq<Leaf>, p: Leaf -> bool): seq<Leaf> {
    if First(ls, p).None? then ls else Without(ls, p) + ls[|ls| - 1..]
  }

  /** What the matcher finds in the stale view: the second hit, or the only one if it came last. */
  lemma StaleFirst(ls: seq<Leaf>, p: Leaf -> bool)
    requires First(ls, p).Some?
    ensures
      var second := First(Without(ls, p), p);
      ls != [] && First(StaleView(ls, p), p) ==
        if second.Some? then second else if Hit(p, ls[|ls| - 1]) then First(ls, p) else None
  {
    var front, last := ls[..|ls| - 1], ls[|ls| - 1..];
    FirstOfConcat(Without(ls, p), last, p);
    assert ls == front + last && last[1..] == [];
    FirstOfConcat(front, last, p);
    if First(front, p).Some? {
      FirstOfConcat(Without(front, p), last, p);
    }
  }

  /** A last option that does not match is still there afterwards. */
  lemma {:induction false} LastRemains(ls: seq<Leaf>, p: Leaf -> bool)
    requires ls != [] && !Hit(p, ls[|ls| - 1])
    ensures ls[|ls| - 1] in Without(ls, p)
  {
    if |ls| > 1 && !Hit(p, ls[0]) {
      LastRemains(ls[1..], p);
    }
  }

  lemma {:induction false} FirstHitAt(ls: seq<Leaf>, p: Leaf -> bool, i: nat)
    requires i <= |ls| && forall j :: 0 <= j < i ==> !Hit(p, ls[j])
    ensures i == |ls| ==> First(ls, p) == None && Without(ls, p) == ls
    ensures i < |ls| && Hit(p, ls[i]) ==> First(ls, p) == Some(ls[i]) && Without(ls, p) == RemoveIndex(ls, i)
  {
    if i > 0 {
      FirstHitAt(ls[1..], p, i - 1);
      if i < |ls| && Hit(p, ls[i]) {
        assert [ls[0]] + RemoveIndex(ls[1..], i - 1) == RemoveIndex(ls, i);
      }
    } else if ls != [] && Hit(p, ls[0]) {
      assert RemoveIndex(ls, 0) == ls[1..];
    }
  }

  /** The first option that is not nil and matches is `x`, at `i`. */
  ghost predicate FoundAt(ls: seq<Leaf>, p: Leaf -> bool, i: int, x: Leaf) {
    && 0 <= i < |ls| && ls[i] == x && x != NilOption && p(x)
    && forall j :: 0 <= j < i ==> ls[j] == NilOption || !p(ls[j])
  }

  method MatchFlat(a: array<Leaf>, n: nat, p: Leaf -> bool) returns (n': nat, found: Option<Leaf>)
    requires n <= a.Length
    modifies a
    ensures n' <= n && n' == |Without(old(a[..n]), p)|
    ensures found == First(old(a[..n]), p)
    ensures a[..n'] == Without(old(a[..n]), p)
    ensures a[n'..] == old(a[n'..])
    ensures a[..n] == StaleView(old(a[..n]), p)
    ensures found.None? ==> n' == n && forall i :: 0 <= i < n ==> a[i] == old(a[i]) && !(p(a[i]) && a[i] != NilOption)
    ensures found.Some? ==>
      exists i :: FoundAt(old(a[..n]), p, i, found.value) && a[..n'] == RemoveIndex(old(a[..n]), i)
  {
    for i := 0 to n
      invariant a[..] == old(a[..])
      invariant forall j :: 0 <= j < i ==> !Hit(p, a[j])
    {
      if Hit(p, a[i]) {
        found := Some(a[i]);
        FirstHitAt(a[..n], p, i);
        n' := RemoveInPlace(a, n, i);
        assert a[..n] == a[..n'] + a[n'..n];
        assert FoundAt(old(a[..n]), p, i, found.value);
        return;
      }
    }
    FirstHitAt(a[..n], p, n);
    return n, None;
  }

  function Items(ls: seq<Leaf>): (opts: seq<Opt>)
    ensures |opts| == |ls| && forall i :: 0 <= i < |ls| ==> opts[i] == Item(ls[i])
  {
    seq(|ls|, i requires 0 <= i < |ls| => Item(ls[i]))
  }

  lemma ItemsOf(x: Leaf, ls: seq<Leaf>)
    ensures Items([x] + ls) == [Item(x)] + Items(ls)
  {}

  /** On flat lists the nested matcher and the in-place one agree. */
  lemma {:induction false} FlatAgrees(ls: seq<Leaf>, p: Leaf -> bool)
    ensures MatchOpts(Items(ls), p, false) == Matched(Items(Without(ls, p)), First(ls, p))
  {
    if ls != [] {
      var rest := ls[1..];
      FlatAgrees(rest, p);
      assert Items(ls)[0] == Item(ls[0]) && Items(ls)[1..] == Items(rest);
      ItemsOf(ls[0], Without(rest, p));
    }
  }
}
