/**
  The wildcard permission tree (`pkg/access/node.go`): what Insert and Find compute, how they relate
  to the plain list of inserted patterns, and the class that updates the tree in place.
 */
module Trie {
  type Label = string
  type Labels = seq<Label>

  const WILDCARD: Label := "*"

  /** The abstract value of a Node: a tree whose edges carry labels. */
  datatype Tree = Tree(children: map<Label, Tree>)

  const EMPTY := Tree(map[])

  function InsertTree(t: Tree, labels: Labels): Tree
    decreases |labels|
  {
    if labels == [] then t
    else
      var head, rest := labels[0], labels[1..];
      if head in t.children then
        Tree(t.children[head := InsertTree(t.children[head], rest)])
      else if rest == [] && WILDCARD in t.children then t
      else
        var kept := if head == WILDCARD && rest == [] then map[] else t.children;
        Tree(kept[head := InsertTree(EMPTY, rest)])
  }

  predicate FindTree(t: Tree, labels: Labels)
    decreases |labels|
  {
    labels == []
    || (labels[0] in t.children && FindTree(t.children[labels[0]], labels[1..]))
    || (WILDCARD in t.children && FindTree(t.children[WILDCARD], labels[1..]))
  }

  /** The tree after inserting the patterns one by one. */
  function Build(ps: seq<Labels>): Tree
    decreases |ps|
  {
    if ps == [] then EMPTY else InsertTree(Build(ps[..|ps| - 1]), ps[|ps| - 1])
  }

  /** The meaning of a pattern, without any tree: `q` is a prefix of it up to wildcards. */
  predicate Covers(p: Labels, q: Labels) {
    |q| <= |p| && forall i :: 0 <= i < |q| ==> p[i] == q[i] || p[i] == WILDCARD
  }

  ghost predicate Covered(ps: seq<Labels>, q: Labels) {
    exists i :: 0 <= i < |ps| && Covers(ps[i], q)
  }

  lemma CoversStep(p: Labels, q: Labels)
    requires p != [] && q != []
    ensures Covers(p, q) <==> (p[0] == q[0] || p[0] == WILDCARD) && Covers(p[1..], q[1..])
  {
    if (p[0] == q[0] || p[0] == WILDCARD) && Covers(p[1..], q[1..]) {
      forall i | 0 <= i < |q| ensures p[i] == q[i] || p[i] == WILDCARD {
        if i > 0 {
          assert p[1..][i - 1] == p[i] && q[1..][i - 1] == q[i];
        }
      }
    }
  }

  // ---- soundness, at any mix of depths --------------------------------------------------

  /** One insertion grants nothing beyond the inserted pattern. */
  lemma {:induction false} InsertSound(t: Tree, p: Labels, q: Labels)
    requires q != [] && FindTree(InsertTree(t, p), q)
    ensures FindTree(t, q) || Covers(p, q)
    decreases |p|
  {
    if p == [] {
    } else {
      CoversStep(p, q);
      var head, rest := p[0], p[1..];
      if head !in t.children && rest == [] && WILDCARD in t.children {
      } else if q[1..] != [] {
        var child := if head in t.children then t.children[head] else EMPTY;
        var t' := InsertTree(t, p);
        if head == q[0] && FindTree(t'.children[head], q[1..]) {
          InsertSound(child, rest, q[1..]);
        } else if head == WILDCARD && FindTree(t'.children[head], q[1..]) {
          InsertSound(child, rest, q[1..]);
        }
      }
    }
  }

  /** Whatever patterns were inserted, at whatever lengths, Find never accepts what none of them covers. */
  lemma {:induction false} Soundness(ps: seq<Labels>, q: Labels)
    requires q != [] && FindTree(Build(ps), q)
    ensures Covered(ps, q)
    decreases |ps|
  {
    if ps != [] {
      var front, p := ps[..|ps| - 1], ps[|ps| - 1];
      InsertSound(Build(front), p, q);
      if FindTree(Build(front), q) {
        Soundness(front, q);
        var i :| 0 <= i < |front| && Covers(front[i], q);
        assert Covers(ps[i], q);
      }
    }
  }

  predicate HasPath(t: Tree, path: Labels)
    decreases |path|
  {
    path == [] || (path[0] in t.children && HasPath(t.children[path[0]], path[1..]))
  }

  /** An insertion always grants its own pattern. */
  lemma {:induction false} InsertGrants(t: Tree, p: Labels, q: Labels)
    requires q != [] && Covers(p, q)
    ensures FindTree(InsertTree(t, p), q)
    decreases |p|
  {
    CoversStep(p, q);
    if q[1..] != [] {
      InsertGrants(if p[0] in t.children then t.children[p[0]] else EMPTY, p[1..], q[1..]);
    }
  }

  predicate EndsInWildcard(p: Labels) {
    p != [] && p[|p| - 1] == WILDCARD
  }

  /** It revokes only queries longer than itself, and only when it ends in a wildcard and its path is new. */
  lemma {:induction false} InsertRevokesLonger(t: Tree, p: Labels, q: Labels)
    requires q != [] && FindTree(t, q) && (|q| <= |p| || HasPath(t, p) || !EndsInWildcard(p))
    ensures FindTree(InsertTree(t, p), q)
    decreases |p|
  {
    if p != [] {
      var head, rest := p[0], p[1..];
      if head in t.children && q[1..] != [] && FindTree(t.children[head], q[1..]) {
        InsertRevokesLonger(t.children[head], rest, q[1..]);
      }
    }
  }

  /** Then the new wildcard is all that is left at its level and below. */
  lemma {:induction false} CondensesBelow(t: Tree, p: Labels, path: Labels)
    requires EndsInWildcard(p) && !HasPath(t, p) && HasPath(InsertTree(t, p), path)
    requires |path| >= |p| && path[..|p| - 1] == p[..|p| - 1]
    ensures path == p
    decreases |p|
  {
    var head, rest := p[0], p[1..];
    if rest == [] {
      assert HasPath(t, p) <==> head in t.children;
      assert InsertTree(t, p) == Tree(map[WILDCARD := EMPTY]);
      assert HasPath(EMPTY, path[1..]) ==> path[1..] == [];
      assert path == [path[0]] + path[1..];
    } else {
      assert path[0] == path[..|p| - 1][0] && path[1..][..|rest| - 1] == path[..|p| - 1][1..];
      assert rest[..|rest| - 1] == p[..|p| - 1][1..];
      CondensesBelow(if head in t.children then t.children[head] else EMPTY, rest, path[1..]);
      assert path == [path[0]] + path[1..] && p == [head] + rest;
    }
  }

  // ---- the patterns that survive condensing ---------------------------------------------

  /** Inserting `p`, which ends in a wildcard, drops `l`: it runs through the node that is condensed. */
  predicate Drops(p: Labels, l: Labels) {
    EndsInWildcard(p) && |l| >= |p| && l[..|p| - 1] == p[..|p| - 1]
  }

  ghost predicate Extended(live: set<Labels>, p: Labels) {
    exists l :: l in live && p <= l
  }

  /** What one insertion makes of the patterns in force: nothing is condensed when the path already exists. */
  ghost function Admit(live: set<Labels>, p: Labels): set<Labels> {
    (set l | l in live && (Drops(p, l) ==> Extended(live, p))) + {p}
  }

  /** The inserted patterns still in force after all insertions, without any tree. */
  ghost function Live(ps: seq<Labels>): set<Labels>
    decreases |ps|
  {
    if ps == [] then {} else Admit(Live(ps[..|ps| - 1]), ps[|ps| - 1])
  }

  ghost predicate LiveCovers(live: set<Labels>, q: Labels) {
    exists l :: l in live && Covers(l, q)
  }

  /** The rest of the patterns that start with `head`. */
  ghost function Tails(live: set<Labels>, head: Label): set<Labels> {
    set l | l in live && l != [] && l[0] == head :: l[1..]
  }

  lemma TailsMember(live: set<Labels>, head: Label, rest: Labels)
    ensures rest in Tails(live, head) <==> [head] + rest in live
  {
    assert ([head] + rest)[1..] == rest;
    if rest in Tails(live, head) {
      var l :| l in live && l != [] && l[0] == head && l[1..] == rest;
      assert l == [head] + rest;
    }
  }

  /** The tree holds exactly these patterns, except that a last label beside a wildcard is left out. */
  ghost predicate Represents(t: Tree, live: set<Labels>)
    decreases t
  {
    && (forall a :: a in t.children ==> Tails(live, a) != {} && Represents(t.children[a], Tails(live, a)))
    && (forall l :: l in live && l != [] ==> l[0] in t.children || (|l| == 1 && WILDCARD in t.children))
  }

  lemma {:induction false} RepresentsFind(t: Tree, live: set<Labels>, q: Labels)
    requires Represents(t, live) && q != []
    ensures FindTree(t, q) <==> LiveCovers(live, q)
    decreases |q|
  {
    var rest := q[1..];
    forall a | a in t.children && rest != []
      ensures FindTree(t.children[a], rest) <==> LiveCovers(Tails(live, a), rest)
    {
      RepresentsFind(t.children[a], Tails(live, a), rest);
    }
    if FindTree(t, q) {
      var a := if q[0] in t.children && FindTree(t.children[q[0]], rest) then q[0] else WILDCARD;
      var tail :| tail in Tails(live, a) && Covers(tail, rest);
      TailsMember(live, a, tail);
      CoversStep([a] + tail, q);
      assert ([a] + tail)[1..] == tail;
    }
    if l :| l in live && Covers(l, q) {
      CoversStep(l, q);
      if l[0] in t.children {
        assert l[1..] in Tails(live, l[0]);
      }
    }
  }

  /** The insertion condenses a level: it ends in a wildcard whose path is not there yet. */
  ghost predicate Condenses(live: set<Labels>, p: Labels) {
    EndsInWildcard(p) && !Extended(live, p)
  }

  lemma ExtendedTail(live: set<Labels>, p: Labels)
    requires p != []
    ensures Extended(live, p) <==> Extended(Tails(live, p[0]), p[1..])
  {
    if l :| l in live && p <= l {
      assert l[1..] in Tails(live, p[0]) && p[1..] <= l[1..];
    }
    if t :| t in Tails(live, p[0]) && p[1..] <= t {
      TailsMember(live, p[0], t);
      assert p == [p[0]] + p[1..] && p <= [p[0]] + t;
    }
  }

  lemma DropsTail(p: Labels, l: Labels)
    requires |p| > 1
    ensures Drops(p, l) <==> l != [] && l[0] == p[0] && Drops(p[1..], l[1..])
  {
    if l != [] && l[0] == p[0] && |l| >= |p| {
      assert l[..|p| - 1] == [l[0]] + l[1..][..|p| - 2] && p[..|p| - 1] == [p[0]] + p[1..][..|p| - 2];
    }
  }

  /** Below its first label an insertion admits the rest of the pattern. */
  lemma AdmitBelow(live: set<Labels>, p: Labels)
    requires p != [] && (|p| > 1 || !Condenses(live, p))
    ensures Tails(Admit(live, p), p[0]) == Admit(Tails(live, p[0]), p[1..])
  {
    var head, rest := p[0], p[1..];
    forall t ensures t in Tails(Admit(live, p), head) <==> t in Admit(Tails(live, head), rest) {
      var l := [head] + t;
      assert l[1..] == t && (l == p <==> t == rest);
      TailsMember(Admit(live, p), head, t);
      TailsMember(live, head, t);
      ExtendedTail(live, p);
      if |p| > 1 {
        DropsTail(p, l);
      }
    }
  }

  lemma AdmitBeside(live: set<Labels>, p: Labels, a: Label)
    requires p != [] && a != p[0] && (|p| > 1 || !Condenses(live, p))
    ensures Tails(Admit(live, p), a) == Tails(live, a)
  {
    forall t ensures t in Tails(Admit(live, p), a) <==> t in Tails(live, a) {
      TailsMember(Admit(live, p), a, t);
      TailsMember(live, a, t);
      if |p| > 1 {
        DropsTail(p, [a] + t);
      }
    }
  }

  lemma EmptyRepresents(live: set<Labels>)
    requires forall l :: l in live ==> l == []
    ensures Represents(EMPTY, live)
  {}

  /** One insertion into any tree turns the patterns it holds into those Admit says. */
  lemma {:induction false} InsertRepresents(t: Tree, live: set<Labels>, p: Labels)
    requires Represents(t, live)
    ensures Represents(InsertTree(t, p), Admit(live, p))
    decreases |p|
  {
    if p == [] {
      forall a ensures Tails(Admit(live, p), a) == Tails(live, a) {
        forall x ensures x in Tails(Admit(live, p), a) <==> x in Tails(live, a) {
          TailsMember(Admit(live, p), a, x);
          TailsMember(live, a, x);
        }
      }
    } else {
      var head, rest := p[0], p[1..];
      if head !in t.children && rest == [] && WILDCARD in t.children {
        assert p == [head];
        InsertBeside(t, live, head);
      } else if head !in t.children && p == [WILDCARD] {
        InsertCondenses(t, live);
      } else {
        var child := if head in t.children then t.children[head] else EMPTY;
        if head !in t.children {
          EmptyRepresents(Tails(live, head));
        }
        InsertRepresents(child, Tails(live, head), rest);
        InsertBelow(t, live, p, InsertTree(child, rest));
      }
    }
  }

  /** One child replaced or added, the others with the same patterns below. */
  lemma RepresentsChild(t: Tree, live: set<Labels>, more: set<Labels>, head: Label, child: Tree)
    requires Represents(t, live) && Represents(child, Tails(more, head)) && Tails(more, head) != {}
    requires forall a :: a in t.children && a != head ==> Tails(more, a) == Tails(live, a)
    requires forall l :: l in more && l != [] ==> l in live || l[0] == head
    ensures Represents(Tree(t.children[head := child]), more)
  {
    var t' := Tree(t.children[head := child]);
    forall a | a in t'.children ensures Tails(more, a) != {} && Represents(t'.children[a], Tails(more, a)) {
      if a != head {
        assert a in t.children && t'.children[a] == t.children[a];
      }
    }
    forall l | l in more && l != [] ensures l[0] in t'.children || (|l| == 1 && WILDCARD in t'.children) {}
  }

  lemma AdmitMembers(live: set<Labels>, p: Labels, l: Labels)
    requires l in Admit(live, p)
    ensures l in live || l == p
  {}

  lemma TailsBeside(live: set<Labels>, x: Label, a: Label)
    requires a != x
    ensures Tails(live + {[x]}, a) == Tails(live, a)
  {}

  /** A last label beside a wildcard changes the patterns in force but not the tree. */
  lemma InsertBeside(t: Tree, live: set<Labels>, x: Label)
    requires Represents(t, live) && x != WILDCARD && x !in t.children && WILDCARD in t.children
    ensures Represents(t, Admit(live, [x]))
  {
    assert Admit(live, [x]) == live + {[x]};
    forall a | a in t.children ensures Tails(live + {[x]}, a) == Tails(live, a) {
      TailsBeside(live, x, a);
    }
    forall l | l in live + {[x]} && l != [] ensures l[0] in t.children || (|l| == 1 && WILDCARD in t.children) {}
  }

  /** A wildcard at a level that has none empties the level. */
  lemma InsertCondenses(t: Tree, live: set<Labels>)
    requires Represents(t, live) && WILDCARD !in t.children
    ensures Represents(Tree(map[WILDCARD := EMPTY]), Admit(live, [WILDCARD]))
  {
    var p := [WILDCARD];
    forall l | l in live && l != [] ensures Drops(p, l) && !(p <= l) {
      assert l[..0] == p[..0];
    }
    forall x ensures x in Tails(Admit(live, p), WILDCARD) <==> x == [] {
      TailsMember(Admit(live, p), WILDCARD, x);
      assert [WILDCARD] + x == p <==> x == [];
    }
    EmptyRepresents(Tails(Admit(live, p), WILDCARD));
    assert [] in Tails(Admit(live, p), WILDCARD);
  }

  /** Below an old or a new child: this level only gains the first label. */
  lemma InsertBelow(t: Tree, live: set<Labels>, p: Labels, child: Tree)
    requires Represents(t, live) && p != []
    requires p[0] in t.children || !(|p| == 1 && (WILDCARD in t.children || p[0] == WILDCARD))
    requires Represents(child, Admit(Tails(live, p[0]), p[1..]))
    ensures Represents(Tree(t.children[p[0] := child]), Admit(live, p))
  {
    if |p| == 1 && p[0] == WILDCARD {
      var x :| x in Tails(live, WILDCARD);
      TailsMember(live, WILDCARD, x);
      assert p <= [WILDCARD] + x;
    }
    var more := Admit(live, p);
    AdmitBelow(live, p);
    assert p[1..] in Tails(more, p[0]);
    forall a | a in t.children && a != p[0] ensures Tails(more, a) == Tails(live, a) {
      AdmitBeside(live, p, a);
    }
    forall l | l in more && l != [] ensures l in live || l[0] == p[0] {
      AdmitMembers(live, p, l);
    }
    RepresentsChild(t, live, more, p[0], child);
  }

  /** So one insertion grants exactly the inserted pattern and revokes exactly what it condenses away. */
  lemma InsertExact(t: Tree, live: set<Labels>, p: Labels, q: Labels)
    requires Represents(t, live) && q != []
    ensures FindTree(t, q) <==> LiveCovers(live, q)
    ensures FindTree(InsertTree(t, p), q) <==> LiveCovers(Admit(live, p), q)
  {
    InsertRepresents(t, live, p);
    RepresentsFind(t, live, q);
    RepresentsFind(InsertTree(t, p), Admit(live, p), q);
  }

  // ---- exactness ------------------------------------------------------------------------

  lemma {:induction false} BuildRepresents(ps: seq<Labels>)
    ensures Represents(Build(ps), Live(ps))
    decreases |ps|
  {
    if ps == [] {
      EmptyRepresents({});
    } else {
      BuildRepresents(ps[..|ps| - 1]);
      InsertRepresents(Build(ps[..|ps| - 1]), Live(ps[..|ps| - 1]), ps[|ps| - 1]);
    }
  }

  /** Whatever was inserted, in whatever order and lengths, the tree agrees with the plain list of patterns in force. */
  lemma FindIsLive(ps: seq<Labels>, q: Labels)
    requires q != []
    ensures FindTree(Build(ps), q) <==> LiveCovers(Live(ps), q)
  {
    BuildRepresents(ps);
    RepresentsFind(Build(ps), Live(ps), q);
  }

  lemma {:induction false} RepresentsPath(t: Tree, live: set<Labels>, path: Labels)
    requires Represents(t, live) && path != [] && HasPath(t, path)
    ensures Extended(live, path)
    decreases |path|
  {
    var below := Tails(live, path[0]);
    if path[1..] == [] {
      var x :| x in below;
      assert path[1..] <= x;
    } else {
      RepresentsPath(t.children[path[0]], below, path[1..]);
    }
    ExtendedTail(live, path);
  }

  /** Every path of the tree is, label for label, a prefix of some inserted pattern. */
  lemma PathsArePrefixes(ps: seq<Labels>, path: Labels)
    requires path != [] && HasPath(Build(ps), path)
    ensures exists p :: p in ps && path <= p
  {
    BuildRepresents(ps);
    RepresentsPath(Build(ps), Live(ps), path);
    var l :| l in Live(ps) && path <= l;
    LiveWereInserted(ps, l);
  }

  /** The tree decides every query as the plain list of inserted patterns would. */
  ghost predicate AgreesWithList(ps: seq<Labels>) {
    forall q :: q != [] ==> (FindTree(Build(ps), q) <==> Covered(ps, q))
  }

  /** Each inserted pattern is still granted by one in force. */
  ghost predicate NothingLost(ps: seq<Labels>) {
    forall p :: p in ps && p != [] ==> LiveCovers(Live(ps), p)
  }

  lemma CoversTransitive(a: Labels, b: Labels, c: Labels)
    requires Covers(a, b) && Covers(b, c)
    ensures Covers(a, c)
  {
    forall i | 0 <= i < |c| ensures a[i] == c[i] || a[i] == WILDCARD {
      assert a[i] == b[i] || a[i] == WILDCARD;
    }
  }

  /** The tree agrees with the plain list of patterns exactly when condensing lost none of them. */
  lemma ExactIffNothingLost(ps: seq<Labels>)
    ensures AgreesWithList(ps) <==> NothingLost(ps)
  {
    if AgreesWithList(ps) {
      forall p | p in ps && p != [] ensures LiveCovers(Live(ps), p) {
        var i :| 0 <= i < |ps| && ps[i] == p;
        assert Covers(ps[i], p);
        FindIsLive(ps, p);
      }
    }
    if NothingLost(ps) {
      forall q | q != [] ensures FindTree(Build(ps), q) <==> Covered(ps, q) {
        FindIsLive(ps, q);
        if FindTree(Build(ps), q) {
          Soundness(ps, q);
        }
        if i :| 0 <= i < |ps| && Covers(ps[i], q) {
          assert ps[i] in ps;
          var l :| l in Live(ps) && Covers(l, ps[i]);
          CoversTransitive(l, ps[i], q);
        }
      }
    }
  }

  /** No pattern ending in a wildcard comes after a longer pattern. */
  ghost predicate CondensesLeavesOnly(ps: seq<Labels>) {
    forall i, j :: 0 <= j < i < |ps| && EndsInWildcard(ps[i]) ==> |ps[j]| <= |ps[i]|
  }

  ghost predicate SameLength(ps: seq<Labels>, d: nat) {
    forall i :: 0 <= i < |ps| ==> |ps[i]| == d
  }

  /** A pattern that drops another of at most its length grants what that one granted. */
  lemma DropperCovers(p: Labels, l: Labels)
    requires Drops(p, l) && |l| <= |p|
    ensures Covers(p, l)
  {
    forall i | 0 <= i < |l| ensures p[i] == l[i] || p[i] == WILDCARD {
      if i < |p| - 1 {
        assert l[..|p| - 1][i] == p[..|p| - 1][i];
      }
    }
  }

  lemma StillGranted(live: set<Labels>, p: Labels, x: Labels)
    requires LiveCovers(live, x) && forall l :: l in live && EndsInWildcard(p) ==> |l| <= |p|
    ensures LiveCovers(Admit(live, p), x)
  {
    var l :| l in live && Covers(l, x);
    if l !in Admit(live, p) {
      DropperCovers(p, l);
      CoversTransitive(p, l, x);
      assert p in Admit(live, p);
    }
  }

  lemma {:induction false} LiveWereInserted(ps: seq<Labels>, l: Labels)
    requires l in Live(ps)
    ensures l in ps
    decreases |ps|
  {
    var n := |ps| - 1;
    AdmitMembers(Live(ps[..n]), ps[n], l);
    if l != ps[n] {
      LiveWereInserted(ps[..n], l);
    }
  }

  /** What is dropped among patterns that are not longer is granted by the pattern that drops it. */
  lemma {:induction false} LeavesLoseNothing(ps: seq<Labels>, x: Labels)
    requires CondensesLeavesOnly(ps) && x in ps
    ensures LiveCovers(Live(ps), x)
    decreases |ps|
  {
    var n := |ps| - 1;
    var live, p := Live(ps[..n]), ps[n];
    if x == p {
      assert p in Admit(live, p) && Covers(p, p);
    } else {
      assert x in ps[..n];
      LeavesLoseNothing(ps[..n], x);
      forall l | l in live && EndsInWildcard(p) ensures |l| <= |p| {
        LiveWereInserted(ps[..n], l);
        var j :| 0 <= j < n && ps[..n][j] == l;
        assert ps[j] == l;
      }
      StillGranted(live, p, x);
    }
  }

  /** In particular the two agree when no pattern ending in a wildcard follows a longer one. */
  lemma Exactness(ps: seq<Labels>, q: Labels)
    requires q != [] && CondensesLeavesOnly(ps)
    ensures FindTree(Build(ps), q) <==> Covered(ps, q)
  {
    forall p | p in ps ensures LiveCovers(Live(ps), p) {
      LeavesLoseNothing(ps, p);
    }
    ExactIffNothingLost(ps);
  }

  /** Patterns of one length: insertion order and repetitions do not matter, and more patterns never revoke access. */
  lemma MorePatternsGrantMore(ps: seq<Labels>, ps': seq<Labels>, d: nat, q: Labels)
    requires q != [] && SameLength(ps, d) && SameLength(ps', d)
    requires forall p :: p in ps ==> p in ps'
    ensures FindTree(Build(ps), q) ==> FindTree(Build(ps'), q)
  {
    if FindTree(Build(ps), q) {
      Soundness(ps, q);
      var i :| 0 <= i < |ps| && Covers(ps[i], q);
      assert ps[i] in ps';
      var j :| 0 <= j < |ps'| && ps'[j] == ps[i];
      Exactness(ps', q);
    }
  }

  lemma OrderDoesNotMatter(ps: seq<Labels>, ps': seq<Labels>, d: nat, q: Labels)
    requires q != [] && SameLength(ps, d) && SameLength(ps', d)
    requires forall p :: p in ps <==> p in ps'
    ensures FindTree(Build(ps), q) <==> FindTree(Build(ps'), q)
  {
    MorePatternsGrantMore(ps, ps', d, q);
    MorePatternsGrantMore(ps', ps, d, q);
  }

  /** At mixed depths a shorter wildcard drops what a longer pattern granted. */
  lemma ShorterWildcardRevokes()
    ensures var ps := [["a", "b"], ["*"]];
      Covered(ps, ["a", "b"]) && !FindTree(Build(ps), ["a", "b"]) && FindTree(Build(ps[..1]), ["a", "b"])
  {
    var ps: seq<Labels> := [["a", "b"], ["*"]];
    assert Covers(ps[0], ["a", "b"]);
    assert ps[..1][..0] == [] && ps[..1][0] == ["a", "b"];
    var leaf := InsertTree(EMPTY, ["b"]);
    assert leaf == Tree(map["b" := EMPTY]) by { assert InsertTree(EMPTY, ["b"][1..]) == EMPTY; }
    assert ["a", "b"][1..] == ["b"];
    var one := Build(ps[..1]);
    assert ps[..1][..0] == [] && Build([]) == EMPTY;
    assert one == InsertTree(EMPTY, ["a", "b"]);
    assert one == Tree(map["a" := leaf]);
    var two := InsertTree(one, ["*"]);
    assert two == Tree(map["*" := EMPTY]) by { assert ["*"][1..] == []; }
    assert Build(ps) == two;
  }

  // ---- the tree updated in place --------------------------------------------------------

  /** The objects in `r` make up these children, each a tree of its own, nothing shared. */
  ghost predicate Disjoint(kids: map<Label, Node>, trees: map<Label, Tree>, r: set<object>)
    reads r
    decreases r, 1
  {
    && kids.Keys == trees.Keys
    && (forall l :: l in kids ==>
          kids[l] in r && kids[l].repr <= r && kids[l].Valid() && kids[l].tree == trees[l])
    && (forall k, l :: k in kids && l in kids && k != l ==> kids[k].repr !! kids[l].repr)
  }

  lemma ChildOf(kids: map<Label, Node>, trees: map<Label, Tree>, r: set<object>, l: Label)
    requires Disjoint(kids, trees, r) && l in kids
    ensures l in trees && kids[l] in r && kids[l].repr <= r && kids[l].Valid() && kids[l].tree == trees[l]
  {}

  lemma WithoutChild(kids: map<Label, Node>, trees: map<Label, Tree>, r: set<object>, l: Label)
    requires Disjoint(kids, trees, r) && l in kids
    ensures Disjoint(kids - {l}, trees - {l}, r - kids[l].repr)
  {}

  lemma WithChild(kids: map<Label, Node>, trees: map<Label, Tree>, r: set<object>, l: Label, child: Node)
    requires Disjoint(kids, trees, r) && l !in kids && child.Valid() && child.repr !! r
    ensures Disjoint(kids[l := child], trees[l := child.tree], r + child.repr)
  {}

  class Node {
    var children: map<Label, Node>
    ghost var tree: Tree
    ghost var repr: set<object>

    ghost predicate Valid()
      reads this, repr
      ensures Valid() ==> this in repr && children.Keys == tree.children.Keys
      decreases repr, 0
    {
      this in repr && Disjoint(children, tree.children, repr - {this})
    }

    constructor ()
      ensures Valid() && fresh(repr) && tree == EMPTY
    {
      children := map[];
      tree, repr := EMPTY, {this};
    }

    method Insert(labels: Labels) returns (node: Node)
      requires Valid()
      modifies repr
      ensures Valid() && fresh(repr - old(repr)) && node in repr
      ensures tree == InsertTree(old(tree), labels)
      decreases |labels|, 2
    {
      if labels == [] {
        return this;
      }
      var head := labels[0];
      if head !in children {
        node := InsertNew(labels);
        return;
      }
      var child := children[head];
      ghost var kids, trees, r := children, tree.children, repr - {this};
      ChildOf(kids, trees, r, head);
      WithoutChild(kids, trees, r, head);
      node := InsertBelow(child, labels, kids - {head}, trees - {head}, r - child.repr);
    }

    /** A first label that has no child yet. */
    method InsertNew(labels: Labels) returns (node: Node)
      requires Valid() && labels != [] && labels[0] !in children
      modifies repr
      ensures Valid() && fresh(repr - old(repr)) && node in repr
      ensures tree == InsertTree(old(tree), labels)
      decreases |labels|, 1
    {
      var head := labels[0];
      ghost var kids, trees, r := children, tree.children, repr - {this};
      if |labels| == 1 && WILDCARD in children {
        ChildOf(kids, trees, r, WILDCARD);
        return children[WILDCARD];
      }
      var child := new Node();
      if head == WILDCARD && |labels| == 1 && children != map[] {
        DropChildren();
        kids, trees, r := map[], map[], {};
      }
      children := children[head := child];
      node := InsertBelow(child, labels, kids, trees, r);
    }

    /** The recursive call on the child for the first label, and the bookkeeping after it. */
    method InsertBelow(child: Node, labels: Labels, ghost kids: map<Label, Node>, ghost trees: map<Label, Tree>,
                       ghost r: set<object>) returns (node: Node)
      requires labels != [] && child.Valid() && this !in child.repr && this !in r && child.repr !! r
      requires Disjoint(kids, trees, r) && labels[0] !in kids && children == kids[labels[0] := child]
      modifies this, child.repr
      ensures Valid() && repr == {this} + r + child.repr && fresh(child.repr - old(child.repr)) && node in repr
      ensures tree == Tree(trees[labels[0] := InsertTree(old(child.tree), labels[1..])])
      decreases |labels|, 0
    {
      node := child.Insert(labels[1..]);
      WithChild(kids, trees, r, labels[0], child);
      repr := {this} + r + child.repr;
      tree := Tree(trees[labels[0] := child.tree]);
      assert repr - {this} == r + child.repr;
    }

    method DropChildren()
      modifies this`children
      ensures children == map[]
    {
      while children != map[]
        decreases |children|
      {
        var l :| l in children;
        children := children - {l};
      }
    }

    predicate Find(labels: Labels)
      requires Valid()
      reads this, repr
      ensures Find(labels) == FindTree(tree, labels)
      decreases |labels|, 0
    {
      labels == []
      || (labels[0] in children && FindBelow(labels[0], labels[1..]))
      || (WILDCARD in children && FindBelow(WILDCARD, labels[1..]))
    }

    predicate FindBelow(l: Label, rest: Labels)
      requires Valid() && l in children
      reads this, repr
      ensures l in tree.children && FindBelow(l, rest) == FindTree(tree.children[l], rest)
      decreases |rest|, 1
    {
      ChildOf(children, tree.children, repr - {this}, l);
      children[l].Find(rest)
    }
  }
}
