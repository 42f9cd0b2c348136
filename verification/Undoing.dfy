/**
  Compensation seen from a single name (`pkg/orchestration/api_rest.go`, `api_service.go:144-164`):
  what the services writing it in one stage after another leave there, what undoing them in reverse
  order does to it, and what happens when the rollback of the failing stage cuts in somewhere.
 */
module Undoing {
  import opened Maybe
  import opened RestServices

  type Held = Option<Object>

  /** The check of a writing service on what the name holds. */
  predicate Passes(w: Service, held: Held) {
    w.action == Post <==> held.None?
  }

  /** Passing is what the check of a writing service finds, and what its call needs to go through. */
  lemma PassesChecks(s: Service, st: Store)
    requires NamesMatch(s) && Writes(s).Some?
    ensures CheckError(s, st).None? <==> Passes(s, Lookup(st, Writes(s).value))
    ensures Answer(s, st).None? <==> Passes(s, Lookup(st, Writes(s).value))
  {}

  /** What the writers leave of `init`, each going through after the other. */
  function Left(ws: seq<Service>, init: Held): Held {
    if ws == [] then init else Target(ws[|ws| - 1])
  }

  /** Each writer's check passed on what its predecessors left. */
  predicate Legal(ws: seq<Service>, init: Held) {
    ws == []
    || (var front, w := ws[..|ws| - 1], ws[|ws| - 1];
        Legal(front, init) && Writes(w).Some? && Passes(w, Left(front, init)))
  }

  /** One rollback with the backup `was`: it may find the name in another state than its service left. */
  function Undo(w: Service, was: Held, now: Held): Held {
    match w.action
    case Post => None
    case Put => if was.Some? && now.Some? then was else now
    case Delete => if was.Some? && now.None? then was else now
    case _ => now
  }

  /** The writers rolled back from the last one down to the one at `t`. */
  function UndoDown(ws: seq<Service>, init: Held, t: nat, now: Held): Held
    decreases |ws|
  {
    if |ws| <= t then now
    else
      var front, w := ws[..|ws| - 1], ws[|ws| - 1];
      UndoDown(front, init, t, Undo(w, Left(front, init), now))
  }

  /**
    The failing stage's own service `w` is rolled back when the unwinding has come down to `t`; then the
    unwinding goes on to `m`.
   */
  function CutIn(ws: seq<Service>, w: Service, init: Held, t: nat, m: nat, now: Held): Held
    requires m <= t <= |ws|
  {
    UndoDown(ws[..t], init, m, Undo(w, Left(ws, init), UndoDown(ws, init, t, now)))
  }

  function Overtaken(ws: seq<Service>, w: Service, init: Held, t: nat, now: Held): Held
    requires t <= |ws|
  {
    CutIn(ws, w, init, t, 0, now)
  }

  // ---- unwinding ------------------------------------------------------------------------

  /** One more step down. */
  lemma {:induction false} UndoDownStep(ws: seq<Service>, init: Held, t: nat, now: Held)
    requires 0 < t <= |ws|
    ensures UndoDown(ws, init, t - 1, now) == Undo(ws[t - 1], Left(ws[..t - 1], init), UndoDown(ws, init, t, now))
    decreases |ws|
  {
    var n := |ws| - 1;
    if t <= n {
      UndoDownStep(ws[..n], init, t, Undo(ws[n], Left(ws[..n], init), now));
      assert ws[..n][..t - 1] == ws[..t - 1];
    }
  }

  lemma LegalNext(ws: seq<Service>, w: Service, init: Held)
    requires Legal(ws, init) && Writes(w).Some? && Passes(w, Left(ws, init))
    ensures Legal(ws + [w], init) && Left(ws + [w], init) == Target(w)
  {
    assert (ws + [w])[..|ws|] == ws;
  }

  lemma {:induction false} LegalPrefix(ws: seq<Service>, init: Held, t: nat)
    requires Legal(ws, init) && t <= |ws|
    ensures Legal(ws[..t], init)
    ensures t < |ws| ==> Writes(ws[t]).Some? && Passes(ws[t], Left(ws[..t], init))
    decreases |ws|
  {
    var n := |ws| - 1;
    if t < n {
      LegalPrefix(ws[..n], init, t);
      assert ws[..n][..t] == ws[..t];
    } else if t == |ws| {
      assert ws[..t] == ws;
    }
  }

  lemma UndoneOnce(ws: seq<Service>, init: Held, m: nat)
    requires Legal(ws, init) && m < |ws|
    ensures Undo(ws[m], Left(ws[..m], init), Left(ws[..m + 1], init)) == Left(ws[..m], init)
  {
    LegalPrefix(ws, init, m);
  }

  /** From what the writers left, unwinding walks exactly back through what they found. */
  lemma {:induction false} UnwindsExactly(ws: seq<Service>, init: Held, t: nat)
    requires Legal(ws, init) && t <= |ws|
    ensures UndoDown(ws, init, t, Left(ws, init)) == Left(ws[..t], init)
    decreases |ws|
  {
    var n := |ws| - 1;
    if t <= n {
      UnwindsExactly(ws[..n], init, t);
      assert ws[..n][..t] == ws[..t];
    } else {
      assert ws[..t] == ws;
    }
  }

  predicate SamePresence(a: Held, b: Held) {
    a.Some? <==> b.Some?
  }

  /** Presence is restored along the way whatever the objects are, and the first writer restores the object too. */
  lemma {:induction false} PresenceUnwinds(ws: seq<Service>, init: Held, t: nat, now: Held)
    requires Legal(ws, init) && t <= |ws| && SamePresence(now, Left(ws, init))
    ensures SamePresence(UndoDown(ws, init, t, now), Left(ws[..t], init))
    ensures t == 0 && ws != [] ==> UndoDown(ws, init, t, now) == init
    decreases |ws|
  {
    var n := |ws| - 1;
    if t <= n {
      PresenceUnwinds(ws[..n], init, t, Undo(ws[n], Left(ws[..n], init), now));
      assert ws[..n][..t] == ws[..t];
    } else {
      assert ws[..t] == ws;
    }
  }

  /** If the name was absent at first, its first writer created it and undoing that clears it whatever happened. */
  lemma {:induction false} AbsentUnwinds(ws: seq<Service>, now: Held)
    requires Legal(ws, None) && ws != []
    ensures UndoDown(ws, None, 0, now) == None
    decreases |ws|
  {
    var n := |ws| - 1;
    if n > 0 {
      AbsentUnwinds(ws[..n], Undo(ws[n], Left(ws[..n], None), now));
    }
  }

  predicate AnyDelete(ws: seq<Service>) {
    exists i :: 0 <= i < |ws| && ws[i].action == Delete
  }

  /**
    From an absent name the unwinding brings nothing back but what the first undone deletion restores; then it
    is exact.
   */
  lemma {:induction false} AbsenceUnwinds(ws: seq<Service>, init: Held, t: nat)
    requires Legal(ws, init) && t <= |ws|
    ensures UndoDown(ws, init, t, None) == if AnyDelete(ws[t..]) then Left(ws[..t], init) else None
    decreases |ws|
  {
    var n := |ws| - 1;
    if t <= n {
      var front, w := ws[..n], ws[n];
      assert ws[t..] == front[t..] + [w] && front[..t] == ws[..t];
      if w.action == Delete {
        assert ws[t..][n - t] == w;
        UnwindsExactly(front, init, t);
      } else {
        AbsenceUnwinds(front, init, t);
        assert AnyDelete(front[t..]) ==> AnyDelete(ws[t..]) by {
          if i :| 0 <= i < |front[t..]| && front[t..][i].action == Delete {
            assert ws[t..][i].action == Delete;
          }
        }
      }
    } else {
      assert ws[..t] == ws;
    }
  }

  /** An object put back out of turn either survives all deletions undone below or is corrected on the way. */
  lemma {:induction false} StrayUnwinds(ws: seq<Service>, init: Held, stray: Held)
    requires Legal(ws, init) && init.Some? && stray.Some?
    ensures UndoDown(ws, init, 0, stray) == init || UndoDown(ws, init, 0, stray) == stray
    ensures ws != [] && ws[0].action == Put ==> UndoDown(ws, init, 0, stray) == init
    decreases |ws|
  {
    var n := |ws| - 1;
    if ws != [] {
      if ws[n].action == Delete {
        StrayUnwinds(ws[..n], init, stray);
      } else {
        UnwindsExactly(ws[..n], init, 0);
        assert ws[..n][..0] == [];
      }
    }
  }

  // ---- all interleavings ----------------------------------------------------------------

  /** The failed call left the name as it found it, or took full effect. */
  predicate Failing(ws: seq<Service>, w: Service, init: Held, now: Held) {
    now == Left(ws, init) || now == Target(w)
  }

  /** What the name may hold when the unwinding is down at `m` and `w` is not rolled back yet. */
  ghost predicate Pending(ws: seq<Service>, w: Service, init: Held, m: nat, held: Held) {
    exists now :: Failing(ws, w, init, now) && held == UndoDown(ws, init, m, now)
  }

  /** What it may hold there once `w` has been rolled back, at any moment before. */
  ghost predicate RolledBack(ws: seq<Service>, w: Service, init: Held, m: nat, held: Held) {
    exists t: nat, now :: m <= t <= |ws| && Failing(ws, w, init, now) && held == CutIn(ws, w, init, t, m, now)
  }

  lemma PendingStep(ws: seq<Service>, w: Service, init: Held, m: nat, held: Held)
    requires 0 < m <= |ws| && Pending(ws, w, init, m, held)
    ensures Pending(ws, w, init, m - 1, Undo(ws[m - 1], Left(ws[..m - 1], init), held))
  {
    var now :| Failing(ws, w, init, now) && held == UndoDown(ws, init, m, now);
    UndoDownStep(ws, init, m, now);
  }

  lemma PendingEnds(ws: seq<Service>, w: Service, init: Held, m: nat, held: Held)
    requires m <= |ws| && Pending(ws, w, init, m, held)
    ensures RolledBack(ws, w, init, m, Undo(w, Left(ws, init), held))
  {
    var now :| Failing(ws, w, init, now) && held == UndoDown(ws, init, m, now);
    assert CutIn(ws, w, init, m, m, now) == Undo(w, Left(ws, init), held);
  }

  lemma RolledBackStep(ws: seq<Service>, w: Service, init: Held, m: nat, held: Held)
    requires 0 < m <= |ws| && RolledBack(ws, w, init, m, held)
    ensures RolledBack(ws, w, init, m - 1, Undo(ws[m - 1], Left(ws[..m - 1], init), held))
  {
    var t: nat, now :| m <= t <= |ws| && Failing(ws, w, init, now) && held == CutIn(ws, w, init, t, m, now);
    UndoDownStep(ws[..t], init, m, Undo(w, Left(ws, init), UndoDown(ws, init, t, now)));
    assert ws[..t][..m - 1] == ws[..m - 1];
    assert CutIn(ws, w, init, t, m - 1, now) == Undo(ws[m - 1], Left(ws[..m - 1], init), held);
  }

  // ---- when a shared name recovers ------------------------------------------------------

  /**
    When a name written by earlier stages and by `w` of the failing one is restored in every
    interleaving: what was there at first, what the earlier stages left, and the kinds of the writers
    decide.
   */
  predicate Recovers(ws: seq<Service>, w: Service, init: Held) {
    ws == []
    || (match w.action
        case Post => init.None?
        case Put => init.None? || Left(ws, init) == init
        case Delete => init.Some? && (Left(ws, init) == init || (ws[0].action == Put && AnyDelete(ws)))
        case _ => true)
  }

  ghost predicate AlwaysRestored(ws: seq<Service>, w: Service, init: Held) {
    forall t: nat, now :: t <= |ws| && Failing(ws, w, init, now) ==> Overtaken(ws, w, init, t, now) == init
  }

  lemma CreationRecovers(ws: seq<Service>, w: Service, init: Held, t: nat, now: Held)
    requires Legal(ws, init) && ws != [] && t <= |ws| && (w.action == Post || w.action == Put) && init.None?
    ensures Overtaken(ws, w, init, t, now) == None
  {
    LegalPrefix(ws, init, t);
    if t > 0 {
      AbsentUnwinds(ws[..t], Undo(w, Left(ws, init), UndoDown(ws, init, t, now)));
    } else {
      AbsentUnwinds(ws, now);
    }
  }

  lemma UpdateRecovers(ws: seq<Service>, w: Service, init: Held, t: nat, now: Held)
    requires Legal(ws, init) && ws != [] && t <= |ws| && w.action == Put && now.Some?
    requires init.Some? && Left(ws, init) == init
    ensures Overtaken(ws, w, init, t, now) == init
  {
    PresenceUnwinds(ws, init, t, now);
    LegalPrefix(ws, init, t);
    PresenceUnwinds(ws[..t], init, 0, Undo(w, init, UndoDown(ws, init, t, now)));
  }

  lemma DeletionRecovers(ws: seq<Service>, w: Service, init: Held, t: nat, now: Held)
    requires Legal(ws, init) && ws != [] && t <= |ws| && w.action == Delete && Left(ws, init).Some?
    requires Recovers(ws, w, init) && Failing(ws, w, init, now)
    ensures Overtaken(ws, w, init, t, now) == init
  {
    var left := Left(ws, init);
    var before := UndoDown(ws, init, t, now);
    LegalPrefix(ws, init, t);
    UnwindsExactly(ws, init, t);
    AbsenceUnwinds(ws, init, t);
    assert before == None || before == Left(ws[..t], init);
    UnwindsExactly(ws[..t], init, 0);
    assert ws[..t][..0] == [] && ws[0..] == ws;
    if before.None? {
      StrayUnwinds(ws[..t], init, left);
    }
  }

  /** The ways it goes wrong otherwise. */
  lemma Fails(ws: seq<Service>, w: Service, init: Held) returns (t: nat)
    requires Legal(ws, init) && ws != [] && Writes(w).Some? && Passes(w, Left(ws, init)) && !Recovers(ws, w, init)
    ensures t <= |ws|
    ensures Overtaken(ws, w, init, t, Target(w)) != init
  {
    assert ws[..0] == [] && ws[0..] == ws;
    LegalPrefix(ws, init, 0);
    if w.action == Delete && init.Some? && ws[0].action == Delete {
      t := 1;
      AbsenceUnwinds(ws, init, 1);
      assert ws[..1] == [ws[0]] && ws[..1][..0] == [];
      assert UndoDown(ws[..1], init, 0, Left(ws, init)) == Left(ws, init);
    } else {
      t := 0;
      if w.action == Delete {
        AbsenceUnwinds(ws, init, 0);
      } else if w.action == Put {
        PresenceUnwinds(ws, init, 0, Target(w));
      }
    }
  }

  /** Every interleaving restores the name if and only if it recovers. */
  lemma RestoredIffRecovers(ws: seq<Service>, w: Service, init: Held)
    requires Legal(ws, init) && Writes(w).Some? && Passes(w, Left(ws, init))
    ensures AlwaysRestored(ws, w, init) <==> Recovers(ws, w, init)
  {
    if Recovers(ws, w, init) {
      forall t: nat, now | t <= |ws| && Failing(ws, w, init, now) ensures Overtaken(ws, w, init, t, now) == init {
        if ws != [] {
          if init.None? {
            CreationRecovers(ws, w, init, t, now);
          } else if w.action == Put {
            UpdateRecovers(ws, w, init, t, now);
          } else {
            DeletionRecovers(ws, w, init, t, now);
          }
        }
      }
    } else {
      var t := Fails(ws, w, init);
      assert Failing(ws, w, init, Target(w));
    }
  }
}
