/**
  When exactly a failed RUN is compensated (`CallServices` and `CallStagedServices` in
  `pkg/orchestration/api_service.go`): Saga proves that recoverable names are restored by every
  schedule; here a schedule is built that fails for any other name.
 */
module Compensation {
  import opened Maybe
  import opened RestServices
  import opened Undoing
  import opened Saga

  // ---- schedules ------------------------------------------------------------------------

  lemma First(cfg: Config, s: State, step: Step, rest: seq<Step>)
    requires Shaped(cfg, s) && Enabled(cfg, s, step) && Schedule(cfg, Next(cfg, s, step), rest)
    ensures Schedule(cfg, s, [step] + rest)
    ensures Outcome(cfg, s, [step] + rest) == Outcome(cfg, Next(cfg, s, step), rest)
  {
    assert ([step] + rest)[1..] == rest;
  }

  lemma {:induction false} Then(cfg: Config, s: State, a: seq<Step>, b: seq<Step>)
    requires Shaped(cfg, s) && Schedule(cfg, s, a) && Schedule(cfg, Outcome(cfg, s, a), b)
    ensures Schedule(cfg, s, a + b) && Outcome(cfg, s, a + b) == Outcome(cfg, Outcome(cfg, s, a), b)
    decreases |a|
  {
    hide Next, Enabled;
    if a == [] {
      assert a + b == b;
    } else {
      var s', rest := Next(cfg, s, a[0]), a[1..];
      assert Schedule(cfg, s', rest) && Outcome(cfg, s', rest) == Outcome(cfg, s, a);
      Then(cfg, s', rest, b);
      First(cfg, s, a[0], rest + b);
      assert [a[0]] + (rest + b) == a + b;
    }
  }

  // ---- a failing RUN --------------------------------------------------------------------

  lemma RunElsewhere(s: Service, st: Store, fault: Fault, n: string)
    requires Writes(s) != Some(n)
    ensures Lookup(RunStore(s, st, fault), n) == Lookup(st, n)
  {}

  lemma RunTakesEffect(s: Service, base: Store, st: Store, n: string)
    requires NamesMatch(s) && Writes(s) == Some(n) && CheckError(s, base).None? && Lookup(st, n) == Lookup(base, n)
    ensures Lookup(RunStore(s, st, LostAfter), n) == Target(s)
  {}

  /** The rest of a RUN that has already failed, away from one name. */
  lemma {:induction false} RunOthers(cfg: Config, s: State, n: string) returns (steps: seq<Step>)
    requires Shaped(cfg, s) && s.phase.Running? && s.anyErr
    requires forall k :: k in s.phase.todo ==> Writes(cfg.stages[s.stage][k]) != Some(n)
    ensures Schedule(cfg, s, steps)
    ensures
      var e := Outcome(cfg, s, steps);
      e == s.(store := e.store, phase := Running({})) && Lookup(e.store, n) == Lookup(s.store, n)
    decreases |s.phase.todo|
  {
    if s.phase.todo == {} {
      return [];
    }
    var k :| k in s.phase.todo;
    var s' := Next(cfg, s, RunTask(k, Clean));
    RunElsewhere(cfg.stages[s.stage][k], s.store, Clean, n);
    var rest := RunOthers(cfg, s', n);
    First(cfg, s, RunTask(k, Clean), rest);
    steps := [RunTask(k, Clean)] + rest;
  }

  // ---- the rollbacks --------------------------------------------------------------------

  /** All of the failing stage's own rollbacks. */
  lemma {:induction false} OwnAll(cfg: Config, s: State, base: Store, n: string) returns (steps: seq<Step>)
    requires WellFormed(cfg) && Shaped(cfg, s) && s.phase.Returned? && s.stage < |cfg.stages|
    requires AllPrepared(cfg.stages[s.stage], s.stage, base, s.backup)
    ensures Schedule(cfg, s, steps)
    ensures
      var e, k := Outcome(cfg, s, steps), Writer(cfg.stages[s.stage], n);
      && e == s.(store := e.store, own := {})
      && Lookup(e.store, n) == if k.Some? && k.value in s.own
         then Undo(cfg.stages[s.stage][k.value], Lookup(base, n), Lookup(s.store, n)) else Lookup(s.store, n)
    decreases |s.own|
  {
    if s.own == {} {
      return [];
    }
    var q :| q in s.own;
    var s' := Next(cfg, s, OwnRollbackTask(q));
    RollbackOne(cfg.stages[s.stage][q], base, BackupOf(s.backup, s.stage, q), s.store, n);
    OnlyWriter(cfg.stages[s.stage], q, n);
    var rest := OwnAll(cfg, s', base, n);
    First(cfg, s, OwnRollbackTask(q), rest);
    steps := [OwnRollbackTask(q)] + rest;
  }

  /** All rollbacks of the earlier stage the unwinding is at. */
  lemma {:induction false} EarlierAll(cfg: Config, s: State, base: Store, n: string) returns (steps: seq<Step>)
    requires WellFormed(cfg) && Shaped(cfg, s) && s.phase.Returned? && s.earlier.At?
    requires AllPrepared(cfg.stages[s.earlier.j], s.earlier.j, base, s.backup)
    ensures Schedule(cfg, s, steps)
    ensures
      var e, k := Outcome(cfg, s, steps), Writer(cfg.stages[s.earlier.j], n);
      && e == s.(store := e.store, earlier := At(s.earlier.j, {}))
      && Lookup(e.store, n) == if k.Some? && k.value in s.earlier.todo
         then Undo(cfg.stages[s.earlier.j][k.value], Lookup(base, n), Lookup(s.store, n)) else Lookup(s.store, n)
    decreases |s.earlier.todo|
  {
    if s.earlier.todo == {} {
      return [];
    }
    var j := s.earlier.j;
    var q :| q in s.earlier.todo;
    var s' := Next(cfg, s, EarlierRollbackTask(q));
    RollbackOne(cfg.stages[j][q], base, BackupOf(s.backup, j, q), s.store, n);
    OnlyWriter(cfg.stages[j], q, n);
    var rest := EarlierAll(cfg, s', base, n);
    First(cfg, s, EarlierRollbackTask(q), rest);
    steps := [EarlierRollbackTask(q)] + rest;
  }

  /** The unwinding from stage `j` down to stage `t`. */
  lemma {:induction false} UnwindTo(cfg: Config, init: Store, s: State, j: nat, t: nat, n: string)
    returns (steps: seq<Step>)
    requires WellFormed(cfg) && History(cfg, init, s) && s.phase.Returned? && t <= j <= s.stage
    requires s.earlier == UnwindFrom(cfg, j)
    ensures Schedule(cfg, s, steps)
    ensures
      var e := Outcome(cfg, s, steps);
      && e == s.(store := e.store, earlier := UnwindFrom(cfg, t))
      && Lookup(e.store, n) == UndoDown(WritersOf(cfg.stages[..j], n), Lookup(init, n),
                                        |WritersOf(cfg.stages[..t], n)|, Lookup(s.store, n))
    decreases j
  {
    WritersPrefix(cfg.stages, t, j, n);
    if j == t {
      return [];
    }
    var all := EarlierAll(cfg, s, s.entry[j - 1], n);
    var s1 := Outcome(cfg, s, all);
    var s2 := Next(cfg, s1, EarlierNextStage);
    assert History(cfg, init, s2);
    var rest := UnwindTo(cfg, init, s2, j - 1, t, n);
    First(cfg, s1, EarlierNextStage, rest);
    Then(cfg, s, all, [EarlierNextStage] + rest);
    steps := all + ([EarlierNextStage] + rest);
    EntryIsLeft(cfg, init, s, j - 1, n);
    WritersNext(cfg.stages, j - 1, n);
    WritersPrefix(cfg.stages, t, j - 1, n);
    UndoDownLast(cfg.stages, Lookup(init, n), j, |WritersOf(cfg.stages[..t], n)|, Lookup(s.store, n), n);
  }

  lemma UndoDownLast(stages: seq<seq<Service>>, init: Held, j: nat, m: nat, now: Held, n: string)
    requires 0 < j <= |stages| && m <= |WritersOf(stages[..j - 1], n)|
    ensures
      var front, k := WritersOf(stages[..j - 1], n), Writer(stages[j - 1], n);
      UndoDown(WritersOf(stages[..j], n), init, m, now)
        == UndoDown(front, init, m, if k.Some? then Undo(stages[j - 1][k.value], Left(front, init), now) else now)
  {
    WritersNext(stages, j - 1, n);
    var front, k := WritersOf(stages[..j - 1], n), Writer(stages[j - 1], n);
    if k.Some? {
      assert (front + [stages[j - 1][k.value]])[..|front|] == front;
    } else {
      assert front + [] == front;
    }
  }

  // ---- a run for every interleaving -----------------------------------------------------

  /** The RUN calls of stage `i` are about to start. */
  ghost predicate RunsBegin(cfg: Config, init: Store, steps: seq<Step>, i: nat) {
    && i < |cfg.stages| && Schedule(cfg, Start(cfg, init), steps)
    && var s := Outcome(cfg, Start(cfg, init), steps);
       s.stage == i && s.phase == Running(Indices(cfg.stages[i]))
  }

  /** From there: the call writing `n` is lost after it took effect, and the RUN fails. */
  lemma LoseOne(cfg: Config, init: Store, s: State, n: string) returns (steps: seq<Step>)
    requires WellFormed(cfg) && !cfg.dryRun && !cfg.skipRollback && Inv(cfg, init, s)
    requires s.stage < |cfg.stages| && s.phase == Running(Indices(cfg.stages[s.stage]))
    requires Writer(cfg.stages[s.stage], n).Some?
    ensures Schedule(cfg, s, steps)
    ensures
      var e, stage := Outcome(cfg, s, steps), cfg.stages[s.stage];
      && e.phase == Returned(RunFailed) && e.stage == s.stage && History(cfg, init, e)
      && AllPrepared(stage, s.stage, e.entry[s.stage], e.backup)
      && e.own == Indices(stage) && e.earlier == UnwindFrom(cfg, s.stage)
      && Lookup(e.store, n) == Target(stage[Writer(stage, n).value])
  {
    var stage := cfg.stages[s.stage];
    var k := Writer(stage, n).value;
    var lose := RunTask(k, LostAfter);
    RunTakesEffect(stage[k], s.entry[s.stage], s.store, n);
    var s1 := Next(cfg, s, lose);
    forall q | q in s1.phase.todo ensures Writes(stage[q]) != Some(n) {
      OnlyWriter(stage, q, n);
    }
    var others := RunOthers(cfg, s1, n);
    var s2 := Outcome(cfg, s1, others);
    First(cfg, s2, EndRun, []);
    Then(cfg, s1, others, [EndRun] + []);
    First(cfg, s, lose, others + ([EndRun] + []));
    steps := [lose] + (others + ([EndRun] + []));
    assert History(cfg, init, Outcome(cfg, s, steps));
  }

  lemma OvertakenAt(stages: seq<seq<Service>>, i: nat, t: nat, w: Service, was: Held, now: Held, n: string)
    requires t <= i <= |stages|
    ensures
      var ws, below := WritersOf(stages[..i], n), WritersOf(stages[..t], n);
      && |below| <= |ws|
      && Overtaken(ws, w, was, |below|, now)
         == UndoDown(below, was, 0, Undo(w, Left(ws, was), UndoDown(ws, was, |below|, now)))
  {
    WritersPrefix(stages, t, i, n);
    assert WritersOf(stages[..i], n)[..|WritersOf(stages[..t], n)|] == WritersOf(stages[..t], n);
  }

  /** The unwinding comes down to stage `t`, then the failing stage's own rollbacks happen. */
  lemma CutInAt(cfg: Config, init: Store, s: State, t: nat, n: string) returns (steps: seq<Step>)
    requires WellFormed(cfg) && s.stage < |cfg.stages| && t <= s.stage && History(cfg, init, s)
    requires s.phase == Returned(RunFailed) && s.earlier == UnwindFrom(cfg, s.stage)
    requires s.own == Indices(cfg.stages[s.stage]) && Writer(cfg.stages[s.stage], n).Some?
    requires AllPrepared(cfg.stages[s.stage], s.stage, s.entry[s.stage], s.backup)
    ensures Schedule(cfg, s, steps)
    ensures
      var e, k := Outcome(cfg, s, steps), Writer(cfg.stages[s.stage], n).value;
      var ws, m := WritersOf(cfg.stages[..s.stage], n), |WritersOf(cfg.stages[..t], n)|;
      && e == s.(store := e.store, own := {}, earlier := UnwindFrom(cfg, t))
      && Lookup(e.store, n) == Undo(cfg.stages[s.stage][k], Left(ws, Lookup(init, n)),
                                    UndoDown(ws, Lookup(init, n), m, Lookup(s.store, n)))
  {
    var down := UnwindTo(cfg, init, s, s.stage, t, n);
    var s1 := Outcome(cfg, s, down);
    var own := OwnAll(cfg, s1, s.entry[s.stage], n);
    Then(cfg, s, down, own);
    steps := down + own;
    EntryIsLeft(cfg, init, s, s.stage, n);
  }

  /** All rollbacks after a failed RUN, its own ones when the unwinding is down at stage `t`. */
  lemma RollBackAt(cfg: Config, init: Store, s: State, t: nat, n: string) returns (steps: seq<Step>)
    requires WellFormed(cfg) && s.stage < |cfg.stages| && t <= s.stage && History(cfg, init, s)
    requires s.phase == Returned(RunFailed) && s.earlier == UnwindFrom(cfg, s.stage)
    requires s.own == Indices(cfg.stages[s.stage]) && Writer(cfg.stages[s.stage], n).Some?
    requires AllPrepared(cfg.stages[s.stage], s.stage, s.entry[s.stage], s.backup)
    ensures Schedule(cfg, s, steps)
    ensures
      var e, k := Outcome(cfg, s, steps), Writer(cfg.stages[s.stage], n).value;
      var ws, m := WritersOf(cfg.stages[..s.stage], n), |WritersOf(cfg.stages[..t], n)|;
      && e == s.(store := e.store, own := {}, earlier := Idle) && m <= |ws|
      && Lookup(e.store, n) == Overtaken(ws, cfg.stages[s.stage][k], Lookup(init, n), m, Lookup(s.store, n))
  {
    var first := CutInAt(cfg, init, s, t, n);
    var s1 := Outcome(cfg, s, first);
    assert History(cfg, init, s1);
    var rest := UnwindTo(cfg, init, s1, t, 0, n);
    Then(cfg, s, first, rest);
    steps := first + rest;
    var w := cfg.stages[s.stage][Writer(cfg.stages[s.stage], n).value];
    OvertakenAt(cfg.stages, s.stage, t, w, Lookup(init, n), Lookup(s.store, n), n);
    assert WritersOf(cfg.stages[..0], n) == [];
  }

  /** Every way the two rollback goroutines can overtake each other on one name happens in some run. */
  lemma RunFor(cfg: Config, init: Store, reach: seq<Step>, i: nat, n: string, t: nat) returns (steps: seq<Step>)
    requires WellFormed(cfg) && !cfg.dryRun && !cfg.skipRollback && RunsBegin(cfg, init, reach, i)
    requires Writer(cfg.stages[i], n).Some? && t <= i
    ensures RunFailsAt(cfg, init, steps, i)
    ensures
      var ws, was, w := WritersOf(cfg.stages[..i], n), Lookup(init, n), cfg.stages[i][Writer(cfg.stages[i], n).value];
      && |WritersOf(cfg.stages[..t], n)| <= |ws|
      && Lookup(Outcome(cfg, Start(cfg, init), steps).store, n)
         == Overtaken(ws, w, was, |WritersOf(cfg.stages[..t], n)|, Target(w))
  {
    StartKeeps(cfg, init);
    OutcomeKeeps(cfg, init, Start(cfg, init), reach);
    var s := Outcome(cfg, Start(cfg, init), reach);
    var run := LoseOne(cfg, init, s, n);
    var rest := RollBackAt(cfg, init, Outcome(cfg, s, run), t, n);
    Then(cfg, s, run, rest);
    Then(cfg, Start(cfg, init), reach, run + rest);
    steps := reach + (run + rest);
  }

  lemma {:induction false} StageOfLevel(stages: seq<seq<Service>>, i: nat, n: string, t: nat) returns (j: nat)
    requires i <= |stages| && t <= |WritersOf(stages[..i], n)|
    ensures j <= i && |WritersOf(stages[..j], n)| == t
  {
    if t == |WritersOf(stages[..i], n)| {
      return i;
    }
    WritersNext(stages, i - 1, n);
    j := StageOfLevel(stages, i - 1, n, t);
  }

  // ---- the exact condition --------------------------------------------------------------

  ghost predicate Reached(cfg: Config, init: Store, i: nat) {
    exists steps :: RunsBegin(cfg, init, steps, i)
  }

  /** Every run that fails in a RUN of stage `i` ends in the initial store. */
  ghost predicate Compensates(cfg: Config, init: Store, i: nat) {
    forall steps :: RunFailsAt(cfg, init, steps, i) ==> Outcome(cfg, Start(cfg, init), steps).store == init
  }

  /**
    A name that is not recoverable is lost in some run: one call lost after its effect, one goroutine
    overtaking the other.
   */
  lemma OverlapBreaksCompensation(cfg: Config, init: Store, i: nat, n: string) returns (steps: seq<Step>)
    requires WellFormed(cfg) && !cfg.dryRun && !cfg.skipRollback && Reached(cfg, init, i)
    requires i < |cfg.stages| && !Recoverable(cfg, init, i, n)
    ensures RunFailsAt(cfg, init, steps, i)
    ensures Lookup(Outcome(cfg, Start(cfg, init), steps).store, n) != Lookup(init, n)
  {
    var reach :| RunsBegin(cfg, init, reach, i);
    var ws, w := WritersOf(cfg.stages[..i], n), cfg.stages[i][Writer(cfg.stages[i], n).value];
    var any := RunFor(cfg, init, reach, i, n, 0);
    RunFailureOutcome(cfg, init, any, i, n);
    var t := Fails(ws, w, Lookup(init, n));
    var j := StageOfLevel(cfg.stages, i, n, t);
    steps := RunFor(cfg, init, reach, i, n, j);
  }

  /**
    A failed RUN of stage `i` is compensated in every interleaving, whether each lost call took effect
    or not, if and only if the stage's RUN is never reached or all names are recoverable.
   */
  lemma CompensationExact(cfg: Config, init: Store, i: nat)
    requires WellFormed(cfg) && !cfg.dryRun && !cfg.skipRollback && i < |cfg.stages|
    ensures Compensates(cfg, init, i) <==> (Reached(cfg, init, i) ==> forall n :: Recoverable(cfg, init, i, n))
  {
    if Reached(cfg, init, i) && !forall n :: Recoverable(cfg, init, i, n) {
      var n :| !Recoverable(cfg, init, i, n);
      var steps := OverlapBreaksCompensation(cfg, init, i, n);
      assert RunFailsAt(cfg, init, steps, i) && Outcome(cfg, Start(cfg, init), steps).store != init;
    }
    if Reached(cfg, init, i) ==> forall n :: Recoverable(cfg, init, i, n) {
      forall steps | RunFailsAt(cfg, init, steps, i) ensures Outcome(cfg, Start(cfg, init), steps).store == init {
        FailureWasReached(cfg, init, steps, i);
        forall n ensures Lookup(Outcome(cfg, Start(cfg, init), steps).store, n) == Lookup(init, n) {
          RecoverableNamesRestored(cfg, init, steps, i, n);
        }
        SameLookups(Outcome(cfg, Start(cfg, init), steps).store, init);
      }
    }
  }

  /** Once returned, the calling goroutine's result stands. */
  lemma {:induction false} ReturnStands(cfg: Config, s: State, steps: seq<Step>)
    requires Shaped(cfg, s) && Schedule(cfg, s, steps) && s.phase.Returned?
    ensures Outcome(cfg, s, steps).phase == s.phase && Outcome(cfg, s, steps).stage == s.stage
    decreases |steps|
  {
    if steps != [] {
      ReturnStands(cfg, Next(cfg, s, steps[0]), steps[1..]);
    }
  }

  predicate BeforeRunsOf(s: State, i: nat) {
    s.phase.Checking? || (s.phase.Running? && s.stage != i)
  }

  /** A run on its way to a RUN failure of stage `i` passes the start of its RUN calls. */
  lemma {:induction false} PassesStart(cfg: Config, s: State, steps: seq<Step>, i: nat) returns (p: nat)
    requires Shaped(cfg, s) && Schedule(cfg, s, steps) && BeforeRunsOf(s, i) && i < |cfg.stages|
    requires Outcome(cfg, s, steps).phase == Returned(RunFailed) && Outcome(cfg, s, steps).stage == i
    ensures p <= |steps| && Schedule(cfg, s, steps[..p])
    ensures var e := Outcome(cfg, s, steps[..p]); e.stage == i && e.phase == Running(Indices(cfg.stages[i]))
    decreases |steps|
  {
    var s', rest := Next(cfg, s, steps[0]), steps[1..];
    if BeforeRunsOf(s', i) {
      p := PassesStart(cfg, s', rest, i);
    } else {
      if s'.phase.Returned? {
        ReturnStands(cfg, s', rest);
        assert false;
      }
      p := 0;
      assert rest[..0] == [];
    }
    First(cfg, s, steps[0], rest[..p]);
    assert [steps[0]] + rest[..p] == steps[..p + 1];
    p := p + 1;
  }

  lemma FailureWasReached(cfg: Config, init: Store, steps: seq<Step>, i: nat)
    requires RunFailsAt(cfg, init, steps, i) && i < |cfg.stages|
    ensures Reached(cfg, init, i)
  {
    var start := Start(cfg, init);
    if start.phase.Returned? {
      ReturnStands(cfg, start, steps);
    } else {
      var p := PassesStart(cfg, start, steps, i);
      assert RunsBegin(cfg, init, steps[..p], i);
    }
  }

  // ---- the condition can fail -----------------------------------------------------------

  const FIRST_UPDATE := Service(Put, "a", Object("a", 1))
  const SECOND_UPDATE := Service(Put, "a", Object("a", 2))
  const OVERLAPPING := Config([[FIRST_UPDATE], [SECOND_UPDATE]], false, false)

  function Holding(o: Object): Store {
    map[o.name := o]
  }

  /** One update of "a" passes its check and runs cleanly; `rest` follows from the next stage on. */
  lemma OneUpdate(s: State, s': State, rest: seq<Step>)
    requires Shaped(OVERLAPPING, s) && Shaped(OVERLAPPING, s') && Schedule(OVERLAPPING, s', rest)
    requires s == State(Holding(Object("a", 0)), 0, Checking({0}), false, map[], {}, Idle, [Holding(Object("a", 0))])
    requires s' == State(Holding(Object("a", 1)), 1, Checking({0}), false, map[(0, 0) := Object("a", 0)], {}, Idle,
                         s.entry + [Holding(Object("a", 1))])
    ensures
      var steps := [CheckTask(0)] + ([EndCheck] + ([RunTask(0, Clean)] + ([EndRun] + rest)));
      Schedule(OVERLAPPING, s, steps) && Outcome(OVERLAPPING, s, steps) == Outcome(OVERLAPPING, s', rest)
  {
    assert Below(1) == {0};
    var s1 := Next(OVERLAPPING, s, CheckTask(0));
    assert s1.phase == Checking({}) && !s1.anyErr && s1.backup == s'.backup;
    var s2 := Next(OVERLAPPING, s1, EndCheck);
    assert s2.phase == Running({0});
    var s3 := Next(OVERLAPPING, s2, RunTask(0, Clean));
    assert s3.phase == Running({}) && !s3.anyErr && s3.store == s'.store;
    assert Next(OVERLAPPING, s3, EndRun) == s';
    First(OVERLAPPING, s3, EndRun, rest);
    First(OVERLAPPING, s2, RunTask(0, Clean), [EndRun] + rest);
    First(OVERLAPPING, s1, EndCheck, [RunTask(0, Clean)] + ([EndRun] + rest));
    First(OVERLAPPING, s, CheckTask(0), [EndCheck] + ([RunTask(0, Clean)] + ([EndRun] + rest)));
  }

  /** The check of the second update passes and its RUN is about to start. */
  lemma OneCheck(s: State)
    requires Shaped(OVERLAPPING, s) && s.stage == 1 && s.phase == Checking({0}) && !s.anyErr
    requires s.store == Holding(Object("a", 1))
    ensures Schedule(OVERLAPPING, s, [CheckTask(0)] + ([EndCheck] + []))
    ensures
      var e := Outcome(OVERLAPPING, s, [CheckTask(0)] + ([EndCheck] + []));
      e.stage == 1 && e.phase == Running({0})
  {
    assert Below(1) == {0};
    var checked := Next(OVERLAPPING, s, CheckTask(0));
    assert checked.phase == Checking({}) && !checked.anyErr;
    First(OVERLAPPING, checked, EndCheck, []);
    First(OVERLAPPING, s, CheckTask(0), [EndCheck] + []);
  }

  lemma OverlapReached()
    ensures Reached(OVERLAPPING, Holding(Object("a", 0)), 1)
  {
    var init := Holding(Object("a", 0));
    assert Below(1) == {0};
    var start := Start(OVERLAPPING, init);
    assert start == State(init, 0, Checking({0}), false, map[], {}, Idle, [init]);
    var second := State(Holding(Object("a", 1)), 1, Checking({0}), false, map[(0, 0) := Object("a", 0)], {}, Idle,
                        [init] + [Holding(Object("a", 1))]);
    var rest := [CheckTask(0)] + ([EndCheck] + []);
    OneCheck(second);
    OneUpdate(start, second, rest);
    assert RunsBegin(OVERLAPPING, init, [CheckTask(0)] + ([EndCheck] + ([RunTask(0, Clean)] + ([EndRun] + rest))), 1);
  }

  /** Two stages that update one name: the second one's RUN is reached, and its name is not recoverable. */
  lemma OverlapIsReal()
    ensures WellFormed(OVERLAPPING) && Reached(OVERLAPPING, Holding(Object("a", 0)), 1)
    ensures !Recoverable(OVERLAPPING, Holding(Object("a", 0)), 1, "a")
  {
    OverlapReached();
    assert OVERLAPPING.stages[..1] == [[FIRST_UPDATE]] && [[FIRST_UPDATE]][..0] == [];
    assert [FIRST_UPDATE][..0] == [] && WritersOf([[FIRST_UPDATE]], "a") == [FIRST_UPDATE];
  }
}
