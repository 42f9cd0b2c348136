/**
  A staged run of REST services as a transition system (`CallServices` and `CallStagedServices` in
  `pkg/orchestration/api_service.go`). The tasks of one action run concurrently, so a step performs
  any one task still to do; the two rollback goroutines of a failed run interleave freely. A list of
  steps is a schedule: it fixes the interleaving and the fault of every RUN call.
 */
module Saga {
  import opened Maybe
  import opened RestServices
  import opened Undoing

  datatype Config = Config(stages: seq<seq<Service>>, skipRollback: bool, dryRun: bool)

  datatype Failure = NoFailure | CheckFailed | RunFailed

  datatype Phase =
    | Checking(todo: set<nat>)
    | Running(todo: set<nat>)
    | Returned(failure: Failure)

  /** The goroutine that unwinds earlier stages: finished, or working on stage `j`. */
  datatype Unwind = Idle | At(j: nat, todo: set<nat>)

  /**
    `stage` and `phase` belong to the calling goroutine, `own` is the rollback of the failing stage
    still to do, `earlier` the reverse loop over the stages before it. `entry` is a history: the
    store each stage found.
   */
  datatype State = State(
    store: Store,
    stage: nat,
    phase: Phase,
    anyErr: bool,
    backup: map<(nat, nat), Object>,
    own: set<nat>,
    earlier: Unwind,
    entry: seq<Store>)

  datatype Step =
    | CheckTask(k: nat)
    | EndCheck
    | RunTask(k: nat, fault: Fault)
    | EndRun
    | OwnRollbackTask(k: nat)
    | EarlierRollbackTask(k: nat)
    | EarlierNextStage

  function Below(n: nat): (s: set<nat>)
    ensures forall k: nat :: k in s <==> k < n
  {
    if n == 0 then {} else Below(n - 1) + {n - 1}
  }

  function Indices(stage: seq<Service>): set<nat> {
    Below(|stage|)
  }

  function BackupOf(b: map<(nat, nat), Object>, i: nat, k: nat): Option<Object> {
    if (i, k) in b then Some(b[(i, k)]) else None
  }

  function SetBackup(b: map<(nat, nat), Object>, i: nat, k: nat, v: Option<Object>): map<(nat, nat), Object> {
    if v.Some? then b[(i, k) := v.value] else b - {(i, k)}
  }

  /** Begin stage `i`, or return when there is none left. */
  function Enter(cfg: Config, s: State, i: nat): State {
    s.(stage := i,
       phase := if i < |cfg.stages| then Checking(Indices(cfg.stages[i])) else Returned(NoFailure),
       anyErr := false,
       entry := s.entry + [s.store])
  }

  function Start(cfg: Config, store: Store): State {
    Enter(cfg, State(store, 0, Returned(NoFailure), false, map[], {}, Idle, []), 0)
  }

  function UnwindFrom(cfg: Config, i: nat): Unwind
    requires i <= |cfg.stages|
  {
    if i == 0 then Idle else At(i - 1, Indices(cfg.stages[i - 1]))
  }

  /** Return an error: CallServices spawns its own stage's rollback after a RUN, the caller unwinds the rest. */
  function Fail(cfg: Config, s: State, failure: Failure): State
    requires s.stage < |cfg.stages|
  {
    var s := s.(phase := Returned(failure));
    if cfg.skipRollback then s
    else s.(own := if failure == RunFailed then Indices(cfg.stages[s.stage]) else {},
            earlier := UnwindFrom(cfg, s.stage))
  }

  predicate Shaped(cfg: Config, s: State) {
    && (!s.phase.Returned? ==> s.own == {} && s.earlier == Idle)
    && (!s.phase.Returned? || s.own != {} ==> s.stage < |cfg.stages|)
    && (s.phase.Checking? || s.phase.Running? ==> s.phase.todo <= Indices(cfg.stages[s.stage]))
    && (s.own != {} ==> s.own <= Indices(cfg.stages[s.stage]))
    && (s.earlier.At? ==> s.earlier.j < |cfg.stages| && s.earlier.todo <= Indices(cfg.stages[s.earlier.j]))
  }

  predicate Enabled(cfg: Config, s: State, step: Step)
    requires Shaped(cfg, s)
  {
    match step
    case CheckTask(k) => s.phase.Checking? && k in s.phase.todo
    case EndCheck => s.phase.Checking? && s.phase.todo == {}
    case RunTask(k, _) => s.phase.Running? && k in s.phase.todo
    case EndRun => s.phase.Running? && s.phase.todo == {}
    case OwnRollbackTask(k) => k in s.own
    case EarlierRollbackTask(k) => s.earlier.At? && k in s.earlier.todo
    case EarlierNextStage => s.earlier.At? && s.earlier.todo == {}
  }

  function Next(cfg: Config, s: State, step: Step): (s': State)
    requires Shaped(cfg, s) && Enabled(cfg, s, step)
    ensures Shaped(cfg, s')
  {
    match step
    case CheckTask(k) =>
      var svc := cfg.stages[s.stage][k];
      s.(backup := SetBackup(s.backup, s.stage, k, CheckBackup(svc, s.store, BackupOf(s.backup, s.stage, k))),
         anyErr := s.anyErr || CheckError(svc, s.store).Some?,
         phase := Checking(s.phase.todo - {k}))
    case EndCheck =>
      if s.anyErr then Fail(cfg, s, CheckFailed)
      else if cfg.dryRun then Enter(cfg, s, s.stage + 1)
      else s.(phase := Running(Indices(cfg.stages[s.stage])))
    case RunTask(k, fault) =>
      var svc := cfg.stages[s.stage][k];
      s.(store := RunStore(svc, s.store, fault),
         anyErr := s.anyErr || RunError(svc, s.store, fault).Some?,
         phase := Running(s.phase.todo - {k}))
    case EndRun =>
      if s.anyErr then Fail(cfg, s, RunFailed) else Enter(cfg, s, s.stage + 1)
    case OwnRollbackTask(k) =>
      s.(store := RollbackStore(cfg.stages[s.stage][k], BackupOf(s.backup, s.stage, k), s.store),
         own := s.own - {k})
    case EarlierRollbackTask(k) =>
      s.(store := RollbackStore(cfg.stages[s.earlier.j][k], BackupOf(s.backup, s.earlier.j, k), s.store),
         earlier := At(s.earlier.j, s.earlier.todo - {k}))
    case EarlierNextStage =>
      s.(earlier := UnwindFrom(cfg, s.earlier.j))
  }

  /** Every step of the schedule is enabled when it is taken. */
  predicate Schedule(cfg: Config, s: State, steps: seq<Step>)
    requires Shaped(cfg, s)
    decreases |steps|
  {
    steps == [] || (Enabled(cfg, s, steps[0]) && Schedule(cfg, Next(cfg, s, steps[0]), steps[1..]))
  }

  function Outcome(cfg: Config, s: State, steps: seq<Step>): (s': State)
    requires Shaped(cfg, s) && Schedule(cfg, s, steps)
    ensures Shaped(cfg, s')
    decreases |steps|
  {
    if steps == [] then s else Outcome(cfg, Next(cfg, s, steps[0]), steps[1..])
  }

  /** No goroutine has anything left to do. */
  predicate Quiescent(s: State) {
    s.phase.Returned? && s.own == {} && s.earlier == Idle
  }

  // ---- what the callers must provide ----------------------------------------------------

  ghost predicate StageWrites(stage: seq<Service>, n: string) {
    exists k :: 0 <= k < |stage| && Writes(stage[k]) == Some(n)
  }

  ghost predicate DistinctNames(stage: seq<Service>) {
    forall a, b :: 0 <= a < b < |stage| && Writes(stage[a]).Some? ==> Writes(stage[a]) != Writes(stage[b])
  }

  ghost predicate WellFormed(cfg: Config) {
    forall i :: 0 <= i < |cfg.stages| ==>
      DistinctNames(cfg.stages[i]) && forall k :: 0 <= k < |cfg.stages[i]| ==> NamesMatch(cfg.stages[i][k])
  }

  /** No earlier stage writes a name of stage `i`. */
  ghost predicate ApartFromEarlier(cfg: Config, i: nat)
    requires i < |cfg.stages|
  {
    forall m, n :: 0 <= m < i && StageWrites(cfg.stages[m], n) ==> !StageWrites(cfg.stages[i], n)
  }

  /** The service of a stage that writes a name. */
  function Writer(stage: seq<Service>, n: string): (k: Option<nat>)
    ensures k.Some? ==> k.value < |stage| && Writes(stage[k.value]) == Some(n)
    ensures k.None? ==> forall q :: 0 <= q < |stage| ==> Writes(stage[q]) != Some(n)
  {
    if stage == [] then None
    else
      var last := |stage| - 1;
      if Writes(stage[last]) == Some(n) then Some(last) else Writer(stage[..last], n)
  }

  /** The services that write a name, stage by stage. */
  function WritersOf(stages: seq<seq<Service>>, n: string): seq<Service> {
    if stages == [] then []
    else
      var last := stages[|stages| - 1];
      var k := Writer(last, n);
      WritersOf(stages[..|stages| - 1], n) + if k.Some? then [last[k.value]] else []
  }

  // ---- the invariant --------------------------------------------------------------------

  ghost predicate AllPrepared(stage: seq<Service>, i: nat, base: Store, backup: map<(nat, nat), Object>) {
    forall k: nat :: k < |stage| ==> Prepared(stage[k], base, BackupOf(backup, i, k))
  }

  /** A name the stage does not write is the same in both stores. */
  ghost predicate AgreeOutside(stage: seq<Service>, a: Store, b: Store) {
    forall n :: !StageWrites(stage, n) ==> Lookup(a, n) == Lookup(b, n)
  }

  ghost predicate Completed(stage: seq<Service>, before: Store, after: Store) {
    && AgreeOutside(stage, before, after)
    && forall k :: 0 <= k < |stage| && Writes(stage[k]).Some? ==>
         Lookup(after, Writes(stage[k]).value) == Target(stage[k])
  }

  /** RUN in progress: what is still to do is untouched, the rest took effect or was lost. */
  ghost predicate RunSoFar(stage: seq<Service>, todo: set<nat>, clean: bool, before: Store, store: Store) {
    && AgreeOutside(stage, before, store)
    && forall k: nat :: k < |stage| && Writes(stage[k]).Some? ==>
         var now := Lookup(store, Writes(stage[k]).value);
         var was := Lookup(before, Writes(stage[k]).value);
         && (k in todo ==> now == was)
         && (k !in todo ==> now == Target(stage[k]) || (!clean && now == was))
  }

  /** The failing stage's own writer of a name, while a failed RUN has it to roll back. */
  function OwnWriter(cfg: Config, s: State, n: string): Option<nat>
    requires s.stage < |cfg.stages|
  {
    if s.phase == Returned(RunFailed) then Writer(cfg.stages[s.stage], n) else None
  }

  /** The writers of a name in the stages before `j`, and in stage `j` while its own is to do. */
  function WritersLeft(stages: seq<seq<Service>>, j: nat, todo: set<nat>, n: string): seq<Service>
    requires j < |stages|
  {
    var k := Writer(stages[j], n);
    WritersOf(stages[..if k.Some? && k.value in todo then j + 1 else j], n)
  }

  /** How many of the earlier writers of a name are still to be undone. */
  function Level(cfg: Config, s: State, n: string): nat
    requires Shaped(cfg, s)
  {
    match s.earlier
    case Idle => 0
    case At(j, todo) => |WritersLeft(cfg.stages, j, todo, n)|
  }

  /** While a failed run is undone: what one name holds, given how far its rollbacks have come. */
  ghost predicate Undoes(cfg: Config, init: Store, s: State, n: string)
    requires Shaped(cfg, s) && s.stage < |cfg.stages|
  {
    var ws, was, now := WritersOf(cfg.stages[..s.stage], n), Lookup(init, n), Lookup(s.store, n);
    var m := Level(cfg, s, n);
    m <= |ws| &&
    match OwnWriter(cfg, s, n)
    case None => now == Left(ws[..m], was)
    case Some(k) =>
      var w := cfg.stages[s.stage][k];
      if k in s.own then Pending(ws, w, was, m, now) else RolledBack(ws, w, was, m, now)
  }

  ghost predicate History(cfg: Config, init: Store, s: State) {
    && Shaped(cfg, s)
    && s.stage <= |cfg.stages| && (s.stage == |cfg.stages| <==> s.phase == Returned(NoFailure))
    && |s.entry| == s.stage + 1 && s.entry[0] == init
    && forall m: nat :: m < s.stage ==>
         && AllPrepared(cfg.stages[m], m, s.entry[m], s.backup)
         && Completed(cfg.stages[m], s.entry[m], s.entry[m + 1])
  }

  ghost predicate Forward(cfg: Config, init: Store, s: State)
    requires History(cfg, init, s) && !s.phase.Returned?
  {
    var stage := cfg.stages[s.stage];
    var base := s.entry[s.stage];
    && s.own == {} && s.earlier == Idle
    && match s.phase
       case Checking(todo) =>
         && s.store == base
         && (!s.anyErr ==> forall k: nat :: k < |stage| && k !in todo ==>
               Prepared(stage[k], base, BackupOf(s.backup, s.stage, k)))
       case Running(todo) =>
         && AllPrepared(stage, s.stage, base, s.backup)
         && RunSoFar(stage, todo, !s.anyErr, base, s.store)
  }

  ghost predicate Backward(cfg: Config, init: Store, s: State)
    requires History(cfg, init, s) && s.stage < |cfg.stages|
  {
    && (s.phase == Returned(RunFailed) ==> AllPrepared(cfg.stages[s.stage], s.stage, s.entry[s.stage], s.backup))
    && (s.phase != Returned(RunFailed) ==> s.own == {})
    && (s.earlier.At? ==> s.earlier.j < s.stage)
    && forall n :: Undoes(cfg, init, s, n)
  }

  ghost predicate Inv(cfg: Config, init: Store, s: State) {
    && History(cfg, init, s)
    && (!s.phase.Returned? ==> Forward(cfg, init, s))
    && (s.phase == Returned(NoFailure) ==> s.own == {} && s.earlier == Idle && s.store == s.entry[s.stage])
    && (s.phase.Returned? && s.phase.failure != NoFailure ==>
          if cfg.skipRollback then s.own == {} && s.earlier == Idle else Backward(cfg, init, s))
  }

  // ---- one name through the stages ------------------------------------------------------

  lemma WritersNext(stages: seq<seq<Service>>, m: nat, n: string)
    requires m < |stages|
    ensures
      var k := Writer(stages[m], n);
      WritersOf(stages[..m + 1], n) == WritersOf(stages[..m], n) + if k.Some? then [stages[m][k.value]] else []
  {
    assert stages[..m + 1][..m] == stages[..m];
  }

  lemma {:induction false} WritersPrefix(stages: seq<seq<Service>>, a: nat, b: nat, n: string)
    requires a <= b <= |stages|
    ensures WritersOf(stages[..a], n) <= WritersOf(stages[..b], n)
  {
    if a < b {
      WritersPrefix(stages, a, b - 1, n);
      WritersNext(stages, b - 1, n);
    }
  }

  lemma PreparedPasses(s: Service, base: Store, backup: Option<Object>)
    requires NamesMatch(s) && Prepared(s, base, backup) && Writes(s).Some?
    ensures Passes(s, Lookup(base, Writes(s).value))
  {}

  /** Each stage found what its predecessors' writers left, and their checks passed. */
  lemma {:induction false} EntryIsLeft(cfg: Config, init: Store, s: State, m: nat, n: string)
    requires WellFormed(cfg) && History(cfg, init, s) && m <= s.stage
    ensures Legal(WritersOf(cfg.stages[..m], n), Lookup(init, n))
    ensures Lookup(s.entry[m], n) == Left(WritersOf(cfg.stages[..m], n), Lookup(init, n))
  {
    if m > 0 {
      EntryIsLeft(cfg, init, s, m - 1, n);
      WritersNext(cfg.stages, m - 1, n);
      var ws, stage := WritersOf(cfg.stages[..m - 1], n), cfg.stages[m - 1];
      assert Completed(stage, s.entry[m - 1], s.entry[m]);
      match Writer(stage, n)
      case None => assert !StageWrites(stage, n) && ws + [] == ws;
      case Some(k) =>
        PreparedPasses(stage[k], s.entry[m - 1], BackupOf(s.backup, m - 1, k));
        LegalNext(ws, stage[k], Lookup(init, n));
    }
  }

  /** A rollback acts on its own name as Undo says, and on no other. */
  lemma RollbackOne(s: Service, base: Store, backup: Option<Object>, st: Store, n: string)
    requires NamesMatch(s) && Prepared(s, base, backup)
    ensures Lookup(RollbackStore(s, backup, st), n)
      == if Writes(s) == Some(n) then Undo(s, Lookup(base, n), Lookup(st, n)) else Lookup(st, n)
  {}

  lemma OnlyWriter(stage: seq<Service>, k: nat, n: string)
    requires DistinctNames(stage) && k < |stage|
    ensures Writes(stage[k]) == Some(n) <==> Writer(stage, n) == Some(k)
  {
    var w := Writer(stage, n);
  }

  // ---- every step keeps it --------------------------------------------------------------

  lemma StartKeeps(cfg: Config, init: Store)
    ensures Inv(cfg, init, Start(cfg, init))
  {}

  lemma CheckKeeps(cfg: Config, init: Store, s: State, k: nat)
    requires WellFormed(cfg) && !cfg.dryRun && Inv(cfg, init, s) && Enabled(cfg, s, CheckTask(k))
    ensures Inv(cfg, init, Next(cfg, s, CheckTask(k)))
  {}

  lemma RunOne(stage: seq<Service>, todo: set<nat>, clean: bool, before: Store, st: Store, k: nat, fault: Fault)
    requires DistinctNames(stage) && k < |stage| && k in todo && RunSoFar(stage, todo, clean, before, st)
    requires NamesMatch(stage[k]) && CheckError(stage[k], before).None?
    ensures
      RunSoFar(stage, todo - {k}, clean && RunError(stage[k], st, fault).None?, before, RunStore(stage[k], st, fault))
  {
    var svc, st' := stage[k], RunStore(stage[k], st, fault);
    assert Writes(svc).Some? ==> StageWrites(stage, Writes(svc).value);
    assert forall n :: Writes(svc) != Some(n) ==> Lookup(st', n) == Lookup(st, n);
    if Writes(svc).Some? {
      var w := Writes(svc).value;
      assert Lookup(st, w) == Lookup(before, w);
      assert fault != LostBefore ==> Lookup(st', w) == Target(svc);
    }
  }

  lemma RunKeeps(cfg: Config, init: Store, s: State, k: nat, fault: Fault)
    requires WellFormed(cfg) && !cfg.dryRun && Inv(cfg, init, s) && Enabled(cfg, s, RunTask(k, fault))
    ensures Inv(cfg, init, Next(cfg, s, RunTask(k, fault)))
  {
    RunOne(cfg.stages[s.stage], s.phase.todo, !s.anyErr, s.entry[s.stage], s.store, k, fault);
    assert History(cfg, init, Next(cfg, s, RunTask(k, fault)));
  }

  /** A goroutine about to undo the stages before `i` has all their writers to undo. */
  lemma LevelAtStart(cfg: Config, s: State, i: nat, n: string)
    requires Shaped(cfg, s) && i <= |cfg.stages| && s.earlier == UnwindFrom(cfg, i)
    ensures Level(cfg, s, n) == |WritersOf(cfg.stages[..i], n)|
  {
    if i > 0 {
      WritersNext(cfg.stages, i - 1, n);
    }
  }

  lemma FailUndoes(cfg: Config, init: Store, s: State, failure: Failure, n: string)
    requires WellFormed(cfg) && !cfg.skipRollback && History(cfg, init, s) && s.stage < |cfg.stages|
    requires s.own == {} && s.earlier == Idle && (failure == CheckFailed || failure == RunFailed)
    requires failure == CheckFailed ==> s.store == s.entry[s.stage]
    requires failure == RunFailed ==> RunSoFar(cfg.stages[s.stage], {}, false, s.entry[s.stage], s.store)
    ensures Undoes(cfg, init, Fail(cfg, s, failure), n)
  {
    var f := Fail(cfg, s, failure);
    var ws, was := WritersOf(cfg.stages[..s.stage], n), Lookup(init, n);
    EntryIsLeft(cfg, init, s, s.stage, n);
    LevelAtStart(cfg, f, s.stage, n);
    assert ws[..|ws|] == ws;
    match OwnWriter(cfg, f, n)
    case None => assert failure == RunFailed ==> !StageWrites(cfg.stages[s.stage], n);
    case Some(k) =>
      var w, now := cfg.stages[s.stage][k], Lookup(s.store, n);
      assert Writes(w) == Some(n);
      assert Failing(ws, w, was, now) && now == UndoDown(ws, was, |ws|, now);
  }

  lemma FailKeeps(cfg: Config, init: Store, s: State, failure: Failure)
    requires WellFormed(cfg) && History(cfg, init, s) && s.stage < |cfg.stages|
    requires s.own == {} && s.earlier == Idle && (failure == CheckFailed || failure == RunFailed)
    requires failure == CheckFailed ==> s.store == s.entry[s.stage]
    requires failure == RunFailed ==>
      && AllPrepared(cfg.stages[s.stage], s.stage, s.entry[s.stage], s.backup)
      && RunSoFar(cfg.stages[s.stage], {}, false, s.entry[s.stage], s.store)
    ensures Inv(cfg, init, Fail(cfg, s, failure))
  {
    var f := Fail(cfg, s, failure);
    assert History(cfg, init, f);
    if !cfg.skipRollback {
      forall n ensures Undoes(cfg, init, f, n) {
        FailUndoes(cfg, init, s, failure, n);
      }
    }
  }

  lemma EndCheckKeeps(cfg: Config, init: Store, s: State)
    requires WellFormed(cfg) && !cfg.dryRun && Inv(cfg, init, s) && Enabled(cfg, s, EndCheck)
    ensures Inv(cfg, init, Next(cfg, s, EndCheck))
  {
    if s.anyErr {
      FailKeeps(cfg, init, s, CheckFailed);
    }
  }

  lemma EnterKeeps(cfg: Config, init: Store, s: State)
    requires History(cfg, init, s) && s.stage < |cfg.stages| && s.own == {} && s.earlier == Idle
    requires AllPrepared(cfg.stages[s.stage], s.stage, s.entry[s.stage], s.backup)
    requires Completed(cfg.stages[s.stage], s.entry[s.stage], s.store)
    ensures Inv(cfg, init, Enter(cfg, s, s.stage + 1))
  {
    assert History(cfg, init, Enter(cfg, s, s.stage + 1));
  }

  lemma EndRunKeeps(cfg: Config, init: Store, s: State)
    requires WellFormed(cfg) && !cfg.dryRun && Inv(cfg, init, s) && Enabled(cfg, s, EndRun)
    ensures Inv(cfg, init, Next(cfg, s, EndRun))
  {
    if s.anyErr {
      FailKeeps(cfg, init, s, RunFailed);
    } else {
      assert Completed(cfg.stages[s.stage], s.entry[s.stage], s.store);
      EnterKeeps(cfg, init, s);
    }
  }

  lemma OwnRollbackUndoes(cfg: Config, init: Store, s: State, k: nat, n: string)
    requires WellFormed(cfg) && History(cfg, init, s) && s.stage < |cfg.stages| && Backward(cfg, init, s)
    requires Enabled(cfg, s, OwnRollbackTask(k))
    ensures Undoes(cfg, init, Next(cfg, s, OwnRollbackTask(k)), n)
  {
    var stage, base, backup := cfg.stages[s.stage], s.entry[s.stage], BackupOf(s.backup, s.stage, k);
    var ws, was := WritersOf(cfg.stages[..s.stage], n), Lookup(init, n);
    assert Undoes(cfg, init, s, n);
    RollbackOne(stage[k], base, backup, s.store, n);
    OnlyWriter(stage, k, n);
    if Writes(stage[k]) == Some(n) {
      EntryIsLeft(cfg, init, s, s.stage, n);
      PendingEnds(ws, stage[k], was, Level(cfg, s, n), Lookup(s.store, n));
    }
  }

  lemma OwnRollbackKeeps(cfg: Config, init: Store, s: State, k: nat)
    requires WellFormed(cfg) && !cfg.dryRun && Inv(cfg, init, s) && Enabled(cfg, s, OwnRollbackTask(k))
    ensures Inv(cfg, init, Next(cfg, s, OwnRollbackTask(k)))
  {
    var s' := Next(cfg, s, OwnRollbackTask(k));
    assert History(cfg, init, s');
    forall n ensures Undoes(cfg, init, s', n) {
      OwnRollbackUndoes(cfg, init, s, k, n);
    }
  }

  /** Doing one task of stage `j` undoes the last writer of its own name that is left to undo. */
  lemma TaskUndoesLast(stages: seq<seq<Service>>, i: nat, j: nat, todo: set<nat>, k: nat, n: string)
    requires j < i <= |stages| && DistinctNames(stages[j]) && k < |stages[j]| && k in todo
    ensures
      var ws := WritersOf(stages[..i], n);
      var before, after := WritersLeft(stages, j, todo, n), WritersLeft(stages, j, todo - {k}, n);
      if Writes(stages[j][k]) != Some(n) then before == after
      else
        && after == WritersOf(stages[..j], n) && |before| == |after| + 1 <= |ws|
        && ws[|after|] == stages[j][k] && ws[..|after|] == after
  {
    OnlyWriter(stages[j], k, n);
    if Writes(stages[j][k]) == Some(n) {
      WritersNext(stages, j, n);
      WritersPrefix(stages, j + 1, i, n);
    }
  }

  /** A name undone by one more writer, or by none, holds what Undoes says one step further down, or here. */
  lemma StepDown(cfg: Config, init: Store, s: State, s': State, n: string)
    requires Shaped(cfg, s) && Shaped(cfg, s') && s.stage < |cfg.stages| && Undoes(cfg, init, s, n)
    requires s'.stage == s.stage && s'.phase == s.phase && s'.own == s.own
    requires Legal(WritersOf(cfg.stages[..s.stage], n), Lookup(init, n))
    requires
      var ws, m := WritersOf(cfg.stages[..s.stage], n), Level(cfg, s', n);
      || (Level(cfg, s, n) == m && Lookup(s'.store, n) == Lookup(s.store, n))
      || (Level(cfg, s, n) == m + 1 && m < |ws|
          && Lookup(s'.store, n) == Undo(ws[m], Left(ws[..m], Lookup(init, n)), Lookup(s.store, n)))
    ensures Undoes(cfg, init, s', n)
  {
    var ws, was, m := WritersOf(cfg.stages[..s.stage], n), Lookup(init, n), Level(cfg, s', n);
    if Level(cfg, s, n) == m + 1 {
      var now := Lookup(s.store, n);
      match OwnWriter(cfg, s, n)
      case None =>
        UndoneOnce(ws, was, m);
      case Some(k) =>
        var w := cfg.stages[s.stage][k];
        if k in s.own {
          PendingStep(ws, w, was, m + 1, now);
        } else {
          RolledBackStep(ws, w, was, m + 1, now);
        }
    }
  }

  lemma EarlierRollbackUndoes(cfg: Config, init: Store, s: State, k: nat, n: string)
    requires WellFormed(cfg) && History(cfg, init, s) && s.stage < |cfg.stages| && Undoes(cfg, init, s, n)
    requires Enabled(cfg, s, EarlierRollbackTask(k)) && s.earlier.j < s.stage
    ensures Undoes(cfg, init, Next(cfg, s, EarlierRollbackTask(k)), n)
  {
    var s', j := Next(cfg, s, EarlierRollbackTask(k)), s.earlier.j;
    assert AllPrepared(cfg.stages[j], j, s.entry[j], s.backup);
    RollbackOne(cfg.stages[j][k], s.entry[j], BackupOf(s.backup, j, k), s.store, n);
    TaskUndoesLast(cfg.stages, s.stage, j, s.earlier.todo, k, n);
    EntryIsLeft(cfg, init, s, j, n);
    EntryIsLeft(cfg, init, s, s.stage, n);
    StepDown(cfg, init, s, s', n);
  }

  lemma EarlierRollbackKeeps(cfg: Config, init: Store, s: State, k: nat)
    requires WellFormed(cfg) && !cfg.dryRun && Inv(cfg, init, s) && Enabled(cfg, s, EarlierRollbackTask(k))
    ensures Inv(cfg, init, Next(cfg, s, EarlierRollbackTask(k)))
  {
    var s' := Next(cfg, s, EarlierRollbackTask(k));
    assert History(cfg, init, s');
    forall n ensures Undoes(cfg, init, s', n) {
      assert Undoes(cfg, init, s, n);
      EarlierRollbackUndoes(cfg, init, s, k, n);
    }
  }

  lemma EarlierNextKeeps(cfg: Config, init: Store, s: State)
    requires WellFormed(cfg) && !cfg.dryRun && Inv(cfg, init, s) && Enabled(cfg, s, EarlierNextStage)
    ensures Inv(cfg, init, Next(cfg, s, EarlierNextStage))
  {
    var s' := Next(cfg, s, EarlierNextStage);
    assert History(cfg, init, s');
    forall n ensures Undoes(cfg, init, s', n) {
      assert Undoes(cfg, init, s, n);
      LevelAtStart(cfg, s', s.earlier.j, n);
      assert Level(cfg, s', n) == Level(cfg, s, n);
    }
  }

  lemma NextKeeps(cfg: Config, init: Store, s: State, step: Step)
    requires WellFormed(cfg) && !cfg.dryRun && Inv(cfg, init, s) && Enabled(cfg, s, step)
    ensures Inv(cfg, init, Next(cfg, s, step))
  {
    match step
    case CheckTask(k) => CheckKeeps(cfg, init, s, k);
    case EndCheck => EndCheckKeeps(cfg, init, s);
    case RunTask(k, fault) => RunKeeps(cfg, init, s, k, fault);
    case EndRun => EndRunKeeps(cfg, init, s);
    case OwnRollbackTask(k) => OwnRollbackKeeps(cfg, init, s, k);
    case EarlierRollbackTask(k) => EarlierRollbackKeeps(cfg, init, s, k);
    case EarlierNextStage => EarlierNextKeeps(cfg, init, s);
  }

  lemma {:induction false} OutcomeKeeps(cfg: Config, init: Store, s: State, steps: seq<Step>)
    requires WellFormed(cfg) && !cfg.dryRun && Inv(cfg, init, s) && Schedule(cfg, s, steps)
    ensures Inv(cfg, init, Outcome(cfg, s, steps))
    decreases |steps|
  {
    if steps != [] {
      NextKeeps(cfg, init, s, steps[0]);
      OutcomeKeeps(cfg, init, Next(cfg, s, steps[0]), steps[1..]);
    }
  }

  // ---- main results ---------------------------------------------------------------------

  /**
    If the checks of a stage fail, the reverse unwinding of the stages before it restores the initial
    store, under every interleaving and even when different stages write the same name.
   */
  lemma ReverseUnwinding(cfg: Config, init: Store, steps: seq<Step>)
    requires WellFormed(cfg) && !cfg.dryRun && !cfg.skipRollback
    requires Schedule(cfg, Start(cfg, init), steps)
    requires Quiescent(Outcome(cfg, Start(cfg, init), steps))
    requires Outcome(cfg, Start(cfg, init), steps).phase == Returned(CheckFailed)
    ensures Outcome(cfg, Start(cfg, init), steps).store == init
  {
    StartKeeps(cfg, init);
    OutcomeKeeps(cfg, init, Start(cfg, init), steps);
    var s := Outcome(cfg, Start(cfg, init), steps);
    forall n ensures Lookup(s.store, n) == Lookup(init, n) {
      assert Undoes(cfg, init, s, n);
    }
    SameLookups(s.store, init);
  }

  /** The run fails in a RUN of stage `i` and everything has been rolled back. */
  ghost predicate RunFailsAt(cfg: Config, init: Store, steps: seq<Step>, i: nat) {
    && Schedule(cfg, Start(cfg, init), steps)
    && var s := Outcome(cfg, Start(cfg, init), steps);
       Quiescent(s) && s.phase == Returned(RunFailed) && s.stage == i
  }

  /**
    After a failed RUN each name holds what its own writers make of it: its initial value if the failing
    stage does not write it, else what its own rollback leaves when it cuts in somewhere.
   */
  lemma RunFailureOutcome(cfg: Config, init: Store, steps: seq<Step>, i: nat, n: string)
    requires WellFormed(cfg) && !cfg.dryRun && !cfg.skipRollback && i < |cfg.stages| && RunFailsAt(cfg, init, steps, i)
    ensures
      var ws, was := WritersOf(cfg.stages[..i], n), Lookup(init, n);
      var now := Lookup(Outcome(cfg, Start(cfg, init), steps).store, n);
      match Writer(cfg.stages[i], n)
      case None => now == was
      case Some(k) =>
        var w := cfg.stages[i][k];
        && Legal(ws, was) && Passes(w, Left(ws, was))
        && exists t: nat, held :: t <= |ws| && Failing(ws, w, was, held) && now == Overtaken(ws, w, was, t, held)
  {
    StartKeeps(cfg, init);
    OutcomeKeeps(cfg, init, Start(cfg, init), steps);
    var s := Outcome(cfg, Start(cfg, init), steps);
    assert Undoes(cfg, init, s, n);
    EntryIsLeft(cfg, init, s, i, n);
    var k := Writer(cfg.stages[i], n);
    if k.Some? {
      var ws, was, w := WritersOf(cfg.stages[..i], n), Lookup(init, n), cfg.stages[i][k.value];
      PreparedPasses(w, s.entry[i], BackupOf(s.backup, i, k.value));
      var t: nat, held :| t <= |ws| && Failing(ws, w, was, held) && Lookup(s.store, n) == CutIn(ws, w, was, t, 0, held);
      assert Overtaken(ws, w, was, t, held) == Lookup(s.store, n);
    }
  }

  /**
    When a name is restored after a failed RUN of stage `i` in every interleaving, in terms of the
    stages and the initial store only. Names the failing stage does not share always are.
   */
  predicate Recoverable(cfg: Config, init: Store, i: nat, n: string)
    requires i < |cfg.stages|
  {
    var k := Writer(cfg.stages[i], n);
    k.Some? ==> Recovers(WritersOf(cfg.stages[..i], n), cfg.stages[i][k.value], Lookup(init, n))
  }

  /** Every recoverable name is restored, whatever becomes of the others. */
  lemma RecoverableNamesRestored(cfg: Config, init: Store, steps: seq<Step>, i: nat, n: string)
    requires WellFormed(cfg) && !cfg.dryRun && !cfg.skipRollback && i < |cfg.stages| && RunFailsAt(cfg, init, steps, i)
    requires Recoverable(cfg, init, i, n)
    ensures Lookup(Outcome(cfg, Start(cfg, init), steps).store, n) == Lookup(init, n)
  {
    RunFailureOutcome(cfg, init, steps, i, n);
    var k := Writer(cfg.stages[i], n);
    if k.Some? {
      RestoredIffRecovers(WritersOf(cfg.stages[..i], n), cfg.stages[i][k.value], Lookup(init, n));
    }
  }

  /**
    If a RUN of a stage fails, its own rollback and the unwinding of earlier stages restore the
    initial store however they interleave and whether each lost call took effect or not, provided the
    failing stage shares no written name with an earlier one.
   */
  lemma ConcurrentCompensation(cfg: Config, init: Store, steps: seq<Step>)
    requires WellFormed(cfg) && !cfg.dryRun && !cfg.skipRollback
    requires Schedule(cfg, Start(cfg, init), steps)
    requires var s := Outcome(cfg, Start(cfg, init), steps);
      Quiescent(s) && s.phase == Returned(RunFailed) && s.stage < |cfg.stages| && ApartFromEarlier(cfg, s.stage)
    ensures Outcome(cfg, Start(cfg, init), steps).store == init
  {
    var s := Outcome(cfg, Start(cfg, init), steps);
    forall n ensures Lookup(s.store, n) == Lookup(init, n) {
      if StageWrites(cfg.stages[s.stage], n) {
        NoWriters(cfg.stages[..s.stage], n);
      }
      RecoverableNamesRestored(cfg, init, steps, s.stage, n);
    }
    SameLookups(s.store, init);
  }

  lemma {:induction false} NoWriters(stages: seq<seq<Service>>, n: string)
    requires forall m :: 0 <= m < |stages| ==> !StageWrites(stages[m], n)
    ensures WritersOf(stages, n) == []
  {
    if stages != [] {
      NoWriters(stages[..|stages| - 1], n);
      var last := stages[|stages| - 1];
      var k := Writer(last, n);
      assert k.Some? ==> StageWrites(last, n);
    }
  }

  /** A name no stage before `m` writes has not changed when stage `m` starts. */
  lemma {:induction false} UntouchedSoFar(cfg: Config, init: Store, s: State, n: string, m: nat)
    requires History(cfg, init, s) && m <= s.stage
    requires forall e :: 0 <= e < m ==> !StageWrites(cfg.stages[e], n)
    ensures Lookup(s.entry[m], n) == Lookup(init, n)
  {
    if m > 0 {
      UntouchedSoFar(cfg, init, s, n, m - 1);
      assert Completed(cfg.stages[m - 1], s.entry[m - 1], s.entry[m]);
    }
  }

  /** A run without failure: each name holds what the last stage writing it asked for, all others are unchanged. */
  lemma SuccessTakesEffect(cfg: Config, init: Store, steps: seq<Step>, n: string)
    requires WellFormed(cfg) && !cfg.dryRun
    requires Schedule(cfg, Start(cfg, init), steps)
    requires Outcome(cfg, Start(cfg, init), steps).phase == Returned(NoFailure)
    ensures
      var store := Outcome(cfg, Start(cfg, init), steps).store;
      && ((forall m :: 0 <= m < |cfg.stages| ==> !StageWrites(cfg.stages[m], n)) ==>
            Lookup(store, n) == Lookup(init, n))
      && (forall m, k :: 0 <= m < |cfg.stages| && 0 <= k < |cfg.stages[m]| && Writes(cfg.stages[m][k]) == Some(n)
            && (forall l :: m < l < |cfg.stages| ==> !StageWrites(cfg.stages[l], n))
            ==> Lookup(store, n) == Target(cfg.stages[m][k]))
  {
    StartKeeps(cfg, init);
    OutcomeKeeps(cfg, init, Start(cfg, init), steps);
    var s := Outcome(cfg, Start(cfg, init), steps);
    if forall m :: 0 <= m < |cfg.stages| ==> !StageWrites(cfg.stages[m], n) {
      UntouchedSoFar(cfg, init, s, n, s.stage);
    }
    forall m, k | 0 <= m < |cfg.stages| && 0 <= k < |cfg.stages[m]| && Writes(cfg.stages[m][k]) == Some(n)
      && (forall l :: m < l < |cfg.stages| ==> !StageWrites(cfg.stages[l], n))
      ensures Lookup(s.store, n) == Target(cfg.stages[m][k])
    {
      assert Completed(cfg.stages[m], s.entry[m], s.entry[m + 1]);
      UntouchedSince(cfg, init, s, n, m + 1, s.stage);
    }
  }

  lemma {:induction false} UntouchedSince(cfg: Config, init: Store, s: State, n: string, a: nat, b: nat)
    requires History(cfg, init, s) && a <= b <= s.stage
    requires forall e :: a <= e < b ==> !StageWrites(cfg.stages[e], n)
    ensures Lookup(s.entry[b], n) == Lookup(s.entry[a], n)
  {
    if a < b {
      UntouchedSince(cfg, init, s, n, a, b - 1);
      assert Completed(cfg.stages[b - 1], s.entry[b - 1], s.entry[b]);
    }
  }

  // ---- success --------------------------------------------------------------------------

  /** Every writer finds its name as it needs it when each stage follows the one before it. */
  ghost predicate AllLegal(cfg: Config, init: Store) {
    forall n :: Legal(WritersOf(cfg.stages, n), Lookup(init, n))
  }

  /** No RUN call is lost. */
  predicate NothingLost(steps: seq<Step>) {
    forall i :: 0 <= i < |steps| && steps[i].RunTask? ==> steps[i].fault == Clean
  }

  predicate NoGets(cfg: Config) {
    forall i, k :: 0 <= i < |cfg.stages| && 0 <= k < |cfg.stages[i]| ==> cfg.stages[i][k].action != Get
  }

  predicate Smooth(s: State) {
    !s.anyErr && (s.phase.Returned? ==> s.phase == Returned(NoFailure))
  }

  /** In a legal list of writers the one of stage `m` finds its name as it needs it. */
  lemma WriterPasses(stages: seq<seq<Service>>, m: nat, k: nat, n: string, was: Held)
    requires m < |stages| && DistinctNames(stages[m]) && k < |stages[m]| && Writes(stages[m][k]) == Some(n)
    requires Legal(WritersOf(stages, n), was)
    ensures Passes(stages[m][k], Left(WritersOf(stages[..m], n), was))
  {
    OnlyWriter(stages[m], k, n);
    WritersNext(stages, m, n);
    WritersPrefix(stages, m + 1, |stages|, n);
    assert stages[..|stages|] == stages;
    var ws, t := WritersOf(stages, n), |WritersOf(stages[..m], n)|;
    assert ws[..t + 1] == WritersOf(stages[..m + 1], n) && ws[..t + 1][t] == ws[t] && ws[..t + 1][..t] == ws[..t];
    LegalPrefix(ws, was, t);
  }

  /** The writers of a stage find their names as their checks and calls need them. */
  lemma StagePasses(cfg: Config, init: Store, s: State, k: nat)
    requires WellFormed(cfg) && History(cfg, init, s) && AllLegal(cfg, init)
    requires s.stage < |cfg.stages| && k < |cfg.stages[s.stage]| && Writes(cfg.stages[s.stage][k]).Some?
    ensures
      var svc := cfg.stages[s.stage][k];
      Passes(svc, Lookup(s.entry[s.stage], Writes(svc).value))
  {
    var n := Writes(cfg.stages[s.stage][k]).value;
    EntryIsLeft(cfg, init, s, s.stage, n);
    WriterPasses(cfg.stages, s.stage, k, n, Lookup(init, n));
  }

  lemma SmoothStep(cfg: Config, init: Store, s: State, step: Step)
    requires WellFormed(cfg) && !cfg.dryRun && NoGets(cfg) && AllLegal(cfg, init)
    requires Inv(cfg, init, s) && Smooth(s) && Enabled(cfg, s, step) && (step.RunTask? ==> step.fault == Clean)
    ensures Smooth(Next(cfg, s, step))
  {
    if step.CheckTask? || step.RunTask? {
      var svc := cfg.stages[s.stage][step.k];
      if Writes(svc).Some? {
        StagePasses(cfg, init, s, step.k);
        PassesChecks(svc, s.store);
      }
    }
  }

  lemma {:induction false} SmoothRun(cfg: Config, init: Store, s: State, steps: seq<Step>)
    requires WellFormed(cfg) && !cfg.dryRun && NoGets(cfg) && AllLegal(cfg, init)
    requires Inv(cfg, init, s) && Smooth(s) && Schedule(cfg, s, steps) && NothingLost(steps)
    ensures Smooth(Outcome(cfg, s, steps))
    decreases |steps|
  {
    if steps != [] {
      SmoothStep(cfg, init, s, steps[0]);
      NextKeeps(cfg, init, s, steps[0]);
      SmoothRun(cfg, init, Next(cfg, s, steps[0]), steps[1..]);
    }
  }

  /**
    When no call is lost and nothing is read, a run succeeds under every interleaving if and only if
    each creation finds its name absent, and each update and deletion finds it present, after the
    stages before it.
   */
  lemma SucceedsIffLegal(cfg: Config, init: Store, steps: seq<Step>)
    requires WellFormed(cfg) && !cfg.dryRun && NoGets(cfg)
    requires Schedule(cfg, Start(cfg, init), steps) && NothingLost(steps)
    requires Quiescent(Outcome(cfg, Start(cfg, init), steps))
    ensures Outcome(cfg, Start(cfg, init), steps).phase == Returned(NoFailure) <==> AllLegal(cfg, init)
  {
    StartKeeps(cfg, init);
    OutcomeKeeps(cfg, init, Start(cfg, init), steps);
    var s := Outcome(cfg, Start(cfg, init), steps);
    if s.phase == Returned(NoFailure) {
      assert cfg.stages[..|cfg.stages|] == cfg.stages;
      forall n ensures Legal(WritersOf(cfg.stages, n), Lookup(init, n)) {
        EntryIsLeft(cfg, init, s, s.stage, n);
      }
    }
    if AllLegal(cfg, init) {
      SmoothRun(cfg, init, Start(cfg, init), steps);
    }
  }

  /** With SkipRollback nothing is ever rolled back: a failed run is over at once. */
  lemma SkipRollbackStops(cfg: Config, init: Store, steps: seq<Step>)
    requires WellFormed(cfg) && !cfg.dryRun && cfg.skipRollback && Schedule(cfg, Start(cfg, init), steps)
    ensures
      var s := Outcome(cfg, Start(cfg, init), steps);
      s.own == {} && s.earlier == Idle && (s.phase.Returned? ==> Quiescent(s))
  {
    StartKeeps(cfg, init);
    OutcomeKeeps(cfg, init, Start(cfg, init), steps);
  }

  // ---- failure --------------------------------------------------------------------------

  /** The call this step makes reports an error. */
  predicate Errs(cfg: Config, s: State, step: Step)
    requires Shaped(cfg, s) && Enabled(cfg, s, step)
  {
    match step
    case CheckTask(k) => CheckError(cfg.stages[s.stage][k], s.store).Some?
    case RunTask(k, fault) => RunError(cfg.stages[s.stage][k], s.store, fault).Some?
    case _ => false
  }

  predicate Doomed(s: State, i: nat) {
    s.stage == i && if s.phase.Returned? then s.phase != Returned(NoFailure) else s.anyErr
  }

  lemma {:induction false} DoomStands(cfg: Config, s: State, steps: seq<Step>, i: nat)
    requires Shaped(cfg, s) && Schedule(cfg, s, steps) && Doomed(s, i)
    ensures Doomed(Outcome(cfg, s, steps), i)
    decreases |steps|
  {
    if steps != [] {
      DoomStands(cfg, Next(cfg, s, steps[0]), steps[1..], i);
    }
  }

  /** One error of a CHECK or RUN call fails the run, and in the stage it happened in. */
  lemma OneErrorFails(cfg: Config, s: State, steps: seq<Step>)
    requires Shaped(cfg, s) && Schedule(cfg, s, steps) && steps != [] && Errs(cfg, s, steps[0])
    requires Quiescent(Outcome(cfg, s, steps))
    ensures
      var e := Outcome(cfg, s, steps);
      e.phase != Returned(NoFailure) && e.stage == s.stage
  {
    DoomStands(cfg, Next(cfg, s, steps[0]), steps[1..], s.stage);
  }

  // ---- dry runs -------------------------------------------------------------------------

  ghost predicate DryInv(cfg: Config, init: Store, s: State) {
    && Shaped(cfg, s)
    && s.store == init && s.own == {} && !s.phase.Running? && s.phase != Returned(RunFailed)
    && s.stage <= |cfg.stages|
    && (forall m: nat :: m < s.stage ==> AllPrepared(cfg.stages[m], m, init, s.backup))
    && (s.phase.Checking? && !s.anyErr ==>
          forall k: nat :: k < |cfg.stages[s.stage]| && k !in s.phase.todo ==>
            Prepared(cfg.stages[s.stage][k], init, BackupOf(s.backup, s.stage, k)))
    && (s.earlier.At? ==> s.earlier.j < s.stage)
  }

  lemma DryNextKeeps(cfg: Config, init: Store, s: State, step: Step)
    requires cfg.dryRun && DryInv(cfg, init, s) && Enabled(cfg, s, step)
    requires forall i, k :: 0 <= i < |cfg.stages| && 0 <= k < |cfg.stages[i]| ==> NamesMatch(cfg.stages[i][k])
    ensures DryInv(cfg, init, Next(cfg, s, step))
  {
    if step.EarlierRollbackTask? {
      var j, k := s.earlier.j, step.k;
      assert AllPrepared(cfg.stages[j], j, init, s.backup);
      forall n ensures Lookup(Next(cfg, s, step).store, n) == Lookup(init, n) {
        RollbackOne(cfg.stages[j][k], init, BackupOf(s.backup, j, k), init, n);
      }
      SameLookups(Next(cfg, s, step).store, init);
    }
  }

  /**
    A staged dry run may still issue rollbacks for earlier stages, but no schedule ever changes the
    store, at any point.
   */
  lemma {:induction false} DryRunNeverWrites(cfg: Config, init: Store, s: State, steps: seq<Step>)
    requires cfg.dryRun
    requires forall i, k :: 0 <= i < |cfg.stages| && 0 <= k < |cfg.stages[i]| ==> NamesMatch(cfg.stages[i][k])
    requires s == Start(cfg, init) || DryInv(cfg, init, s)
    requires Schedule(cfg, s, steps)
    ensures DryInv(cfg, init, Outcome(cfg, s, steps)) && Outcome(cfg, s, steps).store == init
    decreases |steps|
  {
    if steps != [] {
      DryNextKeeps(cfg, init, s, steps[0]);
      DryRunNeverWrites(cfg, init, Next(cfg, s, steps[0]), steps[1..]);
    }
  }

  /** While a dry run goes on: it has an error exactly if some service checked so far fails its check. */
  ghost predicate DryVerdict(cfg: Config, init: Store, s: State)
    requires Shaped(cfg, s)
  {
    && s.stage <= |cfg.stages|
    && (forall m, k :: 0 <= m < s.stage && 0 <= k < |cfg.stages[m]| ==> CheckError(cfg.stages[m][k], init).None?)
    && match s.phase
       case Checking(todo) =>
         s.anyErr <==> exists k: nat :: k < |cfg.stages[s.stage]| && k !in todo
                         && CheckError(cfg.stages[s.stage][k], init).Some?
       case Running(_) => false
       case Returned(failure) =>
         if failure == NoFailure then s.stage == |cfg.stages|
         else s.stage < |cfg.stages|
              && exists k :: 0 <= k < |cfg.stages[s.stage]| && CheckError(cfg.stages[s.stage][k], init).Some?
  }

  lemma DryVerdictStep(cfg: Config, init: Store, s: State, step: Step)
    requires cfg.dryRun && DryInv(cfg, init, s) && DryVerdict(cfg, init, s) && Enabled(cfg, s, step)
    ensures DryVerdict(cfg, init, Next(cfg, s, step))
  {}

  lemma {:induction false} DryVerdictRun(cfg: Config, init: Store, s: State, steps: seq<Step>)
    requires cfg.dryRun && DryInv(cfg, init, s) && DryVerdict(cfg, init, s) && Schedule(cfg, s, steps)
    requires forall i, k :: 0 <= i < |cfg.stages| && 0 <= k < |cfg.stages[i]| ==> NamesMatch(cfg.stages[i][k])
    ensures DryVerdict(cfg, init, Outcome(cfg, s, steps))
    decreases |steps|
  {
    if steps != [] {
      DryVerdictStep(cfg, init, s, steps[0]);
      DryNextKeeps(cfg, init, s, steps[0]);
      DryVerdictRun(cfg, init, Next(cfg, s, steps[0]), steps[1..]);
    }
  }

  /** A dry run succeeds, under every interleaving, exactly when every service passes its check on the initial store. */
  lemma DryRunSucceedsIffChecksPass(cfg: Config, init: Store, steps: seq<Step>)
    requires cfg.dryRun
    requires forall i, k :: 0 <= i < |cfg.stages| && 0 <= k < |cfg.stages[i]| ==> NamesMatch(cfg.stages[i][k])
    requires Schedule(cfg, Start(cfg, init), steps) && Quiescent(Outcome(cfg, Start(cfg, init), steps))
    ensures Outcome(cfg, Start(cfg, init), steps).phase == Returned(NoFailure) <==>
      forall i, k :: 0 <= i < |cfg.stages| && 0 <= k < |cfg.stages[i]| ==> CheckError(cfg.stages[i][k], init).None?
  {
    DryVerdictRun(cfg, init, Start(cfg, init), steps);
  }

  // ---- every run ends -------------------------------------------------------------------

  function UnwindWork(stages: seq<seq<Service>>, i: nat): nat
    requires i <= |stages|
  {
    if i == 0 then 0 else UnwindWork(stages, i - 1) + |stages[i - 1]| + 1
  }

  lemma UnwindWorkGrows(stages: seq<seq<Service>>, i: nat, j: nat)
    requires i <= j <= |stages|
    ensures UnwindWork(stages, i) <= UnwindWork(stages, j)
  {}

  function UnwindRank(cfg: Config, u: Unwind): nat
    requires u.At? ==> u.j < |cfg.stages|
  {
    if u.Idle? then 0 else |u.todo| + 1 + UnwindWork(cfg.stages, u.j)
  }

  function ForwardWork(stages: seq<seq<Service>>, i: nat): nat
    decreases |stages| - i
  {
    if i >= |stages| then 0 else 2 * |stages[i]| + 2 + ForwardWork(stages, i + 1)
  }

  function Rank(cfg: Config, s: State): nat
    requires Shaped(cfg, s)
  {
    var undo := 2 * UnwindWork(cfg.stages, |cfg.stages|);
    match s.phase
    case Checking(todo) => |todo| + 1 + |cfg.stages[s.stage]| + 1 + ForwardWork(cfg.stages, s.stage + 1) + undo
    case Running(todo) => |todo| + 1 + ForwardWork(cfg.stages, s.stage + 1) + undo
    case Returned(_) => |s.own| + UnwindRank(cfg, s.earlier)
  }

  lemma {:induction false} BelowSize(n: nat)
    ensures |Below(n)| == n
  {
    if n > 0 {
      BelowSize(n - 1);
    }
  }

  lemma UnwindFromRank(cfg: Config, i: nat)
    requires i <= |cfg.stages|
    ensures UnwindRank(cfg, UnwindFrom(cfg, i)) == UnwindWork(cfg.stages, i)
  {
    if i > 0 {
      BelowSize(|cfg.stages[i - 1]|);
    }
  }

  lemma StageFits(stages: seq<seq<Service>>, i: nat)
    requires i < |stages|
    ensures UnwindWork(stages, i) + |stages[i]| < UnwindWork(stages, |stages|)
  {
    UnwindWorkGrows(stages, i + 1, |stages|);
  }

  lemma FailDescends(cfg: Config, s: State, failure: Failure)
    requires Shaped(cfg, s) && s.stage < |cfg.stages| && s.own == {} && s.earlier == Idle
    ensures Rank(cfg, Fail(cfg, s, failure)) <= 2 * UnwindWork(cfg.stages, |cfg.stages|)
  {
    var f := Fail(cfg, s, failure);
    var own, undo := |f.own|, UnwindRank(cfg, f.earlier);
    assert Rank(cfg, f) == own + undo;
    assert own <= |cfg.stages[s.stage]| by { BelowSize(|cfg.stages[s.stage]|); }
    assert undo <= UnwindWork(cfg.stages, s.stage) by { UnwindFromRank(cfg, s.stage); }
    StageFits(cfg.stages, s.stage);
  }

  lemma EnterDescends(cfg: Config, s: State, i: nat)
    requires Shaped(cfg, s) && s.own == {} && s.earlier == Idle
    ensures Rank(cfg, Enter(cfg, s, i)) <= ForwardWork(cfg.stages, i) + 2 * UnwindWork(cfg.stages, |cfg.stages|)
  {
    if i < |cfg.stages| {
      BelowSize(|cfg.stages[i]|);
    }
  }

  lemma EndCheckDescends(cfg: Config, s: State)
    requires Shaped(cfg, s) && Enabled(cfg, s, EndCheck)
    ensures Rank(cfg, Next(cfg, s, EndCheck)) < Rank(cfg, s)
  {
    if s.anyErr {
      FailDescends(cfg, s, CheckFailed);
    } else if cfg.dryRun {
      EnterDescends(cfg, s, s.stage + 1);
    } else {
      BelowSize(|cfg.stages[s.stage]|);
    }
  }

  lemma EndRunDescends(cfg: Config, s: State)
    requires Shaped(cfg, s) && Enabled(cfg, s, EndRun)
    ensures Rank(cfg, Next(cfg, s, EndRun)) < Rank(cfg, s)
  {
    if s.anyErr {
      FailDescends(cfg, s, RunFailed);
    } else {
      EnterDescends(cfg, s, s.stage + 1);
    }
  }

  lemma EarlierNextDescends(cfg: Config, s: State)
    requires Shaped(cfg, s) && Enabled(cfg, s, EarlierNextStage)
    ensures Rank(cfg, Next(cfg, s, EarlierNextStage)) < Rank(cfg, s)
  {
    UnwindFromRank(cfg, s.earlier.j);
  }

  lemma TaskDescends(cfg: Config, s: State, step: Step)
    requires Shaped(cfg, s) && Enabled(cfg, s, step)
    requires step.CheckTask? || step.RunTask? || step.OwnRollbackTask? || step.EarlierRollbackTask?
    ensures Rank(cfg, Next(cfg, s, step)) < Rank(cfg, s)
  {}

  lemma StepDescends(cfg: Config, s: State, step: Step)
    requires Shaped(cfg, s) && Enabled(cfg, s, step)
    ensures Rank(cfg, Next(cfg, s, step)) < Rank(cfg, s)
  {
    match step
    case EndCheck => EndCheckDescends(cfg, s);
    case EndRun => EndRunDescends(cfg, s);
    case EarlierNextStage => EarlierNextDescends(cfg, s);
    case _ => TaskDescends(cfg, s, step);
  }

  /** Runs are bounded, and one that stops with work left could go on: every maximal run is quiescent. */
  lemma {:induction false} RunsEnd(cfg: Config, s: State, steps: seq<Step>)
    requires Shaped(cfg, s) && Schedule(cfg, s, steps)
    ensures |steps| + Rank(cfg, Outcome(cfg, s, steps)) <= Rank(cfg, s)
    ensures !Quiescent(Outcome(cfg, s, steps)) <==> exists step :: Enabled(cfg, Outcome(cfg, s, steps), step)
    decreases |steps|
  {
    if steps != [] {
      StepDescends(cfg, s, steps[0]);
      RunsEnd(cfg, Next(cfg, s, steps[0]), steps[1..]);
    } else if !Quiescent(s) {
      var step := AnyStep(cfg, s);
      assert Enabled(cfg, s, step);
    }
  }

  ghost function AnyStep(cfg: Config, s: State): (step: Step)
    requires Shaped(cfg, s) && !Quiescent(s)
    ensures Enabled(cfg, s, step)
  {
    match s.phase
    case Checking(todo) => if todo == {} then EndCheck else var k :| k in todo; CheckTask(k)
    case Running(todo) => if todo == {} then EndRun else var k :| k in todo; RunTask(k, Clean)
    case Returned(_) =>
      if s.own != {} then var k :| k in s.own; OwnRollbackTask(k)
      else if s.earlier.todo == {} then EarlierNextStage
      else var k :| k in s.earlier.todo; EarlierRollbackTask(k)
  }
}
