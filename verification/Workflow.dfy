/**
  Workflows that run a chain of activities in order, each with retries, nested inside each other
  (`pkg/task/workflow/workflow.go` over `pkg/retry/retry.go`), without cancellation.

  An execution is driven by an environment indexed by a clock that ticks with every call and every
  question asked of it. The trace holds the calls of leaf activities, each named by its path of
  chain positions.
 */
module Workflow {
  import opened Maybe
  import Retry

  datatype Activity = Leaf(name: string) | Flow(name: string, steps: int, chain: seq<Activity>)

  type Path = seq<nat>

  datatype Call = Call(path: Path, ok: bool)

  /** How leaf calls end, whether an error is retriable, and by how much a backoff step lowers the steps. */
  datatype Env = Env(succeeds: nat -> bool, retriable: nat -> bool, drop: nat -> nat)

  datatype Outcome = Outcome(trace: seq<Call>, ok: bool, clock: nat)

  function Under(i: nat, trace: seq<Call>): (r: seq<Call>)
    ensures |r| == |trace| && forall k :: 0 <= k < |r| ==> r[k] == Call([i] + trace[k].path, trace[k].ok)
  {
    seq(|trace|, k requires 0 <= k < |trace| => Call([i] + trace[k].path, trace[k].ok))
  }

  /** One call of an activity: a leaf, or the execution of a whole workflow (AsActivity). */
  function RunActivity(a: Activity, env: Env, clock: nat): Outcome
    decreases a, 1, 0
  {
    match a
    case Leaf(_) => Outcome([Call([], env.succeeds(clock))], env.succeeds(clock), clock + 1)
    case Flow(_, steps, chain) => RunChain(chain, steps, 0, env, clock)
  }

  /** The chain from position `i`; the first activity that fails for good ends it. */
  function RunChain(chain: seq<Activity>, steps: int, i: nat, env: Env, clock: nat): Outcome
    requires i <= |chain|
    decreases chain, 0, |chain| - i
  {
    if i == |chain| then Outcome([], true, clock)
    else
      var first := Attempts(chain[i], steps, env, clock);
      if !first.ok then Outcome(Under(i, first.trace), false, first.clock)
      else
        var rest := RunChain(chain, steps, i + 1, env, first.clock);
        Outcome(Under(i, first.trace) + rest.trace, rest.ok, rest.clock)
  }

  /** An activity with its retries. */
  function Attempts(a: Activity, steps: int, env: Env, clock: nat): Outcome
    decreases a, 2, Retry.Max(0, steps)
  {
    if steps <= 0 then Outcome([], false, clock)
    else
      var once := RunActivity(a, env, clock);
      if once.ok || !env.retriable(once.clock) || steps == 1 then once
      else
        var again := Attempts(a, Retry.StepDown(steps, env.drop(once.clock)), env, once.clock);
        Outcome(once.trace + again.trace, again.ok, again.clock)
  }

  /** What the attempts from `at` on amount to, one attempt at a time. */
  lemma OneAttempt(a: Activity, left: int, env: Env, at: nat)
    ensures
      var r, once := Attempts(a, left, env, at), RunActivity(a, env, at);
      if left <= 0 then r == Outcome([], false, at)
      else if once.ok || !env.retriable(once.clock) || left == 1 then r == once
      else
        var again := Attempts(a, Retry.StepDown(left, env.drop(once.clock)), env, once.clock);
        r == Outcome(once.trace + again.trace, again.ok, again.clock)
  {}

  // ---- the loops ------------------------------------------------------------------------

  /** With `trace` behind it and `rest` to come, the run is `total`. */
  ghost predicate Continues(trace: seq<Call>, rest: Outcome, total: Outcome) {
    total == Outcome(trace + rest.trace, rest.ok, rest.clock)
  }

  lemma Advance(trace: seq<Call>, part: seq<Call>, rest: Outcome, total: Outcome)
    requires Continues(trace, Outcome(part + rest.trace, rest.ok, rest.clock), total)
    ensures Continues(trace + part, rest, total)
  {
    assert trace + (part + rest.trace) == trace + part + rest.trace;
  }

  lemma Last(trace: seq<Call>, rest: Outcome, total: Outcome)
    requires Continues(trace, rest, total)
    ensures total == Outcome(trace + rest.trace, rest.ok, rest.clock)
  {}

  lemma Nothing(rest: Outcome)
    ensures Continues([], rest, rest)
  {
    assert [] + rest.trace == rest.trace;
  }

  lemma Done(trace: seq<Call>, rest: Outcome, total: Outcome)
    requires Continues(trace, rest, total) && rest.trace == []
    ensures total == Outcome(trace, rest.ok, rest.clock)
  {
    assert trace + [] == trace;
  }

  method Execute(chain: seq<Activity>, steps: int, env: Env, clock: nat)
    returns (trace: seq<Call>, ok: bool, clock': nat)
    ensures Outcome(trace, ok, clock') == RunChain(chain, steps, 0, env, clock)
    decreases chain, 0
  {
    trace, ok, clock' := [], true, clock;
    ghost var total := RunChain(chain, steps, 0, env, clock);
    Nothing(total);
    for i := 0 to |chain|
      invariant ok && Continues(trace, RunChain(chain, steps, i, env, clock'), total)
    {
      hide Continues;
      var part;
      ghost var before := clock';
      part, ok, clock' := ExecuteActivity(chain[i], steps, env, clock');
      if !ok {
        Last(trace, RunChain(chain, steps, i, env, before), total);
        trace := trace + Under(i, part);
        return;
      }
      Advance(trace, Under(i, part), RunChain(chain, steps, i + 1, env, clock'), total);
      trace := trace + Under(i, part);
    }
    Done(trace, RunChain(chain, steps, |chain|, env, clock'), total);
  }

  method ExecuteActivity(a: Activity, steps: int, env: Env, clock: nat)
    returns (trace: seq<Call>, ok: bool, clock': nat)
    ensures Outcome(trace, ok, clock') == Attempts(a, steps, env, clock)
    decreases a, 2
  {
    hide Attempts, RunActivity, Continues;
    var left := steps;
    trace, ok, clock' := [], false, clock;
    ghost var total := Attempts(a, steps, env, clock);
    Nothing(total);
    while left > 0
      invariant !ok && Continues(trace, Attempts(a, left, env, clock'), total)
      decreases left
    {
      OneAttempt(a, left, env, clock');
      ghost var rest := Attempts(a, left, env, clock');
      var once;
      once, ok, clock' := RunOnce(a, env, clock');
      if ok || !env.retriable(clock') || left == 1 {
        Last(trace, rest, total);
        trace := trace + once;
        return;
      }
      left := Retry.StepDown(left, env.drop(clock'));
      Advance(trace, once, Attempts(a, left, env, clock'), total);
      trace := trace + once;
    }
    OneAttempt(a, left, env, clock');
    Done(trace, Attempts(a, left, env, clock'), total);
  }

  /** The function handed to the retry loop: a leaf, or a whole workflow as an activity. */
  method RunOnce(a: Activity, env: Env, clock: nat) returns (trace: seq<Call>, ok: bool, clock': nat)
    ensures Outcome(trace, ok, clock') == RunActivity(a, env, clock)
    ensures a.Leaf? ==>
      trace == [Call([], env.succeeds(clock))] && ok == env.succeeds(clock) && clock' == clock + 1
    decreases a, 1
  {
    match a {
      case Leaf(_) =>
        return [Call([], env.succeeds(clock))], env.succeeds(clock), clock + 1;
      case Flow(_, steps, chain) =>
        trace, ok, clock' := Execute(chain, steps, env, clock);
    }
  }

  // ---- the attempts are those of a retry ------------------------------------------------

  /** When attempt `j` of an activity starts. */
  function Started(a: Activity, env: Env, clock: nat, j: nat): nat {
    if j == 0 then clock else RunActivity(a, env, Started(a, env, clock, j - 1)).clock
  }

  /** The surroundings the retry loop sees: each call is one attempt, each error carries its time. */
  function Induced(a: Activity, env: Env, clock: nat): Retry.Env {
    Retry.Env(
      (j: nat) => if RunActivity(a, env, Started(a, env, clock, j)).ok then None
                  else Some(Retry.Failure(Started(a, env, clock, j + 1))),
      (e: Retry.Error) => e.Failure? && e.code >= 0 && env.retriable(e.code),
      (_: nat) => false,
      (_: nat) => false,
      (j: nat) => env.drop(Started(a, env, clock, j + 1)))
  }

  /** The calls of the first `k` attempts. */
  function AttemptTraces(a: Activity, env: Env, clock: nat, k: nat): seq<Call> {
    if k == 0 then []
    else AttemptTraces(a, env, clock, k - 1) + RunActivity(a, env, Started(a, env, clock, k - 1)).trace
  }

  lemma NextAttempt(a: Activity, env: Env, clock: nat, j: nat)
    ensures
      var once := RunActivity(a, env, Started(a, env, clock, j));
      && Started(a, env, clock, j + 1) == once.clock
      && AttemptTraces(a, env, clock, j + 1) == AttemptTraces(a, env, clock, j) + once.trace
  {}

  /** One turn of the retry loop is one attempt. */
  lemma TurnIsAttempt(a: Activity, env: Env, clock: nat, j: nat, left: int, last: Option<Retry.Error>)
    ensures
      var once := RunActivity(a, env, Started(a, env, clock, j));
      var failed := Some(Retry.Failure(once.clock));
      var next := Retry.Turn(false, Induced(a, env, clock), Retry.Looping(left, j, last));
      if left <= 0 then next.Finished? && next.calls == j && next.err.Some?
      else if once.ok then next == Retry.Finished(j + 1, None)
      else if !env.retriable(once.clock) || left == 1 then next == Retry.Finished(j + 1, failed)
      else next == Retry.Looping(Retry.StepDown(left, env.drop(once.clock)), j + 1, failed)
  {
    hide RunActivity, Started, AttemptTraces;
    NextAttempt(a, env, clock, j);
  }

  /** The loop finished at turn `n` as the attempts from `j` on do. */
  ghost predicate EndsLike(a: Activity, b: Retry.Backoff, env: Env, clock: nat, n: nat, j: nat, r: Outcome) {
    var end := Retry.Turns(b, Induced(a, env, clock), n);
    && end.Finished? && (r.ok <==> end.err.None?) && r.clock == Started(a, env, clock, end.calls)
    && AttemptTraces(a, env, clock, end.calls) == AttemptTraces(a, env, clock, j) + r.trace
  }

  lemma EndsLater(a: Activity, b: Retry.Backoff, env: Env, clock: nat, n: nat, j: nat, again: Outcome)
    requires EndsLike(a, b, env, clock, n, j + 1, again)
    ensures
      var once := RunActivity(a, env, Started(a, env, clock, j));
      EndsLike(a, b, env, clock, n, j, Outcome(once.trace + again.trace, again.ok, again.clock))
  {
    hide RunActivity, Started, AttemptTraces, Induced, Retry.Turns;
    NextAttempt(a, env, clock, j);
    var before, once := AttemptTraces(a, env, clock, j), RunActivity(a, env, Started(a, env, clock, j)).trace;
    assert before + once + again.trace == before + (once + again.trace);
  }

  lemma EndsHere(a: Activity, b: Retry.Backoff, env: Env, clock: nat, j: nat, left: int, last: Option<Retry.Error>)
    requires !b.runForever && Retry.Turns(b, Induced(a, env, clock), j) == Retry.Looping(left, j, last)
    requires Retry.Turns(b, Induced(a, env, clock), j + 1).Finished?
    ensures EndsLike(a, b, env, clock, j + 1, j, Attempts(a, left, env, Started(a, env, clock, j)))
  {
    TurnIsAttempt(a, env, clock, j, left, last);
    OneAttempt(a, left, env, Started(a, env, clock, j));
    NextAttempt(a, env, clock, j);
    assert AttemptTraces(a, env, clock, j) + [] == AttemptTraces(a, env, clock, j);
  }

  lemma {:induction false} AttemptsFrom(a: Activity, b: Retry.Backoff, env: Env, clock: nat,
                                        j: nat, left: int, last: Option<Retry.Error>)
    returns (n: nat)
    requires !b.runForever && Retry.Turns(b, Induced(a, env, clock), j) == Retry.Looping(left, j, last)
    ensures EndsLike(a, b, env, clock, n, j, Attempts(a, left, env, Started(a, env, clock, j)))
    decreases Retry.Max(0, left)
  {
    hide RunActivity, Attempts, Started, AttemptTraces, EndsLike;
    var next := Retry.Turns(b, Induced(a, env, clock), j + 1);
    assert next == Retry.Turn(false, Induced(a, env, clock), Retry.Looping(left, j, last));
    TurnIsAttempt(a, env, clock, j, left, last);
    if next.Finished? {
      n := j + 1;
      EndsHere(a, b, env, clock, j, left, last);
    } else {
      n := AttemptsFrom(a, b, env, clock, j + 1, next.steps, next.last);
      NextAttempt(a, env, clock, j);
      OneAttempt(a, left, env, Started(a, env, clock, j));
      EndsLater(a, b, env, clock, n, j, Attempts(a, next.steps, env, Started(a, env, clock, j + 1)));
    }
  }

  /** The attempts of an activity are the calls of the retry loop, with its outcome. */
  lemma AttemptsAreRetries(a: Activity, steps: int, env: Env, clock: nat) returns (n: nat)
    ensures
      var end := Retry.Turns(Retry.Backoff(steps, false), Induced(a, env, clock), n);
      var r := Attempts(a, steps, env, clock);
      && end.Finished? && (r.ok <==> end.err.None?)
      && r.trace == AttemptTraces(a, env, clock, end.calls) && r.clock == Started(a, env, clock, end.calls)
  {
    n := AttemptsFrom(a, Retry.Backoff(steps, false), env, clock, 0, steps, None);
  }

  /**
    The activity is attempted `k` times, as a retry with these steps is explained to be in the
    surroundings it induces, and goes through or not.
   */
  ghost predicate Retried(a: Activity, steps: int, env: Env, at: nat, k: nat, ok: bool) {
    exists err :: Retry.Explained(Retry.Backoff(steps, false), Induced(a, env, at), k, err) && (ok <==> err.None?)
  }

  predicate FailsRetriably(a: Activity, env: Env, clock: nat, j: nat) {
    !RunActivity(a, env, Started(a, env, clock, j)).ok && env.retriable(Started(a, env, clock, j + 1))
  }

  lemma OthersFail(a: Activity, b: Retry.Backoff, env: Env, clock: nat, k: nat, err: Option<Retry.Error>, j: nat)
    requires Retry.Explained(b, Induced(a, env, clock), k, err) && j + 1 < k
    ensures FailsRetriably(a, env, clock, j)
  {
    hide RunActivity, Started;
    assert Retry.FailedRetriably(Induced(a, env, clock), j);
  }

  /** How often an activity is attempted: all attempts but the last fail retriably, and the last one decides. */
  lemma AttemptsCounted(a: Activity, steps: int, env: Env, clock: nat) returns (k: nat)
    ensures Retried(a, steps, env, clock, k, Attempts(a, steps, env, clock).ok)
    ensures k <= Retry.Max(0, steps) && (steps >= 1 ==> k >= 1)
    ensures Attempts(a, steps, env, clock).trace == AttemptTraces(a, env, clock, k)
    ensures Attempts(a, steps, env, clock).clock == Started(a, env, clock, k)
    ensures k > 0 ==> Attempts(a, steps, env, clock).ok == RunActivity(a, env, Started(a, env, clock, k - 1)).ok
    ensures forall j: nat :: j < k - 1 ==> FailsRetriably(a, env, clock, j)
  {
    hide RunActivity, Attempts, Started, AttemptTraces, Retry.Turns, Retry.Explained, FailsRetriably;
    var b, ind := Retry.Backoff(steps, false), Induced(a, env, clock);
    var n := AttemptsAreRetries(a, steps, env, clock);
    Retry.RetryOutcome(b, ind, n);
    if steps >= 1 {
      Retry.NotAtOnce(b, ind, n);
    }
    k := Retry.Turns(b, ind, n).calls;
    forall j: nat | j < k - 1 ensures FailsRetriably(a, env, clock, j) {
      OthersFail(a, b, env, clock, k, Retry.Turns(b, ind, n).err, j);
    }
    if k > 0 {
      LastDecides(b, ind, k, Retry.Turns(b, ind, n).err);
    }
  }

  lemma LastDecides(b: Retry.Backoff, ind: Retry.Env, k: nat, err: Option<Retry.Error>)
    requires Retry.Explained(b, ind, k, err) && k > 0
    ensures err.None? <==> ind.answer(k - 1).None?
  {}

  /** A chain from position `i` when its activities are attempted `ks[0]`, `ks[1]` and so on times. */
  function Composed(chain: seq<Activity>, i: nat, ks: seq<nat>, env: Env, clock: nat): seq<Call>
    requires i + |ks| <= |chain|
    decreases |ks|
  {
    if ks == [] then []
    else Under(i, AttemptTraces(chain[i], env, clock, ks[0]))
         + Composed(chain, i + 1, ks[1..], env, Started(chain[i], env, clock, ks[0]))
  }

  /** When the `m`-th of these activities starts. */
  function StartOf(chain: seq<Activity>, i: nat, ks: seq<nat>, env: Env, clock: nat, m: nat): nat
    requires i + |ks| <= |chain| && m <= |ks|
    decreases m
  {
    if m == 0 then clock
    else StartOf(chain, i + 1, ks[1..], env, Started(chain[i], env, clock, ks[0]), m - 1)
  }

  /**
    Each activity is retried with the workflow's own steps, all but the last go through, and the last
    goes through exactly when the chain does; only a failure ends the chain early.
   */
  ghost predicate ChainRetried(chain: seq<Activity>, steps: int, i: nat, ks: seq<nat>, env: Env, clock: nat, ok: bool)
    requires i + |ks| <= |chain|
  {
    && (forall m: nat :: m < |ks| ==>
          && ks[m] <= Retry.Max(0, steps) && (steps >= 1 ==> ks[m] >= 1)
          && Retried(chain[i + m], steps, env, StartOf(chain, i, ks, env, clock, m), ks[m], m + 1 < |ks| || ok))
    && (ok ==> i + |ks| == |chain|) && (!ok ==> ks != [])
  }

  lemma ChainStep(chain: seq<Activity>, steps: int, i: nat, k: nat, rest: seq<nat>, env: Env, clock: nat, ok: bool)
    requires i + 1 + |rest| <= |chain| && k <= Retry.Max(0, steps) && (steps >= 1 ==> k >= 1)
    requires Retried(chain[i], steps, env, clock, k, true)
    requires ChainRetried(chain, steps, i + 1, rest, env, Started(chain[i], env, clock, k), ok)
    ensures ChainRetried(chain, steps, i, [k] + rest, env, clock, ok)
  {
    hide Retried, Started;
    var ks := [k] + rest;
    assert ks[1..] == rest;
    forall m: nat | m < |ks|
      ensures ks[m] <= Retry.Max(0, steps) && (steps >= 1 ==> ks[m] >= 1)
      ensures Retried(chain[i + m], steps, env, StartOf(chain, i, ks, env, clock, m), ks[m], m + 1 < |ks| || ok)
    {
      if m > 0 {
        assert ks[m] == rest[m - 1] && chain[i + m] == chain[i + 1 + (m - 1)];
      }
    }
  }

  /**
    The trace of a chain is a0 k0 times, a1 k1 times and so on, where each count is what retrying that
    activity with the workflow's steps amounts to.
   */
  lemma {:induction false} ChainCounted(chain: seq<Activity>, steps: int, i: nat, env: Env, clock: nat)
    returns (ks: seq<nat>)
    requires i <= |chain|
    ensures i + |ks| <= |chain|
    ensures ChainRetried(chain, steps, i, ks, env, clock, RunChain(chain, steps, i, env, clock).ok)
    ensures RunChain(chain, steps, i, env, clock).trace == Composed(chain, i, ks, env, clock)
    decreases |chain| - i
  {
    hide Attempts, RunActivity, Retried, Started, AttemptTraces;
    if i == |chain| {
      return [];
    }
    var k := AttemptsCounted(chain[i], steps, env, clock);
    var first := Attempts(chain[i], steps, env, clock);
    if !first.ok {
      ks := [k];
      assert ks[1..] == [] && Under(i, first.trace) + [] == Under(i, first.trace);
    } else {
      var rest := ChainCounted(chain, steps, i + 1, env, first.clock);
      ks := [k] + rest;
      assert ks[1..] == rest;
      ChainStep(chain, steps, i, k, rest, env, clock, RunChain(chain, steps, i + 1, env, first.clock).ok);
    }
  }

  /** The same for a workflow run as an activity: it uses its own steps, whatever the outer one's are. */
  lemma FlowCounted(name: string, steps: int, chain: seq<Activity>, env: Env, clock: nat) returns (ks: seq<nat>)
    ensures |ks| <= |chain|
    ensures
      var r := RunActivity(Flow(name, steps, chain), env, clock);
      ChainRetried(chain, steps, 0, ks, env, clock, r.ok) && r.trace == Composed(chain, 0, ks, env, clock)
  {
    ks := ChainCounted(chain, steps, 0, env, clock);
  }

  /**
    When every error is retriable and each backoff step takes one, a failing chain made exactly Steps
    attempts at its last position.
   */
  lemma FailureUsesAllSteps(chain: seq<Activity>, steps: int, env: Env, clock: nat) returns (ks: seq<nat>)
    requires steps >= 1 && !RunChain(chain, steps, 0, env, clock).ok
    requires forall t :: env.retriable(t) && env.drop(t) <= 1
    ensures 0 < |ks| <= |chain| && ks[|ks| - 1] == steps
    ensures RunChain(chain, steps, 0, env, clock).trace == Composed(chain, 0, ks, env, clock)
  {
    ks := ChainCounted(chain, steps, 0, env, clock);
    var m := |ks| - 1;
    RetryUsesAllSteps(chain[m], steps, env, StartOf(chain, 0, ks, env, clock, m), ks[m]);
  }

  lemma RetryUsesAllSteps(a: Activity, steps: int, env: Env, at: nat, k: nat)
    requires steps >= 1 && Retried(a, steps, env, at, k, false)
    requires forall t :: env.retriable(t) && env.drop(t) <= 1
    ensures k == steps
  {
    hide RunActivity, Started;
    var b, ind := Retry.Backoff(steps, false), Induced(a, env, at);
    var err :| Retry.Explained(b, ind, k, err) && err.Some?;
    assert k > 0 ==> Retry.FailedRetriably(ind, k - 1);
    Retry.UsesAllSteps(b, ind, k, err);
  }

  // ---- how often a leaf is called -------------------------------------------------------

  function Count(trace: seq<Call>, path: Path): nat {
    if trace == [] then 0 else (if trace[0].path == path then 1 else 0) + Count(trace[1..], path)
  }

  /** The product of the steps on the way to the leaf. */
  function Bound(a: Activity, path: Path): nat {
    match a
    case Leaf(_) => if path == [] then 1 else 0
    case Flow(_, steps, chain) =>
      if path == [] || path[0] >= |chain| then 0 else Retry.Max(0, steps) * Bound(chain[path[0]], path[1..])
  }

  lemma {:induction false} CountConcat(a: seq<Call>, b: seq<Call>, path: Path)
    ensures Count(a + b, path) == Count(a, path) + Count(b, path)
  {
    if a == [] {
      assert a + b == b;
    } else {
      CountConcat(a[1..], b, path);
      assert (a + b)[1..] == a[1..] + b;
    }
  }

  lemma {:induction false} CountUnder(i: nat, trace: seq<Call>, path: Path)
    ensures Count(Under(i, trace), path) == if path != [] && path[0] == i then Count(trace, path[1..]) else 0
  {
    if trace != [] {
      CountUnder(i, trace[1..], path);
      assert Under(i, trace)[1..] == Under(i, trace[1..]);
      var head := [i] + trace[0].path;
      assert head[1..] == trace[0].path;
      assert path != [] ==> path == [path[0]] + path[1..];
    }
  }

  /** A leaf is called at most the product of the Steps of the workflows on its path. */
  lemma {:induction false} NestedBound(a: Activity, env: Env, clock: nat, path: Path)
    ensures Count(RunActivity(a, env, clock).trace, path) <= Bound(a, path)
    decreases a, 1, 0
  {
    match a
    case Leaf(_) =>
      assert [Call([], env.succeeds(clock))][1..] == [];
    case Flow(_, steps, chain) =>
      ChainBound(chain, steps, 0, env, clock, path);
  }

  lemma {:induction false} ChainBound(chain: seq<Activity>, steps: int, i: nat, env: Env, clock: nat, path: Path)
    requires i <= |chain|
    ensures Count(RunChain(chain, steps, i, env, clock).trace, path)
      <= if path != [] && i <= path[0] < |chain| then Retry.Max(0, steps) * Bound(chain[path[0]], path[1..]) else 0
    decreases chain, 0, |chain| - i
  {
    if i < |chain| {
      var first := Attempts(chain[i], steps, env, clock);
      CountUnder(i, first.trace, path);
      if path != [] {
        AttemptsBound(chain[i], steps, env, clock, path[1..]);
      }
      if first.ok {
        ChainBound(chain, steps, i + 1, env, first.clock, path);
        CountConcat(Under(i, first.trace), RunChain(chain, steps, i + 1, env, first.clock).trace, path);
      }
    }
  }

  lemma TimesMonotone(x: nat, y: nat, b: nat)
    requires x < y
    ensures b + x * b <= y * b
  {
    assert y * b == (x + 1) * b + (y - x - 1) * b;
  }

  lemma {:induction false} AttemptsBound(a: Activity, steps: int, env: Env, clock: nat, path: Path)
    ensures Count(Attempts(a, steps, env, clock).trace, path) <= Retry.Max(0, steps) * Bound(a, path)
    decreases a, 2, Retry.Max(0, steps)
  {
    if steps > 0 {
      NestedBound(a, env, clock, path);
      var once := RunActivity(a, env, clock);
      if once.ok || !env.retriable(once.clock) || steps == 1 {
        TimesMonotone(0, steps, Bound(a, path));
      } else {
        var left := Retry.StepDown(steps, env.drop(once.clock));
        AttemptsBound(a, left, env, once.clock, path);
        CountConcat(once.trace, Attempts(a, left, env, once.clock).trace, path);
        TimesMonotone(left, steps, Bound(a, path));
      }
    }
  }

  // ---- order and outcome ----------------------------------------------------------------

  /** Chain positions never go back: a0 as often as it takes, then a1, and so on. */
  ghost predicate InOrder(trace: seq<Call>, from: nat) {
    && (forall k :: 0 <= k < |trace| ==> Position(trace[k]) >= from)
    && forall k, l :: 0 <= k < l < |trace| ==> Position(trace[k]) <= Position(trace[l])
  }

  function Position(c: Call): int {
    if c.path == [] then -1 else c.path[0]
  }

  ghost predicate Visits(trace: seq<Call>, i: nat) {
    exists l :: 0 <= l < |trace| && Position(trace[l]) == i
  }

  /** Before the chain moves on, the last call made at the old position succeeded. */
  ghost predicate AdvancesOnSuccess(trace: seq<Call>) {
    forall k :: 0 < k < |trace| && Position(trace[k - 1]) != Position(trace[k]) ==> trace[k - 1].ok
  }

  // ---- order without any assumption -----------------------------------------------------

  /** Whether an activity makes no calls at all, and then its outcome, is a matter of its structure alone. */
  lemma {:induction false} SilenceFixed(a: Activity, env: Env, c: nat, d: nat)
    requires RunActivity(a, env, c).trace == []
    ensures RunActivity(a, env, d).trace == [] && RunActivity(a, env, d).ok == RunActivity(a, env, c).ok
    decreases a, 1, 0
  {
    if a.Flow? {
      SilentChain(a.chain, a.steps, 0, env, c, d);
    }
  }

  lemma {:induction false} SilentChain(chain: seq<Activity>, steps: int, i: nat, env: Env, c: nat, d: nat)
    requires i <= |chain| && RunChain(chain, steps, i, env, c).trace == []
    ensures RunChain(chain, steps, i, env, d).trace == []
    ensures RunChain(chain, steps, i, env, d).ok == RunChain(chain, steps, i, env, c).ok
    decreases chain, 0, |chain| - i
  {
    if i < |chain| {
      var first := Attempts(chain[i], steps, env, c);
      assert |Under(i, first.trace)| == |first.trace|;
      if steps > 0 {
        FirstAttemptSilent(chain[i], steps, env, c);
        SilentAttempts(chain[i], steps, env, c, c);
        SilentAttempts(chain[i], steps, env, c, d);
      }
      if first.ok {
        SilentChain(chain, steps, i + 1, env, first.clock, Attempts(chain[i], steps, env, d).clock);
      }
    }
  }

  lemma FirstAttemptSilent(a: Activity, steps: int, env: Env, c: nat)
    requires steps > 0 && Attempts(a, steps, env, c).trace == []
    ensures RunActivity(a, env, c).trace == []
  {
    assert |RunActivity(a, env, c).trace| <= |Attempts(a, steps, env, c).trace|;
  }

  lemma {:induction false} SilentAttempts(a: Activity, steps: int, env: Env, c: nat, d: nat)
    requires RunActivity(a, env, c).trace == [] && steps > 0
    ensures Attempts(a, steps, env, d).trace == [] && Attempts(a, steps, env, d).ok == RunActivity(a, env, c).ok
    decreases a, 2, steps
  {
    SilenceFixed(a, env, c, d);
    var once := RunActivity(a, env, d);
    if !(once.ok || !env.retriable(once.clock) || steps == 1) {
      var left := Retry.StepDown(steps, env.drop(once.clock));
      if left > 0 {
        SilentAttempts(a, left, env, c, once.clock);
      }
    }
  }

  predicate EndsOk(trace: seq<Call>) {
    trace == [] || trace[|trace| - 1].ok
  }

  /** What succeeds ends with a successful call, if it made any. */
  lemma {:induction false} SuccessEndsOk(a: Activity, env: Env, clock: nat)
    requires RunActivity(a, env, clock).ok
    ensures EndsOk(RunActivity(a, env, clock).trace)
    decreases a, 1, 0
  {
    if a.Flow? {
      ChainInOrder(a.chain, a.steps, 0, env, clock);
    }
  }

  lemma {:induction false} AttemptsEndOk(a: Activity, steps: int, env: Env, clock: nat)
    requires Attempts(a, steps, env, clock).ok
    ensures EndsOk(Attempts(a, steps, env, clock).trace)
    decreases a, 2, Retry.Max(0, steps)
  {
    var once := RunActivity(a, env, clock);
    if once.ok {
      SuccessEndsOk(a, env, clock);
    } else {
      var left := Retry.StepDown(steps, env.drop(once.clock));
      var again := Attempts(a, left, env, once.clock);
      AttemptsEndOk(a, left, env, once.clock);
      if again.trace == [] {
        FirstAttemptSilent(a, left, env, once.clock);
        SilentAttempts(a, left, env, once.clock, once.clock);
        SilenceFixed(a, env, once.clock, clock);
      }
    }
  }

  /** What is known of any chain: its calls come in chain order, and it moves on only after a success. */
  ghost predicate Sequential(o: Outcome, i: nat) {
    InOrder(o.trace, i) && AdvancesOnSuccess(o.trace) && (o.ok ==> EndsOk(o.trace))
  }

  lemma JoinSequential(head: seq<Call>, rest: Outcome, i: nat)
    requires EndsOk(head) && forall k :: 0 <= k < |head| ==> Position(head[k]) == i
    requires Sequential(rest, i + 1)
    ensures Sequential(Outcome(head + rest.trace, rest.ok, rest.clock), i)
  {
    var all := head + rest.trace;
    forall k | 0 < k < |all| && Position(all[k - 1]) != Position(all[k]) ensures all[k - 1].ok {
      if k > |head| {
        assert all[k - 1] == rest.trace[k - 1 - |head|] && all[k] == rest.trace[k - |head|];
      }
    }
  }

  /** For all workflows, also empty ones and ones without steps. */
  lemma {:induction false} ChainInOrder(chain: seq<Activity>, steps: int, i: nat, env: Env, clock: nat)
    requires i <= |chain|
    ensures Sequential(RunChain(chain, steps, i, env, clock), i)
    decreases chain, 0, |chain| - i
  {
    if i < |chain| {
      var first := Attempts(chain[i], steps, env, clock);
      if first.ok {
        AttemptsEndOk(chain[i], steps, env, clock);
        ChainInOrder(chain, steps, i + 1, env, first.clock);
        JoinSequential(Under(i, first.trace), RunChain(chain, steps, i + 1, env, first.clock), i);
      }
    }
  }

  // ---- productive workflows -------------------------------------------------------------

  /** Every workflow allows at least one attempt and does something. */
  ghost predicate Productive(a: Activity) {
    a.Flow? ==> a.steps >= 1 && a.chain != [] && forall i :: 0 <= i < |a.chain| ==> Productive(a.chain[i])
  }

  /** A run that made calls succeeded exactly when its last call did. */
  ghost predicate EndsAs(o: Outcome) {
    o.trace != [] && o.ok == o.trace[|o.trace| - 1].ok
  }

  lemma {:induction false} ActivityEnds(a: Activity, env: Env, clock: nat)
    requires Productive(a)
    ensures EndsAs(RunActivity(a, env, clock))
    decreases a, 1, 0
  {
    if a.Flow? {
      ChainOrder(a.chain, a.steps, 0, env, clock);
    }
  }

  lemma {:induction false} AttemptsEnd(a: Activity, steps: int, env: Env, clock: nat)
    requires Productive(a) && steps >= 1
    ensures EndsAs(Attempts(a, steps, env, clock))
    decreases a, 2, Retry.Max(0, steps)
  {
    ActivityEnds(a, env, clock);
    var once := RunActivity(a, env, clock);
    if !(once.ok || !env.retriable(once.clock) || steps == 1) {
      var left := Retry.StepDown(steps, env.drop(once.clock));
      if left >= 1 {
        AttemptsEnd(a, left, env, once.clock);
      } else {
        assert once.trace + [] == once.trace;
      }
    }
  }

  /** What the outcome of the chain from position `i` looks like. */
  ghost predicate Orderly(o: Outcome, i: nat, n: nat) {
    && InOrder(o.trace, i) && AdvancesOnSuccess(o.trace)
    && (i < n ==> EndsAs(o) && Visits(o.trace, i))
    && (o.ok ==> forall k: nat :: i <= k < n ==> Visits(o.trace, k))
  }

  lemma FailedThere(trace: seq<Call>, i: nat, n: nat, clock: nat)
    requires trace != [] && !trace[|trace| - 1].ok && forall k :: 0 <= k < |trace| ==> Position(trace[k]) == i
    ensures Orderly(Outcome(trace, false, clock), i, n)
  {
    assert Position(trace[0]) == i;
  }

  lemma JoinOrder(head: seq<Call>, rest: Outcome, i: nat, n: nat)
    requires head != [] && head[|head| - 1].ok && forall k :: 0 <= k < |head| ==> Position(head[k]) == i
    requires i < n && Orderly(rest, i + 1, n) && (i + 1 == n ==> rest.trace == [] && rest.ok)
    ensures Orderly(Outcome(head + rest.trace, rest.ok, rest.clock), i, n)
  {
    var all := head + rest.trace;
    forall k | 0 < k < |all| && Position(all[k - 1]) != Position(all[k]) ensures all[k - 1].ok {
      if k > |head| {
        assert all[k - 1] == rest.trace[k - 1 - |head|] && all[k] == rest.trace[k - |head|];
      }
    }
    assert Position(all[0]) == i;
    forall k: nat | Visits(rest.trace, k) ensures Visits(all, k) {
      var l :| 0 <= l < |rest.trace| && Position(rest.trace[l]) == k;
      assert all[|head| + l] == rest.trace[l];
    }
  }

  /**
    When every workflow allows an attempt and does something, success moreover means that every activity
    was called, and the outcome of a chain is that of its last call.
   */
  lemma {:induction false} ChainOrder(chain: seq<Activity>, steps: int, i: nat, env: Env, clock: nat)
    requires i <= |chain| && steps >= 1 && forall k :: 0 <= k < |chain| ==> Productive(chain[k])
    ensures Orderly(RunChain(chain, steps, i, env, clock), i, |chain|)
    decreases chain, 0, |chain| - i
  {
    if i < |chain| {
      var first := Attempts(chain[i], steps, env, clock);
      AttemptsEnd(chain[i], steps, env, clock);
      var head := Under(i, first.trace);
      if first.ok {
        ChainOrder(chain, steps, i + 1, env, first.clock);
        JoinOrder(head, RunChain(chain, steps, i + 1, env, first.clock), i, |chain|);
      } else {
        FailedThere(head, i, |chain|, first.clock);
      }
    }
  }
}
