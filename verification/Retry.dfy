/**
  Retrying with backoff (`pkg/retry/retry.go`). The surroundings of one call of OnError are an
  environment: what each call of the function answers, which errors are retriable, at which select
  the context is found done, and by how much each backoff step lowers the remaining steps.
 */
module Retry {
  import opened Maybe

  /** The two interruption errors, and everything else a function may return. */
  datatype Error = WaitTimeout | ContextDone | Failure(code: int)

  predicate Interrupted(e: Error) {
    e.WaitTimeout? || e.ContextDone?
  }

  datatype Backoff = Backoff(steps: int, runForever: bool)

  datatype Env = Env(
    answer: nat -> Option<Error>,
    retriable: Error -> bool,
    doneBefore: nat -> bool,
    doneAfter: nat -> bool,
    drop: nat -> nat)

  function Max(a: int, b: int): int {
    if a < b then b else a
  }

  /** Backoff.Step: while steps remain it takes at least one and never goes below zero. */
  function StepDown(steps: int, drop: nat): int {
    if steps <= 0 then steps else Max(0, steps - Max(1, drop))
  }

  /** One turn of the loop after another; `last` is the captured lastErr. */
  datatype Loop =
    | Looping(steps: int, calls: nat, last: Option<Error>)
    | Finished(calls: nat, err: Option<Error>)

  function Finish(calls: nat, err: Error, last: Option<Error>): Loop {
    Finished(calls, if Interrupted(err) && last.Some? then last else Some(err))
  }

  function Turn(forever: bool, env: Env, s: Loop): Loop {
    match s
    case Finished(_, _) => s
    case Looping(steps, calls, last) =>
      if steps <= 0 && !forever then Finish(calls, WaitTimeout, last)
      else if env.doneBefore(calls) then Finish(calls, ContextDone, last)
      else
        var answer := env.answer(calls);
        if answer.None? then Finished(calls + 1, None)
        else if !env.retriable(answer.value) then Finish(calls + 1, answer.value, last)
        else if steps == 1 && !forever then Finish(calls + 1, WaitTimeout, answer)
        else if env.doneAfter(calls) then Finish(calls + 1, ContextDone, answer)
        else Looping(StepDown(steps, env.drop(calls)), calls + 1, answer)
  }

  function Turns(b: Backoff, env: Env, n: nat): Loop {
    if n == 0 then Looping(b.steps, 0, None) else Turn(b.runForever, env, Turns(b, env, n - 1))
  }

  // ---- what a retry amounts to ----------------------------------------------------------

  ghost predicate FailedRetriably(env: Env, i: nat) {
    env.answer(i).Some? && env.retriable(env.answer(i).value)
  }

  /** The steps that remain after so many calls and the backoff step after each. */
  function StepsAfter(b: Backoff, env: Env, calls: nat): int {
    if calls == 0 then b.steps else StepDown(StepsAfter(b, env, calls - 1), env.drop(calls - 1))
  }

  /** No further call after so many: none remained, or the last one had taken the only one left. */
  predicate OutOfSteps(b: Backoff, env: Env, calls: nat) {
    !b.runForever && (StepsAfter(b, env, calls) <= 0 || (calls > 0 && StepsAfter(b, env, calls - 1) == 1))
  }

  /**
    Every call but the last failed retriably, so no call follows a success or a final error, and the
    context was not done at any select before a call, so none follows a cancellation. The result is
    nil exactly when the last call succeeded; a final error is returned as it is unless it is
    an interruption and a retriable error came before; otherwise the last retriable error is returned,
    or the interruption itself when nothing was called.
    The loop goes on whenever it may: if the last call failed retriably, or none was made, then the
    steps were used up or the context was done at the next select.
   */
  ghost predicate Explained(b: Backoff, env: Env, calls: nat, err: Option<Error>) {
    && (forall i: nat :: i + 1 < calls ==> FailedRetriably(env, i))
    && (forall i: nat :: i < calls ==> !env.doneBefore(i))
    && (forall i: nat :: i + 1 < calls ==> !env.doneAfter(i))
    && (err.None? <==> calls > 0 && env.answer(calls - 1).None?)
    && (calls == 0 ==> err == Some(if b.steps <= 0 && !b.runForever then WaitTimeout else ContextDone))
    && (forall i: nat :: i < calls ==> !OutOfSteps(b, env, i))
    && ((calls == 0 || FailedRetriably(env, calls - 1)) ==>
          || OutOfSteps(b, env, calls)
          || env.doneBefore(calls) || (calls > 0 && env.doneAfter(calls - 1)))
    && (calls > 0 && env.answer(calls - 1).Some? ==>
          var final := env.answer(calls - 1).value;
          err == if !env.retriable(final) && Interrupted(final) && calls > 1 then env.answer(calls - 2)
                 else Some(final))
  }

  ghost predicate LoopInv(b: Backoff, env: Env, s: Loop) {
    && (!b.runForever ==> s.calls <= Max(0, b.steps))
    && match s
       case Looping(steps, calls, last) =>
         && (forall i: nat :: i < calls ==> FailedRetriably(env, i) && !env.doneBefore(i) && !env.doneAfter(i))
         && last == (if calls == 0 then None else env.answer(calls - 1))
         && steps == StepsAfter(b, env, calls)
         && (forall i: nat :: i < calls ==> !OutOfSteps(b, env, i))
         && (calls > 0 && !b.runForever ==> StepsAfter(b, env, calls - 1) != 1)
         && (!b.runForever ==> steps <= Max(0, b.steps) - calls || (calls == 0 && steps == b.steps))
       case Finished(calls, err) => Explained(b, env, calls, err)
  }

  lemma StepsNext(b: Backoff, env: Env, calls: nat)
    ensures StepsAfter(b, env, 0) == b.steps
    ensures StepsAfter(b, env, calls + 1) == StepDown(StepsAfter(b, env, calls), env.drop(calls))
  {}

  lemma TurnKeeps(b: Backoff, env: Env, s: Loop)
    requires LoopInv(b, env, s)
    ensures LoopInv(b, env, Turn(b.runForever, env, s))
  {
    hide StepsAfter;
    StepsNext(b, env, s.calls);
    if s.Looping? && s.calls > 0 {
      StepsNext(b, env, s.calls - 1);
      assert FailedRetriably(env, s.calls - 1);
    }
  }

  lemma {:induction false} LoopKeeps(b: Backoff, env: Env, n: nat)
    ensures LoopInv(b, env, Turns(b, env, n))
  {
    if n > 0 {
      LoopKeeps(b, env, n - 1);
      TurnKeeps(b, env, Turns(b, env, n - 1));
    }
  }

  lemma NotFewer(b: Backoff, env: Env, calls: nat, err: Option<Error>, calls': nat, err': Option<Error>)
    requires Explained(b, env, calls, err) && Explained(b, env, calls', err')
    ensures calls' <= calls
  {}

  /** In given surroundings there is only one number of calls and one outcome that can be explained. */
  lemma OneExplanation(b: Backoff, env: Env, calls: nat, err: Option<Error>, calls': nat, err': Option<Error>)
    requires Explained(b, env, calls, err) && Explained(b, env, calls', err')
    ensures calls == calls' && err == err'
  {
    NotFewer(b, env, calls, err, calls', err');
    NotFewer(b, env, calls', err', calls, err);
  }

  /** Without RunForever the loop is over after as many turns as it had steps, and one. */
  lemma {:induction false} LoopEnds(b: Backoff, env: Env, n: nat)
    requires !b.runForever
    ensures Turns(b, env, n).Finished? || Turns(b, env, n).steps <= Max(0, b.steps - n)
    ensures n > Max(0, b.steps) ==> Turns(b, env, n).Finished?
  {
    if n > 0 {
      LoopEnds(b, env, n - 1);
    }
  }

  /** At most `steps` calls; the outcome is explained by the calls made. */
  lemma RetryOutcome(b: Backoff, env: Env, n: nat)
    requires Turns(b, env, n).Finished?
    ensures !b.runForever ==> Turns(b, env, n).calls <= Max(0, b.steps)
    ensures Explained(b, env, Turns(b, env, n).calls, Turns(b, env, n).err)
  {
    LoopKeeps(b, env, n);
  }

  /**
    Without cancellation and RunForever, failure means a final error or that the steps ran out after all calls
    failed.
   */
  lemma ExhaustionReturnsLastError(b: Backoff, env: Env, n: nat)
    requires !b.runForever && b.steps > 0 && Turns(b, env, n).Finished?
    requires forall i :: !env.doneBefore(i) && !env.doneAfter(i)
    requires forall i :: FailedRetriably(env, i)
    ensures Turns(b, env, n).calls > 0
    ensures Turns(b, env, n).err == env.answer(Turns(b, env, n).calls - 1)
    ensures (forall i :: env.drop(i) <= 1) ==> Turns(b, env, n).calls == b.steps
  {
    LoopKeeps(b, env, n);
    FirstTurn(b, env, n);
    assert FailedRetriably(env, Turns(b, env, n).calls - 1);
    if forall i :: env.drop(i) <= 1 {
      CountsDown(b, env, n);
    }
  }

  lemma {:induction false} FirstTurn(b: Backoff, env: Env, n: nat)
    requires !b.runForever && b.steps > 0 && forall i :: !env.doneBefore(i)
    ensures n > 0 ==> Turns(b, env, n).calls > 0
  {
    if n > 1 {
      FirstTurn(b, env, n - 1);
    } else if n == 1 {
      assert Turns(b, env, 0) == Looping(b.steps, 0, None);
    }
  }

  /** When a backoff step takes one, the steps count down to zero. */
  lemma {:induction false} StepsCountDown(b: Backoff, env: Env, calls: nat)
    requires b.steps >= 0 && forall i :: env.drop(i) <= 1
    ensures StepsAfter(b, env, calls) == Max(0, b.steps - calls)
  {
    if calls > 0 {
      StepsCountDown(b, env, calls - 1);
      assert env.drop(calls - 1) <= 1;
    }
  }

  /** Then an uncancelled call that fails retriably to the end makes as many calls as it has steps. */
  lemma UsesAllSteps(b: Backoff, env: Env, calls: nat, err: Option<Error>)
    requires Explained(b, env, calls, err) && !b.runForever && b.steps >= 1
    requires forall i :: env.drop(i) <= 1 && !env.doneBefore(i) && !env.doneAfter(i)
    requires calls > 0 ==> FailedRetriably(env, calls - 1)
    ensures calls == b.steps
  {
    StepsCountDown(b, env, calls);
    StepsCountDown(b, env, b.steps);
    if calls > 0 {
      StepsCountDown(b, env, calls - 1);
    }
    assert OutOfSteps(b, env, calls);
    assert OutOfSteps(b, env, b.steps);
  }

  /** An uncancelled loop with steps does not finish without a call. */
  lemma NotAtOnce(b: Backoff, env: Env, n: nat)
    requires !b.runForever && b.steps > 0 && forall i :: !env.doneBefore(i)
    requires Turns(b, env, n).Finished?
    ensures Turns(b, env, n).calls > 0
  {
    FirstTurn(b, env, n);
  }

  lemma {:induction false} CountsDown(b: Backoff, env: Env, n: nat)
    requires !b.runForever && b.steps > 0
    requires forall i :: !env.doneBefore(i) && !env.doneAfter(i) && env.drop(i) <= 1
    requires forall i :: FailedRetriably(env, i)
    ensures var s := Turns(b, env, n);
      if s.Looping? then s.steps == b.steps - s.calls && s.steps > 0 else s.calls == b.steps
  {
    if n > 0 {
      CountsDown(b, env, n - 1);
      var before := Turns(b, env, n - 1);
      assert FailedRetriably(env, before.calls) && env.drop(before.calls) <= 1;
    }
  }

  /** OnError and the loop it drives. `stop` bounds a RunForever call: it returns only if something ends it. */
  method OnError(b: Backoff, env: Env, ghost stop: nat) returns (err: Option<Error>, calls: nat)
    requires b.runForever ==> Turns(b, env, stop).Finished?
    ensures exists n: nat :: Turns(b, env, n) == Finished(calls, err)
    ensures !b.runForever ==> calls <= Max(0, b.steps)
    ensures Explained(b, env, calls, err)
  {
    ghost var limit := if b.runForever then stop else Max(0, b.steps) + 1;
    if !b.runForever {
      LoopEnds(b, env, limit);
    }
    ghost var n: nat := 0;
    var steps, last: Option<Error> := b.steps, None;
    calls := 0;
    while true
      invariant n <= limit && Turns(b, env, n) == Looping(steps, calls, last)
      decreases limit - n
    {
      StillLooping(b, env, n, limit);
      RetryNext(b, env, n);
      if steps <= 0 && !b.runForever {
        return Resolve(WaitTimeout, last), calls;
      }
      if env.doneBefore(calls) {
        return Resolve(ContextDone, last), calls;
      }
      var answer := env.answer(calls);
      calls := calls + 1;
      if answer.None? {
        return None, calls;
      }
      if !env.retriable(answer.value) {
        return Resolve(answer.value, last), calls;
      }
      last := answer;
      if steps == 1 && !b.runForever {
        return Resolve(WaitTimeout, last), calls;
      }
      steps := StepDown(steps, env.drop(calls - 1));
      if env.doneAfter(calls - 1) {
        return Resolve(ContextDone, last), calls;
      }
      n := n + 1;
    }
  }

  function Resolve(err: Error, last: Option<Error>): Option<Error> {
    if Interrupted(err) && last.Some? then last else Some(err)
  }

  /** A finished loop stays finished, so one that still loops has not reached the limit. */
  lemma {:induction false} StillLooping(b: Backoff, env: Env, n: nat, limit: nat)
    requires n <= limit && Turns(b, env, n).Looping? && Turns(b, env, limit).Finished?
    ensures n < limit
  {}

  lemma RetryNext(b: Backoff, env: Env, n: nat)
    ensures Turns(b, env, n + 1) == Turn(b.runForever, env, Turns(b, env, n))
    ensures Turns(b, env, n + 1).Finished? ==> LoopInv(b, env, Turns(b, env, n + 1))
  {
    LoopKeeps(b, env, n + 1);
  }
}
