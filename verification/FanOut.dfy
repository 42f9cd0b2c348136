/**
  The fan-out protocol of `RunAllBackground` (`pkg/graceful/graceful.go`) as a transition system: one
  goroutine per function, one buffered error channel, one closer, one consumer.
 */
module FanOut {
  import opened Maybe

  type Error = nat

  /** A worker: running its function; holding an error before the cancel; before the send; before wg.Done; gone. */
  datatype Worker =
    | Working
    | Failed(err: Error)
    | Sending(err: Error)
    | Leaving(result: Option<Error>)
    | Gone(result: Option<Error>)

  datatype Closer = Waiting | Closed | Ended

  datatype State = State(
    workers: seq<Worker>,
    closer: Closer,
    buffer: seq<Error>,
    received: seq<Error>,
    cancelled: bool)

  datatype Step =
    | Return(w: nat, result: Option<Error>)
    | CancelAll(w: nat)
    | Send(w: nat)
    | WaitGroupDone(w: nat)
    | Close
    | FinalCancel
    | Receive
    | OutsideCancel

  function Start(n: nat): State {
    State(seq(n, _ => Working), Waiting, [], [], false)
  }

  predicate AllGone(workers: seq<Worker>) {
    forall w :: 0 <= w < |workers| ==> workers[w].Gone?
  }

  /** A send on a full channel blocks: the step is enabled only when there is room for it. */
  predicate Enabled(s: State, step: Step) {
    match step
    case Return(w, _) => w < |s.workers| && s.workers[w].Working?
    case CancelAll(w) => w < |s.workers| && s.workers[w].Failed?
    case Send(w) => w < |s.workers| && s.workers[w].Sending? && |s.buffer| < |s.workers|
    case WaitGroupDone(w) => w < |s.workers| && s.workers[w].Leaving?
    case Close => s.closer == Waiting && AllGone(s.workers)
    case FinalCancel => s.closer == Closed
    case Receive => s.buffer != []
    case OutsideCancel => !s.cancelled
  }

  function Next(s: State, failFast: bool, step: Step): State
    requires Enabled(s, step)
  {
    match step
    case Return(w, result) =>
      s.(workers := s.workers[w := if result.Some? then Failed(result.value) else Leaving(None)])
    case CancelAll(w) =>
      s.(workers := s.workers[w := Sending(s.workers[w].err)], cancelled := s.cancelled || failFast)
    case Send(w) =>
      s.(workers := s.workers[w := Leaving(Some(s.workers[w].err))], buffer := s.buffer + [s.workers[w].err])
    case WaitGroupDone(w) =>
      s.(workers := s.workers[w := Gone(s.workers[w].result)])
    case Close => s.(closer := Closed)
    case FinalCancel => s.(closer := Ended, cancelled := true)
    case Receive => s.(received := s.received + [s.buffer[0]], buffer := s.buffer[1..])
    case OutsideCancel => s.(cancelled := true)
  }

  predicate Schedule(s: State, failFast: bool, steps: seq<Step>)
    decreases |steps|
  {
    steps == [] || (Enabled(s, steps[0]) && Schedule(Next(s, failFast, steps[0]), failFast, steps[1..]))
  }

  function Outcome(s: State, failFast: bool, steps: seq<Step>): State
    requires Schedule(s, failFast, steps)
    decreases |steps|
  {
    if steps == [] then s else Outcome(Next(s, failFast, steps[0]), failFast, steps[1..])
  }

  // ---- the invariant --------------------------------------------------------------------

  /** How often an error occurs; `None` asks for all of them together. */
  function Tally(errs: seq<Error>, e: Option<Error>): nat {
    if errs == [] then 0
    else Tally(errs[..|errs| - 1], e) + if e.None? || errs[|errs| - 1] == e.value then 1 else 0
  }

  function Matches(r: Option<Error>, e: Option<Error>): nat {
    if r.Some? && (e.None? || r == e) then 1 else 0
  }

  /** What a worker has put on the channel. */
  function SentBy(w: Worker): Option<Error> {
    if w.Leaving? || w.Gone? then w.result else None
  }

  function Sent(workers: seq<Worker>, e: Option<Error>): nat {
    if workers == [] then 0
    else Sent(workers[..|workers| - 1], e) + Matches(SentBy(workers[|workers| - 1]), e)
  }

  /** What its function returned. */
  function ErrorOf(w: Worker): Option<Error> {
    match w
    case Working => None
    case Failed(e) => Some(e)
    case Sending(e) => Some(e)
    case Leaving(r) => r
    case Gone(r) => r
  }

  function Errors(workers: seq<Worker>, e: Option<Error>): nat {
    if workers == [] then 0
    else Errors(workers[..|workers| - 1], e) + Matches(ErrorOf(workers[|workers| - 1]), e)
  }

  function Visible(s: State, e: Option<Error>): nat {
    Tally(s.received, e) + Tally(s.buffer, e)
  }

  ghost predicate CancelledFirst(s: State) {
    forall w :: 0 <= w < |s.workers| && (s.workers[w].Sending? || SentBy(s.workers[w]).Some?) ==> s.cancelled
  }

  ghost predicate Inv(s: State, failFast: bool) {
    && (forall e :: Visible(s, e) == Sent(s.workers, e))
    && (s.closer != Waiting ==> AllGone(s.workers))
    && (failFast ==> CancelledFirst(s))
  }

  lemma {:induction false} TallyAll(errs: seq<Error>)
    ensures Tally(errs, None) == |errs|
  {
    if errs != [] {
      TallyAll(errs[..|errs| - 1]);
    }
  }

  lemma {:induction false} TallyHead(errs: seq<Error>, e: Option<Error>)
    requires errs != []
    ensures Tally(errs, e) == Matches(Some(errs[0]), e) + Tally(errs[1..], e)
  {
    var n := |errs| - 1;
    if n > 0 {
      TallyHead(errs[..n], e);
      assert errs[..n][1..] == errs[1..][..n - 1];
    }
  }

  lemma TallySnoc(errs: seq<Error>, x: Error, e: Option<Error>)
    ensures Tally(errs + [x], e) == Tally(errs, e) + Matches(Some(x), e)
  {
    assert (errs + [x])[..|errs|] == errs;
  }

  /** One worker's change shows in the total as the change of what it has sent. */
  lemma {:induction false} SentUpdate(workers: seq<Worker>, w: nat, x: Worker, e: Option<Error>)
    requires w < |workers|
    ensures Sent(workers[w := x], e) == Sent(workers, e) - Matches(SentBy(workers[w]), e) + Matches(SentBy(x), e)
  {
    var n := |workers| - 1;
    if w == n {
      assert workers[w := x][..n] == workers[..n];
    } else {
      SentUpdate(workers[..n], w, x, e);
      assert workers[w := x][..n] == workers[..n][w := x];
    }
  }

  /** A worker that has not sent leaves room for its error. */
  lemma {:induction false} RoomToSend(workers: seq<Worker>, w: int)
    requires 0 <= w < |workers| ==> SentBy(workers[w]).None?
    ensures Sent(workers, None) <= |workers|
    ensures 0 <= w < |workers| ==> Sent(workers, None) < |workers|
  {
    if workers != [] {
      RoomToSend(workers[..|workers| - 1], w);
    }
  }

  lemma {:induction false} StartSent(n: nat, e: Option<Error>)
    ensures Sent(Start(n).workers, e) == 0
  {
    if n > 0 {
      StartSent(n - 1, e);
      assert Start(n).workers[..n - 1] == Start(n - 1).workers;
    }
  }

  lemma StepKeepsErrors(s: State, failFast: bool, step: Step, e: Option<Error>)
    requires Visible(s, e) == Sent(s.workers, e) && Enabled(s, step)
    ensures Visible(Next(s, failFast, step), e) == Sent(Next(s, failFast, step).workers, e)
  {
    hide Tally, Sent;
    var s' := Next(s, failFast, step);
    match step
    case Return(w, result) => SentUpdate(s.workers, w, s'.workers[w], e);
    case CancelAll(w) => SentUpdate(s.workers, w, s'.workers[w], e);
    case Send(w) =>
      SentUpdate(s.workers, w, s'.workers[w], e);
      TallySnoc(s.buffer, s.workers[w].err, e);
    case WaitGroupDone(w) => SentUpdate(s.workers, w, s'.workers[w], e);
    case Receive =>
      TallyHead(s.buffer, e);
      TallySnoc(s.received, s.buffer[0], e);
    case _ =>
  }

  lemma StepKeeps(s: State, failFast: bool, step: Step)
    requires Inv(s, failFast) && Enabled(s, step)
    ensures Inv(Next(s, failFast, step), failFast)
  {
    forall e ensures Visible(Next(s, failFast, step), e) == Sent(Next(s, failFast, step).workers, e) {
      StepKeepsErrors(s, failFast, step, e);
    }
  }

  lemma {:induction false} OutcomeKeeps(s: State, failFast: bool, steps: seq<Step>)
    requires Inv(s, failFast) && Schedule(s, failFast, steps)
    ensures Inv(Outcome(s, failFast, steps), failFast) && |Outcome(s, failFast, steps).workers| == |s.workers|
    decreases |steps|
  {
    if steps != [] {
      StepKeeps(s, failFast, steps[0]);
      OutcomeKeeps(Next(s, failFast, steps[0]), failFast, steps[1..]);
    }
  }

  lemma ReachableInv(n: nat, failFast: bool, steps: seq<Step>)
    requires Schedule(Start(n), failFast, steps)
    ensures Inv(Outcome(Start(n), failFast, steps), failFast)
    ensures |Outcome(Start(n), failFast, steps).workers| == n
  {
    forall e ensures Sent(Start(n).workers, e) == 0 {
      StartSent(n, e);
    }
    OutcomeKeeps(Start(n), failFast, steps);
  }

  // ---- what the functions returned ------------------------------------------------------

  /** How often the functions returned an error, by the steps in which they did; `None` asks for all errors. */
  function Returned(steps: seq<Step>, e: Option<Error>): nat {
    if steps == [] then 0
    else (if steps[0].Return? then Matches(steps[0].result, e) else 0) + Returned(steps[1..], e)
  }

  lemma {:induction false} ErrorsUpdate(workers: seq<Worker>, w: nat, x: Worker, e: Option<Error>)
    requires w < |workers|
    ensures Errors(workers[w := x], e) == Errors(workers, e) - Matches(ErrorOf(workers[w]), e) + Matches(ErrorOf(x), e)
  {
    var n := |workers| - 1;
    if w == n {
      assert workers[w := x][..n] == workers[..n];
    } else {
      ErrorsUpdate(workers[..n], w, x, e);
      assert workers[w := x][..n] == workers[..n][w := x];
    }
  }

  lemma StepReturns(s: State, failFast: bool, step: Step, e: Option<Error>)
    requires Enabled(s, step)
    ensures Errors(Next(s, failFast, step).workers, e)
      == Errors(s.workers, e) + if step.Return? then Matches(step.result, e) else 0
  {
    if step.Return? || step.CancelAll? || step.Send? || step.WaitGroupDone? {
      ErrorsUpdate(s.workers, step.w, Next(s, failFast, step).workers[step.w], e);
    }
  }

  /** The workers hold exactly the errors their functions returned. */
  lemma {:induction false} ErrorsAreReturned(s: State, failFast: bool, steps: seq<Step>, e: Option<Error>)
    requires Schedule(s, failFast, steps)
    ensures Errors(Outcome(s, failFast, steps).workers, e) == Errors(s.workers, e) + Returned(steps, e)
    decreases |steps|
  {
    if steps != [] {
      StepReturns(s, failFast, steps[0], e);
      ErrorsAreReturned(Next(s, failFast, steps[0]), failFast, steps[1..], e);
    }
  }

  lemma {:induction false} StartErrors(n: nat, e: Option<Error>)
    ensures Errors(Start(n).workers, e) == 0
  {
    if n > 0 {
      StartErrors(n - 1, e);
      assert Start(n).workers[..n - 1] == Start(n - 1).workers;
    }
  }

  /** How often function `w` returned. */
  function ReturnsOf(steps: seq<Step>, w: nat): nat {
    if steps == [] then 0 else (if steps[0].Return? && steps[0].w == w then 1 else 0) + ReturnsOf(steps[1..], w)
  }

  /** Each function returns once, and a worker goes on only after that. */
  lemma {:induction false} ReturnsOnce(s: State, failFast: bool, steps: seq<Step>, w: nat)
    requires Schedule(s, failFast, steps) && w < |s.workers|
    ensures |Outcome(s, failFast, steps).workers| == |s.workers|
    ensures ReturnsOf(steps, w)
      == (if s.workers[w].Working? && !Outcome(s, failFast, steps).workers[w].Working? then 1 else 0)
    ensures !s.workers[w].Working? ==> !Outcome(s, failFast, steps).workers[w].Working?
    decreases |steps|
  {
    if steps != [] {
      ReturnsOnce(Next(s, failFast, steps[0]), failFast, steps[1..], w);
    }
  }

  /** The channel is first in, first out. */
  lemma QueueOrder(s: State, failFast: bool, step: Step)
    requires Enabled(s, step)
    ensures
      var s' := Next(s, failFast, step);
      s'.received + s'.buffer == s.received + s.buffer + if step.Send? then [s.workers[step.w].err] else []
  {}

  // ---- main results ---------------------------------------------------------------------

  lemma {:induction false} AllSentWhenGone(workers: seq<Worker>, e: Option<Error>)
    requires AllGone(workers)
    ensures Sent(workers, e) == Errors(workers, e)
  {
    if workers != [] {
      AllSentWhenGone(workers[..|workers| - 1], e);
    }
  }

  /** In every reachable state a worker that wants to send finds the channel open and room in it. */
  lemma SendsNeverBlock(n: nat, failFast: bool, steps: seq<Step>, w: nat)
    requires Schedule(Start(n), failFast, steps)
    requires w < |Outcome(Start(n), failFast, steps).workers| && Outcome(Start(n), failFast, steps).workers[w].Sending?
    ensures Outcome(Start(n), failFast, steps).closer == Waiting && Enabled(Outcome(Start(n), failFast, steps), Send(w))
  {
    ReachableInv(n, failFast, steps);
    var s := Outcome(Start(n), failFast, steps);
    RoomToSend(s.workers, w);
    assert Visible(s, None) == Sent(s.workers, None);
    TallyAll(s.buffer);
  }

  /**
    The channel closes once only, after every function returned, and returned once; from then on the
    buffered and received values together are the errors returned, each as often as it was.
   */
  lemma ClosedChannelHoldsAllErrors(n: nat, failFast: bool, steps: seq<Step>, e: Option<Error>)
    requires Schedule(Start(n), failFast, steps) && Outcome(Start(n), failFast, steps).closer != Waiting
    ensures var s := Outcome(Start(n), failFast, steps);
      AllGone(s.workers) && Visible(s, e) == Returned(steps, e) && !Enabled(s, Close)
    ensures forall w: nat :: w < n ==> ReturnsOf(steps, w) == 1
  {
    ReachableInv(n, failFast, steps);
    AllSentWhenGone(Outcome(Start(n), failFast, steps).workers, e);
    ErrorsAreReturned(Start(n), failFast, steps, e);
    StartErrors(n, e);
    forall w: nat | w < n ensures ReturnsOf(steps, w) == 1 {
      ReturnsOnce(Start(n), failFast, steps, w);
    }
  }

  /** Under FailFast an error on the channel, or already read from it, means the context is cancelled. */
  lemma FailFastCancelsFirst(n: nat, steps: seq<Step>, e: Option<Error>)
    requires Schedule(Start(n), true, steps) && Visible(Outcome(Start(n), true, steps), e) > 0
    ensures Outcome(Start(n), true, steps).cancelled
  {
    ReachableInv(n, true, steps);
    var s := Outcome(Start(n), true, steps);
    SomeSender(s.workers, e);
  }

  predicate CancelExplained(s: State, failFast: bool, outside: bool) {
    && (s.closer == Ended ==> s.cancelled)
    && (s.cancelled ==> s.closer == Ended || outside || (failFast && Errors(s.workers, None) > 0))
  }

  lemma {:induction false} CancelSteps(s: State, failFast: bool, steps: seq<Step>, outside: bool)
    requires Schedule(s, failFast, steps) && CancelExplained(s, failFast, outside)
    ensures CancelExplained(Outcome(s, failFast, steps), failFast, outside || OutsideCancel in steps)
    decreases |steps|
  {
    if steps != [] {
      var step, rest := steps[0], steps[1..];
      StepReturns(s, failFast, step, None);
      if step.CancelAll? {
        OneError(s.workers, step.w);
      }
      CancelSteps(Next(s, failFast, step), failFast, rest, outside || step == OutsideCancel);
      assert OutsideCancel in steps <==> step == OutsideCancel || OutsideCancel in rest;
    }
  }

  lemma {:induction false} OneError(workers: seq<Worker>, w: nat)
    requires w < |workers| && ErrorOf(workers[w]).Some?
    ensures Errors(workers, None) > 0
  {
    if w < |workers| - 1 {
      OneError(workers[..|workers| - 1], w);
    }
  }

  /**
    The context is cancelled only from outside, by an error under FailFast, or at the very end, and then
    always; so without FailFast an error leaves the other functions alone.
   */
  lemma CancelHasReason(n: nat, failFast: bool, steps: seq<Step>)
    requires Schedule(Start(n), failFast, steps)
    ensures
      var s := Outcome(Start(n), failFast, steps);
      && (s.closer == Ended ==> s.cancelled)
      && (s.cancelled ==> s.closer == Ended || OutsideCancel in steps || (failFast && Returned(steps, None) > 0))
  {
    StartErrors(n, None);
    CancelSteps(Start(n), failFast, steps, false);
    ErrorsAreReturned(Start(n), failFast, steps, None);
  }

  lemma {:induction false} SomeSender(workers: seq<Worker>, e: Option<Error>)
    requires Sent(workers, e) > 0
    ensures exists w :: 0 <= w < |workers| && SentBy(workers[w]).Some?
  {
    var n := |workers| - 1;
    if SentBy(workers[n]).None? {
      SomeSender(workers[..n], e);
      var w :| 0 <= w < n && SentBy(workers[..n][w]).Some?;
      assert SentBy(workers[w]).Some?;
    }
  }

  /** RunAll reads until the closed channel is drained: what it joins is exactly the errors the functions returned. */
  lemma RunAllJoinsAllErrors(n: nat, failFast: bool, steps: seq<Step>, e: Error)
    requires Schedule(Start(n), failFast, steps)
    requires Outcome(Start(n), failFast, steps).closer != Waiting && Outcome(Start(n), failFast, steps).buffer == []
    ensures var s := Outcome(Start(n), failFast, steps);
      multiset(s.received)[e] == Returned(steps, Some(e)) && |s.received| == Returned(steps, None)
  {
    ClosedChannelHoldsAllErrors(n, failFast, steps, Some(e));
    ClosedChannelHoldsAllErrors(n, failFast, steps, None);
    var received := Outcome(Start(n), failFast, steps).received;
    TallyAll(received);
    TallyIsMultiplicity(received, e);
  }

  lemma {:induction false} TallyIsMultiplicity(errs: seq<Error>, e: Error)
    ensures multiset(errs)[e] == Tally(errs, Some(e))
  {
    if errs != [] {
      TallyIsMultiplicity(errs[..|errs| - 1], e);
      assert errs == errs[..|errs| - 1] + [errs[|errs| - 1]];
    }
  }

  /**
    Nothing gets stuck: unless some function is still running or everything is over, somebody other than the
    outside can move.
   */
  lemma NeverStuck(n: nat, failFast: bool, steps: seq<Step>)
    requires Schedule(Start(n), failFast, steps)
    ensures
      var s := Outcome(Start(n), failFast, steps);
      || (exists w :: 0 <= w < |s.workers| && s.workers[w].Working?)
      || (s.closer == Ended && s.buffer == [])
      || (exists step :: Enabled(s, step) && !step.OutsideCancel? && !step.Return?)
  {
    var s := Outcome(Start(n), failFast, steps);
    if s.buffer != [] {
      assert Enabled(s, Receive);
    } else if s.closer == Closed {
      assert Enabled(s, FinalCancel);
    } else if s.closer == Waiting {
      if AllGone(s.workers) {
        assert Enabled(s, Close);
      } else {
        var w :| 0 <= w < |s.workers| && !s.workers[w].Gone?;
        match s.workers[w]
        case Working =>
        case Failed(_) => assert Enabled(s, CancelAll(w));
        case Sending(_) => SendsNeverBlock(n, failFast, steps, w);
        case Leaving(_) => assert Enabled(s, WaitGroupDone(w));
      }
    }
  }

  function Weight(w: Worker): nat {
    match w
    case Working => 5
    case Failed(_) => 4
    case Sending(_) => 3
    case Leaving(_) => 1
    case Gone(_) => 0
  }

  function Weights(workers: seq<Worker>): nat {
    if workers == [] then 0 else Weights(workers[..|workers| - 1]) + Weight(workers[|workers| - 1])
  }

  function Rank(s: State): nat {
    Weights(s.workers) + |s.buffer| + (match s.closer case Waiting => 2 case Closed => 1 case Ended => 0)
      + if s.cancelled then 0 else 1
  }

  lemma {:induction false} WeightsUpdate(workers: seq<Worker>, w: nat, x: Worker)
    requires w < |workers|
    ensures Weights(workers[w := x]) == Weights(workers) - Weight(workers[w]) + Weight(x)
  {
    var n := |workers| - 1;
    if w == n {
      assert workers[w := x][..n] == workers[..n];
    } else {
      WeightsUpdate(workers[..n], w, x);
      assert workers[w := x][..n] == workers[..n][w := x];
    }
  }

  /** Every step descends, so every run is finite. */
  lemma StepDescends(s: State, failFast: bool, step: Step)
    requires Enabled(s, step)
    ensures Rank(Next(s, failFast, step)) < Rank(s)
  {
    if step.Return? || step.CancelAll? || step.Send? || step.WaitGroupDone? {
      WeightsUpdate(s.workers, step.w, Next(s, failFast, step).workers[step.w]);
    }
  }
}
