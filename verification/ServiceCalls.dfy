/**
  CHECK, RECOVER, RUN and ROLLBACK over sets of services and stages, and the replies built from
  them (`pkg/orchestration/api_service.go`, `payload.go`, `pkg/task/runnable/task.go`).

  A service is known by the answer each of its four calls would give. The tasks of one action run
  concurrently: `orders` is the order in which they happen to finish, and every result below holds
  for all orders. A `go` statement is recorded as a spawned goroutine; the Saga module proves
  what those goroutines achieve.
 */
module ServiceCalls {
  import opened Maybe

  datatype Action = CHECK | RECOVER | RUN | ROLLBACK

  datatype Error = Error(code: int)

  datatype Detail = ErrorText(error: Error) | Value(body: int)

  datatype Service = Service(
    name: string,
    check: Option<Error>,
    recover: Option<Error>,
    run: Option<Error>,
    rollback: Option<Error>,
    reply: Option<Detail>)
  {
    function Answer(action: Action): Option<Error> {
      match action
      case CHECK => check
      case RECOVER => recover
      case RUN => run
      case ROLLBACK => rollback
    }

    function GetResponse(err: Option<Error>): Option<Detail> {
      if err.Some? then Some(ErrorText(err.value)) else reply
    }
  }

  datatype Flags = Flags(dryRun: bool, recover: bool, skipRollback: bool)

  datatype Failure = RecoveryFailed | ChecksFailed | RunsFailed

  /** Action `action` of service `index` of stage `stage` finished. */
  datatype Call = Call(action: Action, stage: nat, index: nat)

  type Orders = (nat, Action) -> seq<nat>

  /**
    What the calling goroutine did: the calls in finishing order, and the goroutines it spawned, each a list
    of stages to roll back.
   */
  class Journal {
    var calls: seq<Call>
    var spawned: seq<seq<nat>>

    constructor ()
      ensures calls == [] && spawned == []
    {
      calls, spawned := [], [];
    }
  }

  ghost predicate Permutes(order: seq<nat>, n: nat) {
    && (forall x :: x in order ==> x < n)
    && (forall k: nat :: k < n ==> k in order)
    && forall a, b :: 0 <= a < b < |order| ==> order[a] != order[b]
  }

  ghost predicate Clear(services: seq<Service>, action: Action) {
    forall k :: 0 <= k < |services| ==> services[k].Answer(action).None?
  }

  /** Exactly one call per service, in finishing order, was added to the journal. */
  ghost predicate Appended(before: seq<Call>, after: seq<Call>, stage: nat, action: Action, order: seq<nat>) {
    && |after| == |before| + |order| && before <= after
    && forall p :: |before| <= p < |after| ==> after[p] == Call(action, stage, order[p - |before|])
  }

  predicate SomeError(errs: seq<Option<Error>>) {
    exists i :: 0 <= i < |errs| && errs[i].Some?
  }

  // ---- task.Run and AnyError ------------------------------------------------------------

  /** Errors are aligned with the services whatever order the tasks finish in. */
  method RunServiceAction(journal: Journal, services: seq<Service>, stage: nat, action: Action, order: seq<nat>)
    returns (errs: seq<Option<Error>>)
    requires Permutes(order, |services|)
    modifies journal
    ensures |errs| == |services| && forall k :: 0 <= k < |errs| ==> errs[k] == services[k].Answer(action)
    ensures action == CHECK ==> forall k :: 0 <= k < |errs| ==> errs[k] == services[k].check
    ensures action == RECOVER ==> forall k :: 0 <= k < |errs| ==> errs[k] == services[k].recover
    ensures action == RUN ==> forall k :: 0 <= k < |errs| ==> errs[k] == services[k].run
    ensures action == ROLLBACK ==> forall k :: 0 <= k < |errs| ==> errs[k] == services[k].rollback
    ensures SomeError(errs) <==> !Clear(services, action)
    ensures journal.spawned == old(journal.spawned)
    ensures Appended(old(journal.calls), journal.calls, stage, action, order)
  {
    var taskErrors := new Option<Error>[|services|](_ => None);
    assert forall j :: 0 <= j < |order| ==> order[j] in order;
    for m := 0 to |order|
      invariant journal.spawned == old(journal.spawned)
      invariant Appended(old(journal.calls), journal.calls, stage, action, order[..m])
      invariant forall j :: 0 <= j < m ==> taskErrors[order[j]] == services[order[j]].Answer(action)
    {
      var k := order[m];
      taskErrors[k] := services[k].Answer(action);
      journal.calls := journal.calls + [Call(action, stage, k)];
    }
    assert order[..|order|] == order;
    errs := taskErrors[..];
    forall k: nat | k < |services| ensures errs[k] == services[k].Answer(action) {
      assert k in order;
    }
  }

  method AnyError(errs: seq<Option<Error>>) returns (any: bool)
    ensures any == SomeError(errs)
    ensures any <==> exists i :: 0 <= i < |errs| && errs[i].Some?
  {
    for i := 0 to |errs|
      invariant forall j :: 0 <= j < i ==> errs[j].None?
    {
      if errs[i].Some? {
        return true;
      }
    }
    return false;
  }

  // ---- phase safety ---------------------------------------------------------------------

  /** Stage `i` was allowed to run: all checks came back clean, or all recoveries did. */
  ghost predicate Cleared(stages: seq<seq<Service>>, flags: Flags, seen: seq<Call>, i: nat)
    requires i < |stages|
  {
    && !flags.dryRun
    && (forall k: nat :: k < |stages[i]| ==> Call(CHECK, i, k) in seen)
    && (Clear(stages[i], CHECK)
        || (flags.recover && Clear(stages[i], RECOVER)
            && forall k: nat :: k < |stages[i]| ==> Call(RECOVER, i, k) in seen))
  }

  /** Every earlier stage ran to the end without error. */
  ghost predicate EarlierRan(stages: seq<seq<Service>>, seen: seq<Call>, i: nat)
    requires i <= |stages|
  {
    forall j: nat, k: nat :: j < i && k < |stages[j]| ==> stages[j][k].run.None? && Call(RUN, j, k) in seen
  }

  /**
    RUN of a stage starts only after its clearance and after all earlier stages succeeded; nobody on this
    goroutine rolls back.
   */
  ghost predicate PhaseSafe(stages: seq<seq<Service>>, flags: Flags, calls: seq<Call>) {
    forall p :: 0 <= p < |calls| ==>
      && calls[p].stage < |stages| && calls[p].action != ROLLBACK
      && (calls[p].action == RUN ==>
            Cleared(stages, flags, calls[..p], calls[p].stage) && EarlierRan(stages, calls[..p], calls[p].stage))
      && (calls[p].action == RECOVER ==> flags.recover && !flags.dryRun)
  }

  lemma AppendKeepsSafe(stages: seq<seq<Service>>, flags: Flags, before: seq<Call>, after: seq<Call>,
                        i: nat, action: Action, order: seq<nat>)
    requires i < |stages| && Permutes(order, |stages[i]|) && Appended(before, after, i, action, order)
    requires PhaseSafe(stages, flags, before) && action != ROLLBACK
    requires action == RUN ==> Cleared(stages, flags, before, i) && EarlierRan(stages, before, i)
    requires action == RECOVER ==> flags.recover && !flags.dryRun
    ensures PhaseSafe(stages, flags, after)
    ensures forall c :: c in before ==> c in after
    ensures forall k: nat :: k < |stages[i]| ==> Call(action, i, k) in after
  {
    forall p | 0 <= p < |after| && after[p].action == RUN
      ensures Cleared(stages, flags, after[..p], after[p].stage) && EarlierRan(stages, after[..p], after[p].stage)
    {
      if p < |before| {
        assert after[..p] == before[..p];
      } else {
        assert forall c :: c in before ==> c in after[..p];
      }
    }
    forall k: nat | k < |stages[i]| ensures Call(action, i, k) in after {
      assert k in order;
      var j :| 0 <= j < |order| && order[j] == k;
      assert after[|before| + j] == Call(action, i, k);
    }
  }

  /** No call twice; those of this stage are of these actions, all others of earlier stages. */
  ghost predicate Once(calls: seq<Call>, stage: nat, actions: set<Action>) {
    && (forall p, q :: 0 <= p < q < |calls| ==> calls[p] != calls[q])
    && forall p :: 0 <= p < |calls| ==>
         calls[p].stage < stage || (calls[p].stage == stage && calls[p].action in actions)
  }

  lemma AppendOnce(before: seq<Call>, after: seq<Call>, stage: nat, actions: set<Action>, action: Action,
                   order: seq<nat>, n: nat)
    requires Once(before, stage, actions) && action !in actions
    requires Permutes(order, n) && Appended(before, after, stage, action, order)
    ensures Once(after, stage, actions + {action})
  {
    forall p, q | 0 <= p < q < |after| ensures after[p] != after[q] {
      assert p < |before| ==> after[p] == before[p];
      assert q < |before| ==> after[q] == before[q];
    }
    assert forall p :: 0 <= p < |before| ==> after[p] == before[p];
  }

  ghost predicate Usable(stages: seq<seq<Service>>, orders: Orders) {
    forall i: nat, a: Action :: i < |stages| ==> Permutes(orders(i, a), |stages[i]|)
  }

  /** All checks are clean, or recovered from, and so are all runs; a dry run only checks. */
  ghost predicate GoesThrough(services: seq<Service>, flags: Flags) {
    if flags.dryRun then Clear(services, CHECK)
    else (Clear(services, CHECK) || (flags.recover && Clear(services, RECOVER))) && Clear(services, RUN)
  }

  // ---- CallServices and CallStagedServices ----------------------------------------------

  method CallServices(journal: Journal, ghost stages: seq<seq<Service>>, services: seq<Service>, stage: nat,
                      flags: Flags, orders: Orders)
    returns (errs: seq<Option<Error>>, err: Option<Failure>)
    requires stage < |stages| && services == stages[stage] && Usable(stages, orders)
    requires PhaseSafe(stages, flags, journal.calls)
    requires flags.dryRun || EarlierRan(stages, journal.calls, stage)
    requires Once(journal.calls, stage, {})
    modifies journal
    ensures Once(journal.calls, stage + 1, {})
    ensures |errs| == |services| && (err.Some? <==> SomeError(errs))
    ensures old(journal.calls) <= journal.calls && PhaseSafe(stages, flags, journal.calls)
    ensures journal.spawned == old(journal.spawned) +
              if err == Some(RunsFailed) && !flags.skipRollback then [[stage]] else []
    ensures !flags.dryRun ==> EarlierRan(stages, journal.calls, if err.None? then stage + 1 else stage)
    ensures err == Some(RunsFailed) ==> !flags.dryRun && !Clear(services, RUN)
    ensures err == Some(RunsFailed) ==> forall k: nat :: k < |services| ==> Call(RUN, stage, k) in journal.calls
    ensures err.None? <==> GoesThrough(services, flags)
    ensures err == Some(ChecksFailed) <==> !Clear(services, CHECK) && (flags.dryRun || !flags.recover)
    ensures err == Some(RecoveryFailed) <==>
              !Clear(services, CHECK) && !Clear(services, RECOVER) && flags.recover && !flags.dryRun
    ensures forall k: nat :: k < |services| ==> Call(CHECK, stage, k) in journal.calls
    ensures flags.dryRun ==> Appended(old(journal.calls), journal.calls, stage, CHECK, orders(stage, CHECK))
    ensures (err.None? && !flags.dryRun) || err == Some(RunsFailed) ==>
      forall k :: 0 <= k < |errs| ==> errs[k] == services[k].run
    ensures (err.None? && flags.dryRun) || (err.Some? && err != Some(RunsFailed)) ==>
      forall k :: 0 <= k < |errs| ==> errs[k] == services[k].check
    ensures flags.dryRun ==> forall c :: c in journal.calls ==> c in old(journal.calls) || c.action == CHECK
  {
    hide Once, PhaseSafe;
    ghost var c0 := journal.calls;
    errs := RunServiceAction(journal, services, stage, CHECK, orders(stage, CHECK));
    ghost var c1 := journal.calls;
    AppendKeepsSafe(stages, flags, c0, c1, stage, CHECK, orders(stage, CHECK));
    AppendOnce(c0, c1, stage, {}, CHECK, orders(stage, CHECK), |services|);
    ghost var done := {CHECK};
    assert {} + {CHECK} == done;
    var failed := AnyError(errs);
    if failed {
      if !flags.dryRun && flags.recover {
        var recoverErrs := RunServiceAction(journal, services, stage, RECOVER, orders(stage, RECOVER));
        AppendKeepsSafe(stages, flags, c1, journal.calls, stage, RECOVER, orders(stage, RECOVER));
        AppendOnce(c1, journal.calls, stage, done, RECOVER, orders(stage, RECOVER), |services|);
        done := done + {RECOVER};
        var unrecovered := AnyError(recoverErrs);
        if unrecovered {
          AllOnce(journal.calls, stage, done);
          return errs, Some(RecoveryFailed);
        }
      } else {
        AllOnce(journal.calls, stage, done);
        return errs, Some(ChecksFailed);
      }
    }
    if !flags.dryRun {
      ghost var c2 := journal.calls;
      errs := RunServiceAction(journal, services, stage, RUN, orders(stage, RUN));
      AppendKeepsSafe(stages, flags, c2, journal.calls, stage, RUN, orders(stage, RUN));
      AppendOnce(c2, journal.calls, stage, done, RUN, orders(stage, RUN), |services|);
      done := done + {RUN};
      failed := AnyError(errs);
      if failed {
        if !flags.skipRollback {
          journal.spawned := journal.spawned + [[stage]];
        }
        AllOnce(journal.calls, stage, done);
        return errs, Some(RunsFailed);
      }
    }
    AllOnce(journal.calls, stage, done);
    return errs, None;
  }

  lemma AllOnce(calls: seq<Call>, stage: nat, actions: set<Action>)
    requires Once(calls, stage, actions)
    ensures Once(calls, stage + 1, {})
  {}

  lemma OnceMore(calls: seq<Call>, stage: nat)
    requires Once(calls, stage, {})
    ensures Once(calls, stage + 1, {})
  {}

  lemma NothingDone(stages: seq<seq<Service>>, flags: Flags)
    ensures PhaseSafe(stages, flags, []) && EarlierRan(stages, [], 0) && Once([], 0, {})
  {}

  /** The order in which a failed run unwinds the stages before `i`. */
  function DownFrom(i: nat): (s: seq<nat>)
    ensures |s| == i && forall j :: 0 <= j < i ==> s[j] == i - 1 - j
  {
    if i == 0 then [] else [i - 1] + DownFrom(i - 1)
  }

  /** The stages the unwinding goroutine visits, in its order. */
  method WalkDown(i: nat) returns (path: seq<nat>)
    ensures path == DownFrom(i)
  {
    hide DownFrom;
    path := [];
    var j: int := i - 1;
    while j >= 0
      invariant -1 <= j < i && |path| == i - 1 - j && forall m :: 0 <= m < |path| ==> path[m] == i - 1 - m
    {
      path := path + [j];
      j := j - 1;
    }
  }

  /**
    An error names the failing stage and carries that stage's errors, index for index; success means
    every stage went through. What is spawned on failure is the failing stage's own rollback (after a
    failed RUN only) and one goroutine walking all earlier stages downwards.
   */
  method CallStagedServices(journal: Journal, stages: seq<seq<Service>>, flags: Flags, orders: Orders)
    returns (index: nat, errs: seq<Option<Error>>, err: Option<Failure>)
    requires Usable(stages, orders) && journal.calls == [] && journal.spawned == []
    modifies journal
    ensures PhaseSafe(stages, flags, journal.calls)
    ensures err.Some? ==> index < |stages| && |errs| == |stages[index]| && SomeError(errs)
    ensures err.None? ==> index == |stages| && errs == []
    ensures err.Some? && !flags.dryRun ==> EarlierRan(stages, journal.calls, index)
    ensures err.None? && !flags.dryRun ==> EarlierRan(stages, journal.calls, |stages|)
    ensures flags.dryRun ==> forall c :: c in journal.calls ==> c.action == CHECK
    ensures Once(journal.calls, index + 1, {})
    ensures forall i: nat :: i < |stages| && i < index ==> GoesThrough(stages[i], flags)
    ensures err.Some? ==> !GoesThrough(stages[index], flags)
    ensures flags.dryRun ==> (err.None? <==> forall i :: 0 <= i < |stages| ==> Clear(stages[i], CHECK))
    ensures forall i: nat, k: nat :: i < |stages| && i <= index && k < |stages[i]| ==>
      Call(CHECK, i, k) in journal.calls
    ensures err == Some(RunsFailed) ==> forall k :: 0 <= k < |errs| ==> errs[k] == stages[index][k].run
    ensures err.Some? && err != Some(RunsFailed) ==>
      forall k :: 0 <= k < |errs| ==> errs[k] == stages[index][k].check
    ensures err == Some(ChecksFailed) ==> !Clear(stages[index], CHECK) && (flags.dryRun || !flags.recover)
    ensures err == Some(RecoveryFailed) ==> !Clear(stages[index], CHECK) && !Clear(stages[index], RECOVER)
    ensures err == Some(RunsFailed) ==> !Clear(stages[index], RUN)
    ensures journal.spawned ==
      if err.None? || flags.skipRollback then []
      else if err == Some(RunsFailed) then [[index], DownFrom(index)]
      else [DownFrom(index)]
  {
    hide PhaseSafe, EarlierRan, Clear, Appended, Usable, Once;
    NothingDone(stages, flags);
    for i := 0 to |stages|
      invariant PhaseSafe(stages, flags, journal.calls) && journal.spawned == []
      invariant flags.dryRun || EarlierRan(stages, journal.calls, i)
      invariant flags.dryRun ==> forall c :: c in journal.calls ==> c.action == CHECK
      invariant Once(journal.calls, i, {})
      invariant forall m: nat :: m < i ==> GoesThrough(stages[m], flags)
      invariant forall m: nat, k: nat :: m < i && k < |stages[m]| ==> Call(CHECK, m, k) in journal.calls
    {
      errs, err := CallServices(journal, stages, stages[i], i, flags, orders);
      if err.Some? {
        if !flags.skipRollback {
          var path := WalkDown(i);
          journal.spawned := journal.spawned + [path];
        }
        return i, errs, err;
      }
    }
    OnceMore(journal.calls, |stages|);
    return |stages|, [], None;
  }

  // ---- replies --------------------------------------------------------------------------

  datatype ResponseDetail = ResponseDetail(name: string, detail: Detail)

  /** Status 200 or 500 with one detail for every service that has something to say, in order. */
  datatype Response = Response(ok: bool, details: seq<ResponseDetail>)

  function Details(services: seq<Service>, errs: seq<Option<Error>>): seq<ResponseDetail>
    requires |errs| == |services|
  {
    if services == [] then []
    else
      var last := |services| - 1;
      var detail := services[last].GetResponse(errs[last]);
      Details(services[..last], errs[..last])
        + if detail.Some? then [ResponseDetail(services[last].name, detail.value)] else []
  }

  /** Every error is reported under its own service's name, and an all-clean list reports no error. */
  lemma {:induction false} DetailsAlign(services: seq<Service>, errs: seq<Option<Error>>)
    requires |errs| == |services|
    ensures forall k :: 0 <= k < |errs| && errs[k].Some? ==>
      ResponseDetail(services[k].name, ErrorText(errs[k].value)) in Details(services, errs)
    ensures forall d :: d in Details(services, errs) ==>
      exists k :: 0 <= k < |errs| && d.name == services[k].name && services[k].GetResponse(errs[k]) == Some(d.detail)
  {
    if services != [] {
      var last := |services| - 1;
      DetailsAlign(services[..last], errs[..last]);
      forall k | 0 <= k < |errs| && errs[k].Some?
        ensures ResponseDetail(services[k].name, ErrorText(errs[k].value)) in Details(services, errs)
      {
        if k < last {
          assert errs[..last][k] == errs[k] && services[..last][k] == services[k];
        }
      }
    }
  }

  /** Details are collected service by service, from the first one on. */
  lemma {:induction false} DetailsInOrder(services: seq<Service>, errs: seq<Option<Error>>)
    requires |errs| == |services| > 0
    ensures Details(services, errs) == Details([services[0]], [errs[0]]) + Details(services[1..], errs[1..])
  {
    var n := |services| - 1;
    if n == 0 {
      assert services == [services[0]] && errs == [errs[0]];
    } else {
      DetailsInOrder(services[..n], errs[..n]);
      DetailsLast(services, errs);
      DetailsLast(services[1..], errs[1..]);
      assert services[..n][1..] == services[1..][..n - 1] && errs[..n][1..] == errs[1..][..n - 1];
      Regroup(Details([services[0]], [errs[0]]), Details(services[..n][1..], errs[..n][1..]),
              LastDetail(services[n], errs[n]));
    }
  }

  function LastDetail(service: Service, err: Option<Error>): seq<ResponseDetail> {
    var detail := service.GetResponse(err);
    if detail.Some? then [ResponseDetail(service.name, detail.value)] else []
  }

  lemma DetailsLast(services: seq<Service>, errs: seq<Option<Error>>)
    requires |errs| == |services| > 0
    ensures
      var n := |services| - 1;
      Details(services, errs) == Details(services[..n], errs[..n]) + LastDetail(services[n], errs[n])
  {}

  lemma Regroup<T>(a: seq<T>, b: seq<T>, c: seq<T>)
    ensures a + b + c == a + (b + c)
  {}

  /** A service that failed gives its error, any other what it has to reply, and nothing if that is nothing. */
  lemma OneDetail(service: Service, err: Option<Error>)
    ensures Details([service], [err]) ==
      if err.Some? then [ResponseDetail(service.name, ErrorText(err.value))]
      else if service.reply.Some? then [ResponseDetail(service.name, service.reply.value)]
      else []
  {
    assert [service][..0] == [] && [err][..0] == [];
  }

  method GenerateResponse(services: seq<Service>, errs: seq<Option<Error>>, err: Option<Failure>) returns (r: Response)
    requires |services| <= |errs|
    ensures r == Response(err.None?, Details(services, errs[..|services|]))
  {
    var details: seq<ResponseDetail> := [];
    for i := 0 to |services|
      invariant details == Details(services[..i], errs[..i])
    {
      var detail := services[i].GetResponse(errs[i]);
      if detail.Some? {
        details := details + [ResponseDetail(services[i].name, detail.value)];
      }
      assert services[..i + 1][..i] == services[..i] && errs[..i + 1][..i] == errs[..i];
    }
    assert services[..|services|] == services;
    r := Response(err.None?, details);
  }

  function NoErrors(n: nat): (s: seq<Option<Error>>)
    ensures |s| == n && forall k :: 0 <= k < n ==> s[k].None?
  {
    seq(n, _ => None)
  }

  function StagedDetails(stages: seq<seq<Service>>): seq<ResponseDetail> {
    if stages == [] then []
    else
      var last := |stages| - 1;
      StagedDetails(stages[..last]) + Details(stages[last], NoErrors(|stages[last]|))
  }

  /** After success the details of all stages follow each other, from the first one on. */
  lemma {:induction false} StagedDetailsInOrder(stages: seq<seq<Service>>)
    requires stages != []
    ensures StagedDetails(stages) == Details(stages[0], NoErrors(|stages[0]|)) + StagedDetails(stages[1..])
  {
    hide Details, NoErrors;
    var n := |stages| - 1;
    if n == 0 {
      assert StagedDetails(stages[..0]) == [] && StagedDetails(stages[1..]) == [];
    } else {
      StagedDetailsInOrder(stages[..n]);
      assert stages[..n][1..] == stages[1..][..n - 1];
      Regroup(Details(stages[0], NoErrors(|stages[0]|)), StagedDetails(stages[1..][..n - 1]),
              Details(stages[n], NoErrors(|stages[n]|)));
    }
  }

  method GenerateStagedResponse(stages: seq<seq<Service>>, failed: nat, errs: seq<Option<Error>>, err: Option<Failure>)
    returns (r: Response)
    requires err.Some? ==> failed < |stages| && |stages[failed]| <= |errs|
    ensures err.Some? ==> r == Response(false, Details(stages[failed], errs[..|stages[failed]|]))
    ensures err.None? ==> r == Response(true, StagedDetails(stages))
  {
    if err.Some? {
      r := GenerateResponse(stages[failed], errs, err);
      return;
    }
    var details: seq<ResponseDetail> := [];
    for i := 0 to |stages|
      invariant details == StagedDetails(stages[..i])
    {
      var stage := GenerateResponse(stages[i], NoErrors(|stages[i]|), None);
      assert NoErrors(|stages[i]|)[..|stages[i]|] == NoErrors(|stages[i]|);
      assert stages[..i + 1][..i] == stages[..i];
      details := details + stage.details;
    }
    assert stages[..|stages|] == stages;
    r := Response(true, details);
  }

  /** The whole call: the response generator never indexes out of range, and a failure is visible in the details. */
  method CallStagedServicesAndReply(journal: Journal, stages: seq<seq<Service>>, flags: Flags, orders: Orders)
    returns (r: Response)
    requires Usable(stages, orders) && journal.calls == [] && journal.spawned == []
    modifies journal
    ensures PhaseSafe(stages, flags, journal.calls)
    ensures r.ok ==> r.details == StagedDetails(stages) && (flags.dryRun || EarlierRan(stages, journal.calls, |stages|))
    ensures !r.ok ==> exists d :: d in r.details && d.detail.ErrorText?
    ensures r.ok <==> forall i :: 0 <= i < |stages| ==> GoesThrough(stages[i], flags)
    ensures flags.dryRun ==> (r.ok <==> forall i :: 0 <= i < |stages| ==> Clear(stages[i], CHECK))
  {
    var index, errs, err := CallStagedServices(journal, stages, flags, orders);
    if err.Some? {
      assert errs[..|stages[index]|] == errs;
      DetailsAlign(stages[index], errs);
      var k :| 0 <= k < |errs| && errs[k].Some?;
      assert ResponseDetail(stages[index][k].name, ErrorText(errs[k].value)) in Details(stages[index], errs);
    }
    r := GenerateStagedResponse(stages, index, errs, err);
  }
}
