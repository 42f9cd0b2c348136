# golibs: verified models

This project models the parts of golibs that carry state over many steps, and proves what they promise:
orchestrating services with compensation, the wildcard permission tree and the access decision built on it,
the key-value store stack, retries and nested workflows, the fan-out helper and the polling file watcher.
`dafny verify dfyconfig.toml` checks everything.

## What is modelled

**Orchestration.** `RestServices.dfy` gives a REST service its meaning on a keyed store (reading an absent name
fails, creating a present one fails, updating or deleting an absent one fails) and models the service objects as
classes. A RUN call that reports an error may have been lost before it took effect, or after. `Saga.dfy` is a staged
run as a transition system: the tasks of one action are performed in any order, and after a failed RUN the failing
stage's own rollback and the reverse rollback of the earlier stages are two goroutines that interleave freely. A list
of steps is a schedule, and the results hold for all schedules. `Undoing.dfy` is the same seen from one name: what
its writers leave, and what undoing them makes of it when another rollback cuts in. `Compensation.dfy` builds the
schedules that show the condition for compensation to be exact. `ServiceCalls.dfy` is the control flow around it for
services of any kind, including RECOVER, and the replies built from the errors.

**Access.** `Trie.dfy` is the tree of label patterns, on values and as the class that is updated in place;
`Scopes.dfy` expands scopes to patterns and decides a request.

**Stores.** `Options.dfy` is the consuming option matcher, on arbitrarily nested lists and on a flat slice whose
backing array is shared. `Listings.dfy` and `Memory.dfy` are the map backend. `DefaultMap.dfy`, `CacheStore.dfy`,
`PrefixStore.dfy`, `Labels.dfy` and `Timed.dfy` are the layers over it, each proved against the plain map: every
method computes a step on values, and the lemmas say what those steps amount to over whole runs.

**Retry and workflow.** `Retry.dfy` is the backoff loop under an environment that answers the calls and the selects;
`Workflow.dfy` runs chains of activities with retries, nested to any depth.

**Protocols.** `FanOut.dfy` is one goroutine per function, a buffered error channel, a closer and a consumer.
`Watcher.dfy` is the tick loop over a file system that changes under it.

## Where the code and its documentation disagree

The models follow the code.

- `SkipConsume` is documented to leave the option list alone (`pkg/store/options.go:26-29`), but is not passed on to
  nested lists (`:49`, `:82`). `Options.SkipConsumeKeepsTopLevelOnly` says exactly when the promise holds.
- The cache's bare skip-cache listing means to refresh the cache, but its merger is built on the persistent store
  (`pkg/store/middleware/cache/cache.go:136`) and clones that store into itself: `CacheStore.SkipCacheListDoesNotRefresh`.
- Enricher labels are documented as not overridable by custom ones (`pkg/store/backends/labels/util.go:76`); the merge at
  `:109` lets custom labels win: `Labels.StampPrecedence`.
- `EnrichWithLabelsOption` means to refuse custom labels under an immutable key, but looks up their values (`:65-66`):
  `Labels.EnrichLabels`.
- A labeller's List drops the wrapped store's error (`pkg/store/backends/labels/labels.go:71`) and reads labels through the
  nil pointers of a keys-only listing (`:74`): `Labels.Lawful`, the contract of `Labels.Labeller.List`.
- A wildcard inserted at the last level drops the subtrees beside it (`pkg/access/node.go:31-48`). With patterns of mixed
  depth that takes away access: `Trie.ShorterWildcardRevokes`, `Scopes.MixedRolesLoseAccess`. `Trie.FindIsLive` says
  what the tree grants for any patterns, and `Trie.ExactIffNothingLost` and `Scopes.CoverageIffNothingLost` when exactly
  that is what the plain list, or a single allowed scope, grants.
- Check reads the requested name and Rollback uses the payload's (`pkg/orchestration/api_rest.go:112`, `:134`);
  `RestServices.UndoExactlyWhenNamesMatch` shows that compensation works exactly when the two agree.
- The rollback of the failing stage and the unwinding of the earlier ones are two goroutines
  (`pkg/orchestration/api_service.go:131`, `:153-157`), although the second is commented as leaving the current stage to
  the first. `Compensation.CompensationExact` says for which shared names that goes well.

## Assumptions

- The REST API is a keyed store as described above; the Get inside Check and the calls made by Rollback are not lost. A
  rollback without a backup is an error that changes nothing.
- `Backoff.Step` lowers the steps by at least one while any are left, never below zero.
- Contexts of orchestrations and workflows are not cancelled; for a retry and the fan-out, cancellation may come at any time.
- A label selector is a list of requirements, each a test on the value of one label or on its absence.
- One clock, in nanoseconds, drives the timed store, and a purge is atomic. `Duration.Seconds()` is exact.
- Map iteration order is arbitrary wherever the source iterates over a map.

## Model

| member | source | states |
|---|---|---|
| RestServices.UndoExactlyWhenNamesMatch | pkg/orchestration/api_rest.go:81-146 | Check, Run and Rollback together leave every store that passes the check as it was, however the Run is lost, if and only if the requested name and the payload's name agree |
| RestServices.UndoOne | pkg/orchestration/api_rest.go:107-146 | one service with agreeing names undoes itself, whatever stale backup it held |
| RestServices.RestApiService.Check | pkg/orchestration/api_rest.go:107-123 | passes exactly for reads, for creations of an absent name and for updates and deletions of a present one; the last two keep the object found as their backup |
| RestServices.Api.PostObject | pkg/orchestration/api_rest.go:87-88 | the assumed store: a present name is refused, a lost call reports an error whether it took effect or not |
| Undoing.PassesChecks | pkg/orchestration/api_rest.go:81-123 | a writing service's check passes, and its call goes through, exactly when its name is absent for a creation and present otherwise |
| RestServices.RestApiService.Run | pkg/orchestration/api_rest.go:81-101 | what the store holds after each action, lost before or after its effect or not at all, when exactly the call reports an error, and the response of a read |
| RestServices.RestApiService.Rollback | pkg/orchestration/api_rest.go:125-146 | a creation's name is deleted, a backup is put back over a present or an absent name as the action asks, and the API's error is reported |
| Saga.ReverseUnwinding | pkg/orchestration/api_service.go:144-164 | if the checks of a stage fail, unwinding the earlier stages in reverse restores the initial store under every interleaving, even when different stages write the same name |
| Saga.ConcurrentCompensation | pkg/orchestration/api_service.go:124-164 | if a RUN fails, the stage's own rollback and the reverse unwinding restore the initial store however they interleave and whether each lost call took effect or not, when the failing stage shares no written name with earlier ones |
| Saga.RunFailureOutcome | pkg/orchestration/api_service.go:124-164 | after a failed RUN every name holds its initial value, or what its writers leave when the own rollback cuts in at some point of the unwinding |
| Saga.RecoverableNamesRestored | pkg/orchestration/api_service.go:124-164 | every recoverable name is restored in every schedule, whatever becomes of the others |
| Saga.EntryIsLeft | pkg/orchestration/api_service.go:144-164 | each stage found what the writers of earlier stages left, and each writer's check passed on that |
| Compensation.CompensationExact | pkg/orchestration/api_service.go:124-164 | for any stages, initial store and stage: all runs failing in its RUN end in the initial store if and only if its RUN is never reached or all its names are recoverable |
| Compensation.OverlapBreaksCompensation | pkg/orchestration/api_service.go:124-164 | any name that is not recoverable is lost in some run: its call is lost after taking effect and one rollback goroutine overtakes the other |
| Compensation.RunFor | pkg/orchestration/api_service.go:124-164 | every way the two goroutines can overtake each other on a name happens in some run |
| Compensation.OverlapIsReal | pkg/orchestration/api_service.go:130-157 | two stages that update one name: the second RUN is reached and the name is not recoverable |
| Undoing.RestoredIffRecovers | pkg/orchestration/api_rest.go:107-146 | over all points where the own rollback can cut in and both effects of the lost call, a name is restored if and only if the kinds of its writers, its first value and what they left say so |
| Undoing.Fails | pkg/orchestration/api_rest.go:125-146 | for a name that does not recover, the point at which cutting in loses it |
| Undoing.UnwindsExactly | pkg/orchestration/api_service.go:153-157 | undisturbed, unwinding walks back through exactly what each writer found |
| Saga.SuccessTakesEffect | pkg/orchestration/api_service.go:144-164 | after a run without failure each name holds what the last stage writing it asked for, and unwritten names are unchanged |
| Saga.SucceedsIffLegal | pkg/orchestration/api_service.go:108-164 | when no call is lost and nothing is read, a run succeeds under every interleaving if and only if each creation finds its name absent, and each update and deletion finds it present, after the stages before it |
| Saga.OneErrorFails | pkg/orchestration/api_service.go:108-164 | one error of a CHECK or RUN call fails the run, in the stage it happened in |
| Saga.SkipRollbackStops | pkg/orchestration/api_service.go:130-158 | with SkipRollback nothing is ever rolled back |
| Saga.DryRunNeverWrites | pkg/orchestration/api_service.go:124-164 | no schedule of a staged dry run changes the store at any point, although earlier stages may be rolled back |
| Saga.DryRunSucceedsIffChecksPass | pkg/orchestration/api_service.go:108-164 | a staged dry run succeeds, under every interleaving, exactly when every service passes its check on the initial store |
| Saga.RunsEnd | pkg/orchestration/api_service.go:108-164 | every run is bounded, and it can go on exactly as long as some goroutine has work left |
| Saga.StepDescends | pkg/orchestration/api_service.go:108-164 | every step of any goroutine lowers the work left |
| Saga.NextKeeps | pkg/orchestration/api_service.go:108-164 | every step keeps the invariant on history, forward progress and both rollbacks |
| Saga.OutcomeKeeps | pkg/orchestration/api_service.go:108-164 | the invariant holds after every schedule |
| Saga.RunKeeps | pkg/orchestration/api_service.go:124-126 | a RUN call, lost or not, leaves names still to do as the stage found them and the others done or lost |
| Saga.OwnRollbackKeeps | pkg/orchestration/api_service.go:130-132 | one rollback of the failing stage keeps, for every name, what its writers and the progress of both goroutines allow it to hold |
| Saga.EarlierRollbackKeeps | pkg/orchestration/api_service.go:152-157 | one rollback of an earlier stage keeps it too, one writer further down |
| Saga.RollbackOne | pkg/orchestration/api_rest.go:125-146 | a prepared service's rollback acts on its own name as Undo says, in whatever state it finds it, and touches no other |
| ServiceCalls.RunServiceAction | pkg/orchestration/api_service.go:201-218 | one call per service, in any finishing order, with each service's own answer to the action at its index |
| ServiceCalls.AnyError | pkg/task/runnable/task.go:90-97 | true exactly when some entry is an error |
| ServiceCalls.AppendKeepsSafe | pkg/orchestration/api_service.go:108-137 | the calls of one action keep the whole journal phase-safe in every finishing order |
| ServiceCalls.CallServices | pkg/orchestration/api_service.go:108-137 | success, failed checks, failed recovery and failed runs each exactly when the services' answers and the flags say so; all are checked; no call is made twice; RUN starts only after all checks, or all recoveries, came back clean; the errors are those of the last action tried; own rollback is spawned after a failed RUN only |
| ServiceCalls.CallStagedServices | pkg/orchestration/api_service.go:144-164 | the index is the first stage that does not go through, with that stage's errors, and success means there is none, for dry runs too; every stage up to it is checked, every earlier one ran to the end; the unwinding goroutine walks all earlier stages downwards |
| ServiceCalls.DownFrom | pkg/orchestration/api_service.go:154-156 | the order of unwinding: each earlier stage once, last first |
| ServiceCalls.DetailsAlign | pkg/orchestration/payload.go:43-57 | every error is reported under its own service's name, and every reported detail is some service's |
| ServiceCalls.DetailsInOrder | pkg/orchestration/payload.go:43-57 | details are collected service by service, from the first one on |
| ServiceCalls.OneDetail | pkg/orchestration/payload.go:46-53 | a service that failed gives its error, any other what it has to reply, and nothing if that is nothing |
| ServiceCalls.StagedDetailsInOrder | pkg/orchestration/payload.go:59-72 | after success the details of all stages follow each other |
| ServiceCalls.GenerateResponse | pkg/orchestration/payload.go:43-57 | success status exactly without an error, with the details in service order |
| ServiceCalls.GenerateStagedResponse | pkg/orchestration/payload.go:59-72 | the failing stage's details, or those of all stages in order |
| ServiceCalls.CallStagedServicesAndReply | pkg/orchestration/api_service.go:166-169 | the reply never indexes out of range, is positive exactly if all stages go through, on a dry run exactly if all checks are clean, and shows an error text otherwise |
| Trie.InsertSound | pkg/access/node.go:20-52 | one insertion grants nothing beyond the inserted pattern, in any tree |
| Trie.InsertGrants | pkg/access/node.go:20-52 | an insertion into any tree always grants its own pattern |
| Trie.InsertRevokesLonger | pkg/access/node.go:20-52 | it revokes only queries longer than itself, and only when it ends in a wildcard whose path is new |
| Trie.CondensesBelow | pkg/access/node.go:40-48 | then the new wildcard is all that is left at its level and below |
| Trie.Soundness | pkg/access/node.go:20-75 | for patterns of any lengths, Find accepts only what some inserted pattern covers |
| Trie.PathsArePrefixes | pkg/access/node.go:20-52 | every path of the tree is, label for label, a prefix of some inserted pattern |
| Trie.InsertRepresents | pkg/access/node.go:20-52 | an insertion turns the patterns a tree holds into those the condensing rule on lists says |
| Trie.InsertExact | pkg/access/node.go:20-52 | one insertion grants exactly the inserted pattern and revokes exactly what it condenses away, in a tree holding any patterns of any depths |
| Trie.FindIsLive | pkg/access/node.go:20-75 | for any patterns in any order and of any lengths, Find agrees with the plain list of the patterns still in force |
| Trie.ExactIffNothingLost | pkg/access/node.go:20-75 | Find agrees with the plain list of all inserted patterns on every query if and only if each of them is still granted by one in force |
| Trie.Exactness | pkg/access/node.go:20-75 | in particular Find agrees with the plain list when no pattern ending in a wildcard follows a longer one |
| Trie.MorePatternsGrantMore | pkg/access/node.go:20-75 | for patterns of one length, inserting more of them never revokes access |
| Trie.OrderDoesNotMatter | pkg/access/node.go:20-75 | for patterns of one length, insertion order and repetition do not matter |
| Trie.ShorterWildcardRevokes | pkg/access/node.go:31-48 | at mixed depths a shorter wildcard pattern drops what a longer one granted |
| Trie.Node.Insert | pkg/access/node.go:20-52 | the tree updated in place is the inserted tree, no node shared, all else untouched |
| Trie.Node.Find | pkg/access/node.go:56-75 | the search on the objects gives the answer of the abstract tree |
| Scopes.AsLabels | pkg/access/scope/basic/basic.go:94-110 | the nested loops produce the label lists of the scope in their order |
| Scopes.LabelsAreCombinations | pkg/access/scope/basic/basic.go:94-110 | the label lists are exactly the Cartesian product, with a role exactly when the scope names roles |
| Scopes.AllLabelsMembers | pkg/access/access.go:92-98 | what is inserted is exactly what some allowed scope offers |
| Scopes.MatchScope | pkg/access/access.go:92-108 | the loops over the tree of nodes compute the decision |
| Scopes.CoveredByScope | pkg/access/access.go:92-108 | some combination of a scope covers a request exactly when each component does by value or wildcard |
| Scopes.CoveredByAll | pkg/access/access.go:92-108 | an inserted pattern covers a request exactly when a single allowed scope does |
| Scopes.DecisionIsSound | pkg/access/access.go:92-108 | for any scopes, access is granted only if every requested combination is covered by a single allowed scope |
| Scopes.CoverageIffNothingLost | pkg/access/access.go:92-108 | for any allowed scopes, access is granted exactly when every requested combination is covered by a single allowed scope, for all requests, if and only if condensing lost none of the label lists inserted |
| Scopes.DecisionIsCoverage | pkg/access/access.go:92-108 | in particular that holds when no scope without roles that allows every action comes after a scope with roles |
| Scopes.MixedRolesLoseAccess | pkg/access/access.go:92-108 | with scopes of both kinds, allowing more can deny what was allowed |
| Options.MatchOptionBy | pkg/store/options.go:65-92 | the loop with its in-place removals and recursion computes the specified match |
| Options.MatchConsumesFirst | pkg/store/options.go:33-92 | on any nesting: the first hit in left-to-right order is returned, exactly it is removed, no list is newly empty, a miss changes nothing |
| Options.SkipConsumeKeepsTopLevelOnly | pkg/store/options.go:26-92 | with SkipConsume the list is left alone if and only if the first hit is not nested; what is returned is the same |
| Options.SkipConsumeTakesNested | pkg/store/options.go:26-92 | a nested first hit is consumed all the same, and only that |
| Options.CheckOptionsExhausted | pkg/store/options.go:96-126 | accepts exactly the lists of nil options and of lists of nil options |
| Options.NilIsExhausted | pkg/store/options.go:96-126 | nil options and nested ones are let through, a single other option is not |
| Options.Clone | pkg/slices/slices.go:257-261 | a fresh array with the same options |
| Options.RemoveInPlace | pkg/slices/slices.go:230-235 | an index out of range does nothing; otherwise the shared array is shifted, the shorter slice lacks the option, everything from its end on keeps its content |
| Options.MatchFlat | pkg/store/options.go:65-92 | on a flat slice: the first option that is not nil and matches, the others in order, and what other slices of the array then see |
| Options.StaleFirst | pkg/store/options.go:65-92 | what a second match through an old slice header finds: the second hit, or the only one if it came last |
| Options.FlatAgrees | pkg/store/options.go:65-92 | the matcher on nested values and the one on arrays agree on flat lists |
| Listings.LessUnderPrefix | pkg/store/middleware/prefix/prefix.go:54-70 | a common prefix does not change the order of keys |
| Listings.ListingUnique | pkg/store/backends/memory/memory.go:144-160 | a map has only one sorted listing, whatever order it is iterated in |
| Listings.InsertLists | pkg/store/backends/memory/memory.go:144-158 | adding one more entry keeps a listing sorted and complete |
| Listings.AsMap | pkg/store/store.go:64-73 | turning a listing into a map gives the listed map |
| Memory.Memory.Create | pkg/store/backends/memory/memory.go:44-65 | a present key is a conflict and is kept, also for a dry run; an absent one is stored unless it is a dry run or an option is left over; other keys are unchanged |
| Memory.Memory.Read | pkg/store/backends/memory/memory.go:67-78 | the stored value, or an unsupported option, or not found |
| Memory.Memory.Update | pkg/store/backends/memory/memory.go:80-96 | an absent key is not found, a present one replaced unless it is a dry run or an option is left over, even a nil one |
| Memory.Memory.Apply | pkg/store/backends/memory/memory.go:98-110 | the key is stored, present or not, unless it is a dry run or an option is left over |
| Memory.Memory.Delete | pkg/store/backends/memory/memory.go:112-128 | an absent key is not found, a present one removed unless it is a dry run or an option is left over |
| Memory.Memory.List | pkg/store/backends/memory/memory.go:130-161 | the strictly sorted listing of the keys with the prefix, values blanked by a keys-only request |
| Memory.DryRunMeans | pkg/store/options.go:163-188 | a dry run is asked for exactly when the first option with that key says so |
| Memory.KeysOnlyMeans | pkg/store/options.go:163-188 | and so is a keys-only listing |
| Memory.PrefixMeans | pkg/store/options.go:209-234 | the first prefix option counts, and without one every key has the prefix |
| DefaultMap.DefaultMap.Update | pkg/store/utilities/defaultmap/defaultmap.go:68-78 | a present key gets the collision of old and new value in that order, a new one the value, and no error can surface |
| DefaultMap.DefaultMap.Merge | pkg/store/utilities/defaultmap/defaultmap.go:93-104 | for any iteration order: all keys of both, the other store's resolved against the old values, the rest kept; a distinct other store is unchanged |
| DefaultMap.DefaultMap.Clone | pkg/store/utilities/defaultmap/defaultmap.go:110-135 | exactly the other store's keys, collisions resolved; also right when the other store is the same one |
| DefaultMap.CloneCopies | pkg/store/utilities/defaultmap/defaultmap.go:110-135 | when the new value wins a clone is a copy, and onto itself the identity |
| DefaultMap.CloneIsMergeRestricted | pkg/store/utilities/defaultmap/defaultmap.go:93-135 | cloning is merging and then dropping what the other store lacks |
| CacheStore.CacheStepRefines | pkg/store/middleware/cache/cache.go:50-149 | from equal maps any one call leaves equal maps and answers as the persistent store alone |
| CacheStore.CacheRefinesMemory | pkg/store/middleware/cache/cache.go:31-149 | any run of calls with any flat options is indistinguishable from the persistent store alone, and both maps stay equal |
| CacheStore.SkipCacheListDoesNotRefresh | pkg/store/middleware/cache/cache.go:125-149 | a bare skip-cache listing changes neither map and shows the local one, whatever the two hold |
| CacheStore.StaleDryRun | pkg/store/middleware/cache/cache.go:51-60 | for any options with a dry-run option, when exactly the consumed slice still asks for a dry run |
| CacheStore.SharedOptionsWouldDiverge | pkg/store/middleware/cache/cache.go:51-60 | without the clone a dry run whose option did not come last becomes a write on the local store |
| CacheStore.Cache.constructor | pkg/store/middleware/cache/cache.go:31-46 | the local map starts as a copy of the persistent one |
| CacheStore.Cache.Create | pkg/store/middleware/cache/cache.go:50-61 | the persistent store decides, and only its success reaches the local one, with the options as they were given |
| CacheStore.Cache.Read | pkg/store/middleware/cache/cache.go:64-77 | the local value if it is there and the cache is not skipped, else the persistent one, whatever the two hold |
| CacheStore.SkipsMeans | pkg/store/middleware/cache/cache.go:64-66 | the first skip-cache option counts, and without one the cache is not skipped |
| CacheStore.Cache.Update | pkg/store/middleware/cache/cache.go:81-92 | as for Create |
| CacheStore.Cache.Apply | pkg/store/middleware/cache/cache.go:96-107 | as for Create |
| CacheStore.Cache.Delete | pkg/store/middleware/cache/cache.go:111-122 | as for Create |
| CacheStore.Cache.List | pkg/store/middleware/cache/cache.go:125-149 | the sorted listing of the map that the options select, and both maps afterwards |
| PrefixStore.PrefixStepRefines | pkg/store/middleware/prefix/prefix.go:34-70 | through the prefix the backend is a store of its own that holds the view, for every call but a listing that names a prefix itself |
| PrefixStore.PrefixStepIsolates | pkg/store/middleware/prefix/prefix.go:34-70 | no call changes the view of a store with an unrelated prefix |
| PrefixStore.StoresAreIndependent | pkg/store/middleware/prefix/prefix.go:34-70 | in any interleaving two stores with unrelated prefixes each behave as a private store that got its own calls only |
| PrefixStore.StripLists | pkg/store/middleware/prefix/prefix.go:62-69 | stripping the prefix from a sorted listing gives the sorted listing of the view |
| PrefixStore.Prefix.New | pkg/store/middleware/prefix/prefix.go:24-32 | an empty prefix, and nothing else, is refused |
| PrefixStore.Prefix.Create | pkg/store/middleware/prefix/prefix.go:34-36 | computes the step on the backend map |
| PrefixStore.Prefix.Read | pkg/store/middleware/prefix/prefix.go:38-40 | computes the step on the backend map |
| PrefixStore.Prefix.Update | pkg/store/middleware/prefix/prefix.go:42-44 | computes the step on the backend map |
| PrefixStore.Prefix.Apply | pkg/store/middleware/prefix/prefix.go:46-48 | computes the step on the backend map |
| PrefixStore.Prefix.Delete | pkg/store/middleware/prefix/prefix.go:50-52 | computes the step on the backend map |
| PrefixStore.Prefix.List | pkg/store/middleware/prefix/prefix.go:54-70 | the sorted listing of the view, or the rejection of a second prefix |
| Labels.GenerateLabelSelector | pkg/store/backends/labels/util.go:13-49 | refused exactly when the extra selector does not parse or speaks of an immutable key; otherwise it accepts exactly the labels that carry the immutable ones and satisfy the extra selector |
| Labels.StampPrecedence | pkg/store/backends/labels/util.go:78-110 | stored labels always contain the immutable ones; custom labels come next, the enricher's last |
| Labels.BuildLabels | pkg/store/backends/labels/util.go:78-110 | the labels, refused exactly when the enricher fails or an immutable key would be set again, with the labels option consumed either way |
| Labels.EnrichLabels | pkg/store/backends/labels/util.go:63-73 | refused exactly when a custom value is an immutable key; the result always contains the immutable labels |
| Labels.StoreHoldsLastWrites | pkg/store/backends/labels/labels.go:85-114 | after any run of any labellers over one store each key holds what its last effective write put there, with that labeller's labels |
| Labels.LabelIsolation | pkg/store/backends/labels/labels.go:64-114 | a labeller that disagrees with all others on some immutable label lists exactly the visible keys whose last effective write was its own and no deletion, and that match the extra selector, with the data written |
| Labels.AgreementLeaks | pkg/store/backends/labels/labels.go:64-114 | without a disagreement another labeller can always write an entry that this one lists |
| Labels.Labeller.Create | pkg/store/backends/labels/labels.go:85-92 | refused exactly when the enricher fails or a label would set an immutable key, else answered as the plain store answers without the labels option; the data is stored with immutable, custom and enricher labels, in that precedence |
| Labels.Labeller.Update | pkg/store/backends/labels/labels.go:94-101 | refused exactly when the enricher fails or a label would set an immutable key, else answered as the plain store answers without the labels option; the data is stored with immutable, custom and enricher labels, in that precedence |
| Labels.Labeller.Apply | pkg/store/backends/labels/labels.go:103-110 | refused exactly when the enricher fails or a label would set an immutable key, else answered as the plain store answers without the labels option; the data is stored with immutable, custom and enricher labels, in that precedence |
| Labels.Labeller.Delete | pkg/store/backends/labels/labels.go:112-114 | any key may be deleted, whoever wrote it |
| Labels.Labeller.Read | pkg/store/backends/labels/labels.go:55-62 | the data without its labels, whoever wrote it; a stored nil is dereferenced |
| Labels.Labeller.List | pkg/store/backends/labels/labels.go:64-83 | a rejected selector, an empty listing in place of the store's error, a nil dereference exactly when a nil entry is listed, or exactly the labeller's own entries |
| Labels.ShowsNilWhen | pkg/store/backends/labels/labels.go:71-79 | a keys-only listing lists nil whenever it finds anything, any other only where nil was stored |
| Timed.Timed.Apply | pkg/store/utilities/timed/timed.go:79-81 | stores the value with the current second |
| Timed.Timed.Read | pkg/store/utilities/timed/timed.go:59-73 | returns the value, expired or not, and refreshes only its timestamp, only when configured |
| Timed.Timed.DeleteItemsOlderThan | pkg/store/utilities/timed/timed.go:132-146 | deletes exactly the expired entries, without error |
| Timed.StepTracks | pkg/store/utilities/timed/timed.go:55-85 | the abstract events move timestamps as the store's operations do |
| Timed.Survivors | pkg/store/utilities/timed/timed.go:132-146 | an entry present after any run was young enough, in floored seconds, at every purge since it was touched |
| Timed.NeverOlderThanMaxAgePlusPeriod | pkg/store/utilities/timed/timed.go:106-146 | no entry is ever present at an age of M seconds plus one sync period |
| Timed.NeverPurgedEarly | pkg/store/utilities/timed/item.go:13-26 | a purge takes only entries older than M - 1 seconds |
| Timed.FlooringIsVisible | pkg/store/utilities/timed/item.go:20-22 | the second of slack is real: a younger entry can go while an older one stays |
| Retry.OnError | pkg/retry/retry.go:82-156 | at most Steps calls, and the one outcome that can be explained |
| Retry.RetryOutcome | pkg/retry/retry.go:82-156 | no call follows a success, a final error, a cancellation or the last step, and otherwise another call is made; nil exactly when the last call succeeded; an interruption gives way to the last retriable error |
| Retry.OneExplanation | pkg/retry/retry.go:82-156 | in given surroundings only one number of calls and one outcome can be explained |
| Retry.LoopKeeps | pkg/retry/retry.go:127-156 | every turn of the loop keeps the count of calls, the last error and the steps in line |
| Retry.LoopEnds | pkg/retry/retry.go:127-156 | without RunForever the loop is over after one turn more than it had steps |
| Retry.ExhaustionReturnsLastError | pkg/retry/retry.go:82-156 | when every call fails retriably and nothing cancels, the last error is returned, after exactly Steps calls if each backoff step takes one |
| Workflow.Execute | pkg/task/workflow/workflow.go:136-176 | the loop over the chain computes the specified trace, outcome and time |
| Workflow.ExecuteActivity | pkg/task/workflow/workflow.go:232-262 | the retry loop around one activity, a leaf or a whole workflow, computes the specified attempts |
| Workflow.NestedBound | pkg/task/workflow/workflow.go:136-316 | a leaf is called at most the product of the Steps of the workflows on its path |
| Workflow.ChainBound | pkg/task/workflow/workflow.go:136-176 | the bound for the rest of a chain, and no calls of positions already passed |
| Workflow.AttemptsBound | pkg/task/workflow/workflow.go:232-262 | retries multiply the bound by at most Steps |
| Workflow.AttemptsAreRetries | pkg/task/workflow/workflow.go:232-262 | the attempts of an activity are the calls of the retry loop in the surroundings they induce, with its outcome |
| Workflow.AttemptsCounted | pkg/task/workflow/workflow.go:232-262 | any activity, nested workflows too, is attempted as often as a retry with these steps is explained to be; all attempts but the last fail retriably and the last decides |
| Workflow.ChainCounted | pkg/task/workflow/workflow.go:136-176 | the trace is the first activity k0 times, the second k1 times and so on, where each count is what retrying with the workflow's own steps amounts to, and the chain goes on exactly when that retry succeeds |
| Workflow.FlowCounted | pkg/task/workflow/workflow.go:314-316 | a workflow run as an activity uses its own steps in the same way |
| Workflow.FailureUsesAllSteps | pkg/task/workflow/workflow.go:232-262 | when every error is retriable and each backoff step takes one, a failing chain made exactly Steps attempts at its last position |
| Workflow.ChainInOrder | pkg/task/workflow/workflow.go:136-176 | for all workflows, also empty ones: calls come in chain order, the chain moves on only after a successful call, and what succeeds ends with one |
| Workflow.RunOnce | pkg/task/workflow/workflow.go:314-316 | a leaf is called once and a nested workflow executed |
| Workflow.ChainOrder | pkg/task/workflow/workflow.go:136-176 | when every workflow allows an attempt and does something: success means all activities were called, and the outcome is the last call's |
| Workflow.AttemptsEnd | pkg/task/workflow/workflow.go:232-262 | such an activity with retries succeeds exactly when its last call does |
| FanOut.ReachableInv | pkg/graceful/graceful.go:115-142 | in every reachable state what is visible on the channel is what workers sent, and it is closed only after all are gone |
| FanOut.SendsNeverBlock | pkg/graceful/graceful.go:120-132 | a worker that wants to send finds the channel open and room in it |
| FanOut.ClosedChannelHoldsAllErrors | pkg/graceful/graceful.go:135-139 | the channel closes once, after every function returned, and from then on buffered plus received values are the errors returned, with their multiplicities |
| FanOut.FailFastCancelsFirst | pkg/graceful/graceful.go:125-131 | under FailFast the context is cancelled before any error is visible |
| FanOut.CancelHasReason | pkg/graceful/graceful.go:119-139 | the context is cancelled only from outside, by an error under FailFast, or at the end, and then always |
| FanOut.QueueOrder | pkg/graceful/graceful.go:120-131 | errors are received in the order they were sent |
| FanOut.RunAllJoinsAllErrors | pkg/graceful/graceful.go:100-108 | what RunAll joins is exactly the multiset of errors the functions returned |
| FanOut.NeverStuck | pkg/graceful/graceful.go:115-142 | unless a function still runs or all is over, the protocol itself can move |
| FanOut.StepDescends | pkg/graceful/graceful.go:115-142 | every step lowers the work left, so every run is finite |
| Watcher.IntervalWatcher.FileHashChanged | pkg/fsnotify/watcher.go:63-83 | records new files and stops at the first changed or unreadable one |
| Watcher.ScanEnds | pkg/fsnotify/watcher.go:63-83 | a scan goes up to the first unreadable or stale file, fails on the one and reports a change on the other, having recorded the files before it, and the changed one, and no other |
| Watcher.IntervalWatcher.Watch | pkg/fsnotify/watcher.go:38-61 | the ticks that ran, the callbacks with the hashes each saw, and an end exactly at the first unreadable file |
| Watcher.CallbacksAreChanges | pkg/fsnotify/watcher.go:51-58 | a tick calls back exactly when it found a change, with the hashes it left |
| Watcher.CallbacksInOrder | pkg/fsnotify/watcher.go:46-60 | callbacks come in tick order, at most one per tick |
| Watcher.ScanEffect | pkg/fsnotify/watcher.go:63-83 | a scan of readable files reports a change exactly when some recorded file is stale, corrects exactly one of them, and disturbs no other key |
| Watcher.TickEffect | pkg/fsnotify/watcher.go:63-83 | one tick of unchanged files lowers the number of stale ones by one until all hashes are right |
| Watcher.WatchConverges | pkg/fsnotify/watcher.go:38-83 | once the files stay as they are there is one callback per tick for as many ticks as there are stale files, then none, and all hashes are right |

## Left out

- RestServices.RestApiService.Run: response bodies of calls other than GET, and the error for an action that is none of the five, are not modelled; the store effect and the error are.
- Saga.ConcurrentCompensation: disjoint names are sufficient but not necessary; `Compensation.CompensationExact` is the exact statement.
- Saga: RECOVER is not a step there, because a REST service has no recovery and its Recover always fails; `ServiceCalls` has it.
- Compensation.CompensationExact: whether a stage's RUN is reached is stated by the existence of a run, since a GET among concurrent calls can fail in one order and not in another.
- Trie.Exactness: a sufficient condition on the list; `Trie.ExactIffNothingLost` is the exact one.
- Scopes.DecisionIsCoverage: a sufficient condition on the scopes; `Scopes.CoverageIffNothingLost` is the exact one.
- CacheStore.CacheRefinesMemory: option lists are flat; writers behind the cache's back are outside it, and `SkipCacheListDoesNotRefresh` says what happens to them.
- Options.MatchOptionBy: nested lists are values; aliasing of the backing array is modelled for flat slices only, where the cache depends on it.
- Memory.Memory.Create: option lists are flat, as for the other operations of the store; matching on nested ones is in `Options`.
- Memory.Memory.Read: option lists are flat.
- Memory.Memory.Update: option lists are flat.
- Memory.Memory.Apply: option lists are flat.
- Memory.Memory.Delete: option lists are flat.
- Memory.Memory.List: option lists are flat; the collect loop and the sort are one loop that inserts in order; keys are strings, so a prefix is always supported.
- DefaultMap.DefaultMap.Update: the backend is the memory store, so the error branches that only other backends reach are not modelled.
- DefaultMap.DefaultMap.Merge: the backend is the memory store, as for Update.
- DefaultMap.DefaultMap.Clone: the backend is the memory store, as for Update.
- PrefixStore.PrefixStepRefines: a listing that names a prefix itself is rejected by the prefix store, which the plain map would accept.
- Timed: Create, Update, Delete and List only wrap or unwrap values; the callback of Run is not part of this model, nor are writers between the listing and the deletions of a purge.
- Retry.OnError: a call with RunForever is modelled for surroundings that end it at some time; the waiting times are not modelled, nor is the crash handler.
- Workflow.Execute: workflows have a bounded number of steps; a RunForever backoff, with which an execution need not end, is outside the model.
- Workflow.ExecuteActivity: as for Execute.
- Workflow: Weave, ExecuteConcurrent, registration, Stop and logging.
- FanOut: the shutdown grace period of Run and RunT, and RunAllBackgroundFunc, which reads only the first value of each inner channel.
- Watcher: hashing (a file's hash stands for its content), and cancellation, which only ends the ticks.
- Labels: parsing of selector strings, which is a parameter.
- Orchestration hooks (OnActionError, OnStageStart, RollbackErrorReporter), DryRunService, SimpleService, status codes beyond success or failure.
- The replicating backend, whose rollback bookkeeping does not do what its comments expect, and the health checks.
- Account checks and the review request around MatchScope, and scope validation.
- Everything that talks to Kubernetes, Kafka, S3, HTTP, TLS, OAuth or a metrics or tracing system, and the thin store middleware (names, validation, locks, logging).
