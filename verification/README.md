# Verified model of the orchestrator's hard cores

This project models, in Dafny, the parts of the GitHub work orchestrator whose correctness rests on more than one
function, and proves what those parts promise. Each Dafny module stands for one component:

| component | modules |
|---|---|
| Frontier scheduler: claims, score, bound, search, wave, runs of waves | `Implied`, `Claims`, `Apart`, `Issues`, `Scores`, `Search`, `SearchLimits`, `Frontier`, `FrontierRuns` |
| Journalled publication of several files and its retry | `Publication`, `Rendering` |
| Live attestation cycle over threads, timers and failing calls | `LiveCycle`, `LiveRuns` |
| Activation ledger | `Lineage` |
| Canonical JSON | `Decimals`, `CanonicalJson`, `CanonicalText`, `JsonGrammar` |
| Race-safe cleanup of a created file; packed directory records | `Cleanup`, `Records` |
| Ticket provisioning, one run and interleaved runs | `Tickets`, `Provisioning`, `ProvisioningRuns` |
| Tree traversal, framing and package digests | `Packages`, `Framing`, `Digests` |
| Shared: Python tuple order, stable sort, lists, bytes, paths | `Tuples`, `Sorting`, `Lists`, `Bytes`, `Paths`, `Wrappers` |

What the source does by changing state step by step is a class or a method with loops, proved against a specification
on values (`Search.Explorer`, `Publication.Disk`, `LiveCycle.Cycle`, `Provisioning.Port`, the loops of `Lineage`,
`Packages`, `Records`, `Framing` and `Digests`). Interleavings of several actors are runs of transition systems.
`FrontierRuns` and `LiveRuns` run over the same specification as the methods. `Cleanup` is such a system only, and
`ProvisioningRuns` states the protocol of `Provisioning` once more, call by call, over the same lookups in `Tickets`;
`ProvisioningRuns.UndisturbedRunSucceeds` shows that one of its runs, left alone, succeeds under the conditions of
`Provisioning.Provision`.

## How the environment is modelled

* The file system of `Publication` is a map from absolute paths to contents. Every write, replace, unlink and flush
  consumes one fault, also within recoveries and rollbacks: it succeeds, it fails (a write may leave a torn file), or the
  process dies before or after it took effect. Once the list of faults is used up, everything succeeds.
* Captured leases, stability checks and closes of the live cycle answer as an arbitrary `Answers` value says, except that
  every capture hands out a lease of its own (`LiveRuns.Fresh`); a timer may fire at any time, also for a state that is
  no longer installed.
* Other actors on the cleanup's directory may do anything to the public name and to file contents between two steps;
  only the private directory is out of their reach.
* The remote repository of the provisioning runs answers a creation with any issue that has a new number and the title
  asked for; every call may fail before or after its effect; a process may end between any two steps. Issues change
  only by these creations.
* Character encodings are a parameter (`encode`); hashes are represented by the bytes that are hashed.

## Results that limit the code

* The pruning bound is admissible exactly when the part of the greedy completion without a priority holds no negative
  unlock count (`Scores.AdmissibleExactly`), and the shortcut that stops at a seed equal to the bound is right exactly
  then (`Search.ShortcutIsOptimalExactly`). `Search.NegativeUnlocksMislead` gives the input on which both fail. Whatever
  the unlocks are, the optimum is that of the candidates that cannot lower the score (`Search.OptimumIsGainful`).
* For candidates without conflicts the search is right exactly when no unprioritised addition has negative unlocks
  (`SearchLimits.RightWithoutConflicts`). Numbers, priorities and unlocks given, it is right for all claims and
  capacities exactly when no unprioritised Issue has negative unlocks (`SearchLimits.UnlocksDecide`).
* The search gives up after 5,000 nodes (`Search.SearchFrom`). It never does so for eleven candidates or fewer, and for
  candidates of the highest priority that all conflict with each other it does so exactly from 99 on, although any one
  of them is a whole selection.
* A delivery that stops being valid puts its Issue back to work without a check. The slots survive this exactly when one
  is free or the Issue does not execute again (`FrontierRuns.WithdrawnDelivery`);
  `FrontierRuns.WithdrawnDeliveryOverfills` is an input on which they do not. What holds in spite of it is
  `FrontierRuns.HistoryIsSound`.
* A rollback that is interrupted after some entries can be repeated exactly when none of those entries had a backup
  (`Publication.InterruptedRecovery`), because restoring moves the backup away. With a publication in flight over a
  target that existed, a crash between the last restoration and the removal of the journal leaves a journal that can
  never be recovered (`Publication.CutOffRollbackIsFinal`).
* When an exception ends a rollback, leaving the renderer's temporary directory removes the backups that are left: the
  journal can then be recovered exactly when no target had existed (`Publication.DiscardedBackups`).
* A flush that fails right after the journal was installed is followed by no rollback, and the exception removes the
  temporary directory too. No document is lost, but every later run is refused exactly when a target had existed
  (`Publication.UnguardedFlush`).
* When only the flush after the removal of the journal fails, the rollback runs without a journal. Cut off then, it leaves
  the old files exactly when the targets it did not reach hold them already, and nothing to recover from
  (`Publication.UnrecordedRollback`).
* Normalising line ends twice is normalising once exactly for texts without CR CR LF (`Digests.NormalisedTwice`);
  CR CR LF itself becomes CR LF and then LF (`Digests.TripleIsNotStable`).

## Model

| member | source | states |
|---|---|---|
| Claims.OverlapIsSharedDescendant | skills/orchestrator/scripts/orch_frontier.py:49-56 | Two path claims overlap exactly when some file lies under both |
| Claims.IssueClaimsContend | skills/orchestrator/scripts/orch_frontier.py:131-160 | Claims as Issues make them overlap exactly when they cover a common file, or each names a common resource or implies it by one of its paths |
| Claims.BoundedMeans | skills/orchestrator/scripts/orch_frontier.py:169-191 | A claim does not take the whole repository exactly when it has paths, each names something inside the repository without wildcards, and every resource has a name |
| Claims.PartsOfPath | skills/orchestrator/scripts/orch_frontier.py:49-51 | The parts of a path are those between its slashes of either kind |
| Claims.PartsIgnoreCase | skills/orchestrator/scripts/orch_frontier.py:49-51 | Paths that differ in letter case only have the same parts |
| Claims.SameResource | skills/orchestrator/scripts/orch_frontier.py:131-136 | Two named resources are the same exactly when they differ at most in letter case and blanks around them |
| Implied.ImpliedContend | skills/orchestrator/scripts/orch_frontier.py:59-150 | Two paths imply a common resource exactly when they are manifests of one package manager in one directory, touch the schema of one directory, or have the same generated code |
| Implied.ManifestsContend | skills/orchestrator/scripts/orch_frontier.py:59-81 | Manifests share a resource exactly when they belong to one package manager and one directory |
| Implied.SchemasContend | skills/orchestrator/scripts/orch_frontier.py:84-97 | Paths share a schema exactly when they belong to one schema directory; only at the top are migrations and schemas told apart |
| Implied.GeneratedContend | skills/orchestrator/scripts/orch_frontier.py:100-128 | Generated code of one owner is shared exactly when the stems agree |
| Implied.OwnerMeans | skills/orchestrator/scripts/orch_frontier.py:109-119 | The owner is what is left when all conventional directories at the end are dropped |
| Implied.StemMeans | skills/orchestrator/scripts/orch_frontier.py:120-127 | The stem is the name without the ending of a generator input |
| Claims.ConflictIsSymmetric | skills/orchestrator/scripts/orch_frontier.py:313-320 | Whether two claims conflict does not depend on their order, whichever of them is exclusive |
| Claims.OverlapIsContention | skills/orchestrator/scripts/orch_frontier.py:131-160 | Claims overlap exactly when they cover a common file or hold a common resource, whatever resources the paths imply |
| Issues.ExecutionHoldsIntegration | skills/orchestrator/scripts/orch_frontier.py:206-237 | Whatever counts as executing also counts as integration work in progress |
| Issues.WhatHoldsNothing | skills/orchestrator/scripts/orch_frontier.py:206-222 | An Issue holds no integration capacity exactly when it is parked, landed or retired, or no known dispatch and no state of work says otherwise |
| Issues.WhatWaits | skills/orchestrator/scripts/orch_frontier.py:206-237 | Which Issues hold integration capacity without occupying a worker, state by state |
| Issues.CandidateOrder | skills/orchestrator/scripts/orch_frontier.py:259-264 | Candidates are ordered by priority, then more unlocks, then the smaller number |
| Scores.BetterScore | skills/orchestrator/scripts/orch_frontier.py:267-276 | A selection scores higher by more P0 Issues, then more P1, P2 and P3 Issues, then more unlocks in all, then the smaller numbers |
| Scores.ScoreOfPermutation | skills/orchestrator/scripts/orch_frontier.py:267-276 | The score of a selection does not depend on its order |
| Scores.ScoreIsInjective | skills/orchestrator/scripts/orch_frontier.py:267-276 | Among candidates with distinct numbers two selections score equally only when they are the same set, so an optimum is unique |
| Scores.SelectionIsDominated | skills/orchestrator/scripts/orch_frontier.py:259-304 | Any selection from an ordered list is dominated, place by place, by the list's own beginning |
| Scores.DominanceRaisesScore | skills/orchestrator/scripts/orch_frontier.py:267-276 | Adding a dominating list to what is selected never scores lower, in tuple order with a prefix being smaller |
| Scores.BoundHolds | skills/orchestrator/scripts/orch_frontier.py:279-304 | Every completion within capacity scores at most the optimistic score |
| Scores.AdmissibleExactly | skills/orchestrator/scripts/orch_frontier.py:279-304 | The optimistic score bounds every completion exactly when the greedy completion adds no unprioritised Issue with negative unlocks |
| Scores.DroppingTheLastIsBetter | skills/orchestrator/scripts/orch_frontier.py:292-303 | When such an Issue is added, leaving out the last addition scores strictly higher |
| Search.PickGreedily | skills/orchestrator/scripts/orch_frontier.py:322-329 | The greedy loop returns the greedy selection of its order |
| Search.GreedyIsMaximal | skills/orchestrator/scripts/orch_frontier.py:322-329 | A greedy selection is free of conflict, within capacity, and full or not extensible by any Issue of the order |
| Search.FewerConflictsFirst | skills/orchestrator/scripts/orch_frontier.py:331-344 | In the second order, within a priority, what conflicts with fewer candidates comes first |
| Search.OptimisticScore | skills/orchestrator/scripts/orch_frontier.py:279-304 | The loop over priority groups computes the score of the selection extended by the best-ordered remaining Issues |
| Search.Explorer.constructor | skills/orchestrator/scripts/orch_frontier.py:345-352 | The search starts from the seed, its score and the root bound |
| Search.Explorer.Record | skills/orchestrator/scripts/orch_frontier.py:353-365 | A visit keeps the better of the best selection so far and the current one |
| Search.Explorer.Visit | skills/orchestrator/scripts/orch_frontier.py:353-378 | Unless the budget ran out or the root bound was reached, every completion of the branch scores at most the best; the best never gets worse and the selection is restored |
| Search.Explorer.Expand | skills/orchestrator/scripts/orch_frontier.py:364-378 | A node whose selection is recorded is a leaf, is ruled out by the bound or is followed, and is covered in each case |
| Search.Explorer.Branch | skills/orchestrator/scripts/orch_frontier.py:366-378 | Taking the Issue when it is compatible and then leaving it out covers the whole branch |
| Search.SearchFrom | skills/orchestrator/scripts/orch_frontier.py:345-380 | The search gives up exactly after 5,000 nodes, and no more nodes are met than the whole tree has; among candidates of the highest priority that all conflict it gives up exactly from 99 candidates on; one that has found the bound of the whole tree never gives up |
| Search.BestCompatibleSubset | skills/orchestrator/scripts/orch_frontier.py:307-381 | The result is conflict-free, within capacity, in candidate order and at least as good as both greedy seeds; when the search was not exhausted it is the unique optimum; with at most eleven candidates, or one slot and at most 2,499, it is never exhausted |
| Search.ShortcutIsOptimalExactly | skills/orchestrator/scripts/orch_frontier.py:307-352 | A seed that reaches the root bound is the optimum exactly when the bound is admissible there |
| Search.NegativeUnlocksMislead | skills/orchestrator/scripts/orch_frontier.py:292-352 | A single unprioritised Issue with negative unlocks is selected although selecting nothing scores higher |
| Search.OneMoreRaisesScore | skills/orchestrator/scripts/orch_frontier.py:267-276 | One more Issue with non-negative unlocks or with a priority always scores strictly higher |
| Search.OptimalIsMaximal | skills/orchestrator/scripts/orch_frontier.py:307-381 | An optimum below capacity leaves out only Issues that conflict with it |
| Search.OptimumIsGainful | skills/orchestrator/scripts/orch_frontier.py:267-276 | A set is the optimum of all candidates exactly when it is the optimum of those that cannot lower the score |
| SearchLimits.SeedWithoutConflicts | skills/orchestrator/scripts/orch_frontier.py:322-352 | Without conflicts both greedy seeds are the best-ordered candidates and meet the root bound |
| SearchLimits.RightWithoutConflicts | skills/orchestrator/scripts/orch_frontier.py:307-352 | Without conflicts the result is the optimum exactly when no unprioritised addition has negative unlocks |
| SearchLimits.UnlocksDecide | skills/orchestrator/scripts/orch_frontier.py:292-352 | Numbers, priorities and unlocks given, the search stops wrongly for no claims and capacity exactly when no unprioritised Issue has negative unlocks |
| Frontier.ScreenQueue | skills/orchestrator/scripts/orch_frontier.py:396-428 | The queue splits into the candidates and the Issues deferred for contract, dependencies or conflict with work in progress, each with its first reason |
| Frontier.DeferRest | skills/orchestrator/scripts/orch_frontier.py:434-456 | Every unselected candidate gets exactly one reason, derived from the selection |
| Frontier.EligibleMeans | skills/orchestrator/scripts/orch_frontier.py:401-406 | An Issue is queued exactly when it is ready and its dispatch is parked, ended, unknown or missing |
| Frontier.DefaultLimits | skills/orchestrator/scripts/orch_frontier.py:387-390 | Three workers unless the snapshot says otherwise, and as much integration as workers |
| Frontier.ReasonMeans | skills/orchestrator/scripts/orch_frontier.py:396-456 | What each reason says: first the contract, then the dependencies, then work in progress, then the wave; a conflict is exclusive, or by the claims while the wave is full or not |
| Frontier.SelectWave | skills/orchestrator/scripts/orch_frontier.py:384-469 | Out-of-range limits are refused; otherwise the wave reports counts, capacity, an optimal or conflict-free selection in order, and exactly the deferrals; with at most eleven candidates the search is complete |
| Frontier.WaveAccounting | skills/orchestrator/scripts/orch_frontier.py:396-469 | Every ready Issue not in progress is in exactly one of selected and deferred; a selected one has a valid contract, closed dependencies and no conflict with work in progress |
| Frontier.CapacityMeansFull | skills/orchestrator/scripts/orch_frontier.py:434-456 | After a complete search the reason capacity is given only when the wave is full |
| Frontier.StarvedMeans | skills/orchestrator/scripts/orch_frontier.py:517-528 | A frontier is starved exactly when the wave leaves capacity unused |
| Frontier.StarvedMeansConflict | skills/orchestrator/scripts/orch_frontier.py:517-528 | In a starved frontier after a complete search every candidate left out conflicts with a selected Issue |
| FrontierRuns.DispatchIsSafe | skills/orchestrator/scripts/orch_frontier.py:384-433 | Dispatching a selected wave keeps execution within slots, integration within its limit, and work in progress free of conflict; with full slots or a full limit it changes nothing, and otherwise it takes exactly as much of both as the wave is wide |
| FrontierRuns.ProgressIsForward | skills/orchestrator/scripts/orch_core.py:2352-2387 | Starting, delivering, accepting, reopening a review, merging, parking, blocking, retiring and replacing a worker take up no new capacity and keep number and claims |
| FrontierRuns.WhatProgressFrees | skills/orchestrator/scripts/orch_core.py:2352-2387 | Exactly which changes free a worker, and which free integration capacity |
| FrontierRuns.LifeOfAnIssue | skills/orchestrator/scripts/orch_core.py:2352-2387 | From dispatch to merge each step applies after the one before; a worker is occupied until the delivery, integration capacity until the merge |
| FrontierRuns.ParkingAndResuming | skills/orchestrator/scripts/orch_core.py:736-783 | Parking frees everything, and resuming takes it again |
| FrontierRuns.AdvanceIsSafe | skills/orchestrator/scripts/orch_frontier.py:206-237 | A change that takes up no new capacity keeps the limits and freedom from conflict |
| FrontierRuns.ResumableMeans | skills/orchestrator/scripts/orch_core.py:736-783 | Resuming asks for a valid contract, closed dependencies, room, and no conflict with other work in progress |
| FrontierRuns.ResumeIsSafe | skills/orchestrator/scripts/orch_core.py:736-783 | Resuming a parked Issue after its check keeps the limits and freedom from conflict |
| FrontierRuns.WithdrawnDelivery | skills/orchestrator/scripts/orch_core.py:2366-2368 | An Issue that falls back from review to work keeps the integration limit and freedom from conflict, and the slots exactly when one is free or it does not execute again |
| FrontierRuns.WithdrawnDeliveryOverfills | skills/orchestrator/scripts/orch_core.py:2366-2368 | With one slot, one Issue at work and one whose delivery is withdrawn, the slots are exceeded |
| FrontierRuns.StepIsSafe | skills/orchestrator/scripts/orch_frontier.py:206-237 | Dispatching, progress, resuming, admission and closing keep the limits and freedom from conflict |
| FrontierRuns.RunIsSafe | skills/orchestrator/scripts/orch_frontier.py:384-433 | Over every run all states stay within the limits and free of conflict |
| FrontierRuns.HistoryIsSound | skills/orchestrator/scripts/orch_frontier.py:384-433 | Over every run with withdrawn deliveries the integration limit and freedom from conflict hold, the slots are exceeded by at most the deliveries withdrawn, and a wave changes nothing while they are full |
| FrontierRuns.SafeMeansSeparate | skills/orchestrator/scripts/orch_frontier.py:153-191 | In such a state no file lies under two claims in progress, no resource is claimed twice and an exclusive claim is alone |
| Publication.JournalIsAccepted | scripts/render_v8_ga_metadata.py:1066-1137 | Recovery accepts the journal that publication writes and finds its staging directory |
| Publication.AcceptedMeans | scripts/render_v8_ga_metadata.py:1066-1137 | Recovery accepts exactly journals of its schema whose entries ascend by target, lie below the root, and are staged in one directory directly below it |
| Publication.RollbackRestores | scripts/render_v8_ga_metadata.py:1145-1156 | Restoring the entries backwards brings every target back, whichever of them were replaced already |
| Publication.RecoveryRestores | scripts/render_v8_ga_metadata.py:1145-1169 | Recovery succeeds and leaves everything outside staging directories as it was before the publication, without a journal |
| Publication.InFlightRecovers | scripts/render_v8_ga_metadata.py:1172-1226 | From any state that a publication with an installed journal can be in, recovery restores what was there before it |
| Publication.InterruptedRecovery | scripts/render_v8_ga_metadata.py:1145-1156 | A rollback interrupted after some entries can be repeated exactly when none of these entries had a backup |
| Publication.CutOffRollbackIsFinal | scripts/render_v8_ga_metadata.py:1145-1156 | With a publication in flight over a target that existed, a rollback that dies just before the journal is removed leaves a journal that recovery refuses |
| Publication.DiscardedBackups | scripts/render_v8_ga_metadata.py:1393-1425 | A rollback cut off by an exception and followed by the removal of the staging directory can be repeated exactly when no entry had a backup |
| Publication.StrandedAndDiscarded | scripts/render_v8_ga_metadata.py:1393-1425 | Wherever a publication is stranded, once its staging directory is removed a journal that stands can be recovered exactly when no target had existed |
| Publication.UnguardedFlush | scripts/render_v8_ga_metadata.py:1213-1215 | After a flush that fails with the journal just installed and the staging directory removed, all documents are old, and recovery refuses exactly when a target had existed |
| Publication.UnrecordedRollback | scripts/render_v8_ga_metadata.py:1223-1226 | A rollback that runs after the journal was removed and is cut off leaves the old files exactly when the targets it did not reach hold them |
| Publication.StrandedIsSafe | scripts/render_v8_ga_metadata.py:1145-1226 | A stranded publication whose journal stands is refused or recovers to the old files, with and without its staging directory |
| Publication.Disk.RestoreAll | scripts/render_v8_ga_metadata.py:1148-1154 | Wherever a failure or a crash stops the loop, the last entries are restored and nothing else has happened; when it ends, all are |
| Publication.Disk.Rollback | scripts/render_v8_ga_metadata.py:1145-1159 | Ends with the entries undone outside staging and no journal, refused without a change, or cut off with some of the last entries restored; without faults it succeeds exactly when undoing is possible |
| Publication.Disk.Recover | scripts/render_v8_ga_metadata.py:1162-1169 | The same for the journal that is found; without one nothing changes |
| Publication.Disk.BackUp | scripts/render_v8_ga_metadata.py:1181-1207 | Every target that exists has a backup with its contents, and nothing but backups is written, however the loop ends |
| Publication.Disk.InstallJournal | scripts/render_v8_ga_metadata.py:1208-1214 | The journal appears whole or not at all, and stands when only the last flush fails |
| Publication.Disk.RemoveJournal | scripts/render_v8_ga_metadata.py:1140-1142 | Nothing but the journal is removed, and it may be gone although the call fails |
| Publication.Disk.ReplaceTargets | scripts/render_v8_ga_metadata.py:1216-1222 | Only staged files and targets change; on success every target has its expected contents |
| Publication.Disk.Publish | scripts/render_v8_ga_metadata.py:1172-1226 | After a crash one recovery leaves all targets old or all new, and all old while the journal stands; a failure leaves all old, unless the rollback is cut off or missing, which leaves exactly the last entries restored; without faults the publication succeeds |
| Publication.Disk.PublishSorted | scripts/render_v8_ga_metadata.py:1181-1226 | The same for the targets in path order, after the first recovery |
| Rendering.WriteStaged | scripts/render_v8_ga_metadata.py:1393-1424 | Stages the three documents and touches nothing outside the staging directory |
| Rendering.RendererRoots | scripts/render_v8_ga_metadata.py:1036-1042 | The root and the staging directory that publication derives from the paths are those of the renderer |
| Rendering.RendererLayout | scripts/render_v8_ga_metadata.py:1363-1425 | The renderer's targets and staging directory are laid out as publication and recovery need |
| Rendering.RenderFrom | scripts/render_v8_ga_metadata.py:1363-1426 | The same without a journal to recover; when the run is cut short and its staging directory is gone, a journal that stands can be recovered exactly when none of the documents had existed |
| Rendering.Render | scripts/render_v8_ga_metadata.py:1363-1426 | One call ends rendered, already present, failed or killed, and in each case recovery yields the old or the new documents, the old ones while a journal stands; a call that is cut short leaves a standing journal refused or recovering to the old documents; once rendered, the three documents are at their places with the whole old changelog below the new entry |
| Rendering.HistoryIsKept | scripts/render_v8_ga_metadata.py:1389-1396 | The new changelog is the title, the heading, the new entry and, below it, every old entry unchanged |
| Rendering.OldEntriesExist | scripts/render_v8_ga_metadata.py:1391-1393 | Every changelog has such old entries, with or without a title |
| Rendering.NewChangelogHasVersion | scripts/render_v8_ga_metadata.py:1372-1392 | The new changelog contains the version heading that a second run refuses |
| Rendering.StepSettles | scripts/render_v8_ga_metadata.py:1363-1426 | After any call the recovered files are still the original ones or the once-updated ones |
| Rendering.RetriesAreOneRun | scripts/render_v8_ga_metadata.py:1363-1426 | Over any number of killed, failed, cut short and repeated calls, as long as those cut short leave a journal that can be recovered, the recovered files are the original or the once-updated ones, and stay updated after a success |
| Rendering.UpdateIsUnique | scripts/render_v8_ga_metadata.py:1372-1425 | The update is determined by the original files, so retries end as one uninterrupted run |
| LiveCycle.LiveState.Close | scripts/gwo_v8_live_guard_host.py:261-267 | A state is closed at most once and its timer is cancelled then |
| LiveCycle.Cycle.CloseState | scripts/gwo_v8_live_guard_host.py:288-295 | Removes the state, attempts its close once and remembers a failing close |
| LiveCycle.Cycle.Expired | scripts/gwo_v8_live_guard_host.py:297-305 | A timer closes its state only while that very state is installed |
| LiveCycle.Cycle.StartState | scripts/gwo_v8_live_guard_host.py:307-340 | A capture that cannot be used is closed when it can be; otherwise a fresh state is installed |
| LiveCycle.Cycle.Restart | scripts/gwo_v8_live_guard_host.py:342-360 | A first read checks and closes the thread's previous state before it starts another |
| LiveCycle.Cycle.ConsumeField | scripts/gwo_v8_live_guard_host.py:361-392 | A read returns the next field of the snapshot after a stability check; every failure closes the state |
| LiveCycle.Cycle.DeliverField | scripts/gwo_v8_live_guard_host.py:378-392 | The value is returned and the position advances; after the last field the state is closed, and a failing close takes the value back |
| LiveCycle.Cycle.ReadField | scripts/gwo_v8_live_guard_host.py:342-392 | The whole read refines one step of the value specification, result included |
| LiveRuns.StepConserves | scripts/gwo_v8_live_guard_host.py:251-392 | A read or an expiry keeps lease conservation |
| LiveRuns.StepIsTracked | scripts/gwo_v8_live_guard_host.py:342-392 | A read or an expiry keeps every thread's progress in step with its history of captures and returned values |
| LiveRuns.ReadRecordsReturns | scripts/gwo_v8_live_guard_host.py:361-392 | A value is returned only as the recorded field at its position, after a stability check in the same step and with no cleanup error before |
| LiveRuns.EveryRunIsSafe | scripts/gwo_v8_live_guard_host.py:251-392 | Over every interleaving each captured closable lease is held by exactly one thread's state or has had its close attempted exactly once |
| LiveRuns.FailStop | scripts/gwo_v8_live_guard_host.py:284-286 | Once a cleanup error is recorded no read ever returns a value again |
| LiveRuns.ProgressMeaning | scripts/gwo_v8_live_guard_host.py:342-392 | A state's position counts the values returned to its thread since its snapshot was installed |
| LiveRuns.ValuesShareOneSnapshot | scripts/gwo_v8_live_guard_host.py:342-392 | Every returned value is the field at its position in the fixed order, from the snapshot of that thread's latest first read |
| LiveRuns.EveryReturnedValue | scripts/gwo_v8_live_guard_host.py:342-392 | Over every run, a returned value is the field asked for, in the snapshot of the thread's latest first read, of the repository asked for, after the fields before it, with a stability check in the same step and no cleanup error before |
| LiveRuns.ReadSucceeds | scripts/gwo_v8_live_guard_host.py:339-394 | Exactly when a read returns a value, field by field |
| LiveRuns.FourReads | scripts/gwo_v8_live_guard_host.py:339-394 | Over every run, whatever other threads and late timers do: as long as no cleanup fails, four reads in order for the repository of the snapshot return its four fields, and the lease is closed once |
| LiveRuns.FailuresAreRecorded | scripts/gwo_v8_live_guard_host.py:274-306 | A cleanup error is added when a close was attempted and failed, and only then |
| LiveRuns.ExpiryCloses | scripts/gwo_v8_live_guard_host.py:288-297 | A timer closes exactly the state it was armed for, and only while it is installed |
| Lineage.AcceptableMeans | scripts/beta3_control_ownership_attestor.py:1188-1267 | What an acceptable ledger is, with digests, identities and fields written out |
| Lineage.IndexReceipts | scripts/beta3_control_ownership_attestor.py:1215-1238 | Receipts are indexed exactly when all are well-formed with distinct activation ids and plan digests |
| Lineage.LinkReceipts | scripts/beta3_control_ownership_attestor.py:1246-1254 | Passes exactly when every predecessor exists and is named once, and lists the roots |
| Lineage.WalkBack | scripts/beta3_control_ownership_attestor.py:1257-1265 | The walk ends, never misses a predecessor, and either reaches a root over distinct plans or meets a plan twice |
| Lineage.CheckLedger | scripts/beta3_control_ownership_attestor.py:1188-1267 | Accepts exactly the ledgers whose well-formed, distinct receipts can be ordered as one chain ending in the active plan, and returns them by activation id |
| Lineage.LinearIsLinked | scripts/beta3_control_ownership_attestor.py:1246-1254 | In a chain every predecessor exists and has one successor |
| Lineage.LinearHasOneRoot | scripts/beta3_control_ownership_attestor.py:1255-1256 | A chain has exactly one root |
| Lineage.LinearIsTheWalk | scripts/beta3_control_ownership_attestor.py:1257-1267 | In a chain the walk from the active plan meets no plan twice and, at the root, has met all |
| Lineage.WalkIsLinear | scripts/beta3_control_ownership_attestor.py:1257-1267 | A walk to a root that has met every plan is a chain of all receipts |
| CanonicalJson.IntegerBoundsAgree | skills/orchestrator/scripts/gwo_v8/_canonical.py:48-54 | For every integer token the digit-count test of the parser and the magnitude test of the validator agree |
| CanonicalJson.ValueRoundTrip | skills/orchestrator/scripts/gwo_v8/_canonical.py:106-174 | Parsing a printed value gives it back with members sorted, and leaves what follows it |
| CanonicalJson.RoundTrip | skills/orchestrator/scripts/gwo_v8/_canonical.py:177-187 | Loading the canonical text of a domain value returns that value with tuples read as lists and members in order |
| CanonicalJson.AcceptedExactly | skills/orchestrator/scripts/gwo_v8/_canonical.py:177-187 | A text is loaded exactly when it is the canonical text of some domain value |
| CanonicalJson.EncodingIsInjective | skills/orchestrator/scripts/gwo_v8/_canonical.py:106-124 | Values with the same canonical text are the same up to tuples and member order |
| CanonicalJson.ReencodingIsStable | skills/orchestrator/scripts/gwo_v8/_canonical.py:127-187 | Whatever the strict parser accepts can be encoded, and its encoding is loaded and encodes to itself |
| CanonicalJson.PrintOfNormal | skills/orchestrator/scripts/gwo_v8/_canonical.py:106-124 | Sorting members and reading tuples as lists does not change the text |
| CanonicalJson.NormalIsValid | skills/orchestrator/scripts/gwo_v8/_canonical.py:29-103 | It keeps a value in the domain, at the same depth |
| JsonGrammar.StrictExactly | skills/orchestrator/scripts/gwo_v8/_canonical.py:127-174 | The strict parser reads a text as a value exactly when, between blanks, it spells the value in the grammar of RFC 8259, sections 2 to 7, and the value is in the domain |
| JsonGrammar.ValueIsRead | skills/orchestrator/scripts/gwo_v8/_canonical.py:127-174 | Whatever spells a value is read as it, before any separator |
| JsonGrammar.ValueIsSpelled | skills/orchestrator/scripts/gwo_v8/_canonical.py:127-174 | Whatever is read as a value spells it |
| CanonicalText.NoShorterText | skills/orchestrator/scripts/gwo_v8/_canonical.py:106-174 | No text that is read as a value is shorter than its canonical text |
| CanonicalText.PlainText | skills/orchestrator/scripts/gwo_v8/_canonical.py:106-124 | A text without quotes, backslashes and control characters is written as itself |
| CanonicalText.EscapedSpelling | skills/orchestrator/scripts/gwo_v8/_canonical.py:106-124 | How every other character is written |
| CanonicalText.MembersAscend | skills/orchestrator/scripts/gwo_v8/_canonical.py:106-124 | An object is written with all its members in the order of their keys |
| CanonicalText.DepthLimit | skills/orchestrator/scripts/gwo_v8/_canonical.py:15-42 | Sixty-four levels of nesting are encoded and no more |
| CanonicalText.DigitLimit | skills/orchestrator/scripts/gwo_v8/_canonical.py:48-54 | Integers of up to 4,096 digits are encoded and no longer ones |
| Decimals.DigitCountIsMagnitude | skills/orchestrator/scripts/gwo_v8/_canonical.py:140-147 | A plain token has at most k digits exactly when its value is below ten to the k |
| Cleanup.NoForeignFileIsLost | scripts/beta3_release_subject.py:1784-1937 | Over every interleaving each file that ever had the public name, other than the created one, still has a name unless another actor took it away |
| Cleanup.CleanupNeverReplaces | scripts/beta3_release_subject.py:1784-1937 | The cleanup writes no file and never puts a file over a public name that exists |
| Cleanup.EveryStepCounts | scripts/beta3_release_subject.py:1760-1937 | The cleanup ends after a bounded number of its own steps |
| Cleanup.UnlinkedAfterCheck | scripts/beta3_release_subject.py:1869-1922 | A detached file is unlinked only when it was found to be the created one with its content, or after its public name was given back |
| Cleanup.ForeignFileIsLeftAlone | scripts/beta3_release_subject.py:1829-1859 | Whatever its steps are answered, the cleanup changes nothing when the public name is not that of the created file with its content |
| Cleanup.CreatedFileIsRemoved | scripts/beta3_release_subject.py:1760-1937 | Undisturbed, it removes the created file and its private directory whenever a name for the directory is free within sixteen attempts, and changes nothing otherwise |
| Cleanup.ForeignFileComesBack | scripts/beta3_release_subject.py:1784-1811 | Without further interference a foreign file that was detached gets its public name back; a directory stays detached |
| Records.ValidMeansText | scripts/beta3_release_subject.py:2327-2327 | A name is accepted exactly when it is the UTF-16 encoding of some Unicode text |
| Records.VisibleMeans | scripts/beta3_release_subject.py:2338-2346 | Exactly the records with names other than the two dot names are returned, with the directory bit |
| Records.AcceptableMeans | scripts/beta3_release_subject.py:2311-2333 | A record is acceptable exactly when it has an identity, its name is text, and no reparse bit is set |
| Records.ReadRecord | scripts/beta3_release_subject.py:2311-2335 | A record is read only when it lies within the buffer, is well-formed, is no reparse point and the next one lies past it |
| Records.ReadsWhatIsThere | scripts/beta3_release_subject.py:2311-2335 | Every such record is read |
| Records.RefusalMeans | scripts/beta3_release_subject.py:2304-2333 | Which records are refused as truncated, and which for a reparse point |
| Records.LayoutIsUnique | scripts/beta3_release_subject.py:2308-2352 | A buffer holds at most one list of records |
| Records.Decode | scripts/beta3_release_subject.py:2308-2352 | The loop ends, succeeds exactly on buffers laid out from acceptable records, and returns these except the two dot names |
| Records.EncodedIsLaidOut | scripts/beta3_release_subject.py:2195-2200 | Packing records, with any padding between them, lays them out |
| Records.EncodedIsDecodable | scripts/beta3_release_subject.py:2308-2352 | Every packed list of encodable records is one that decoding accepts |
| Tickets.RootTitlesAreDistinct | scripts/provision_v8_root_canary.py:208-242 | The four root tickets have distinct titles |
| Tickets.RootBody | scripts/provision_v8_root_canary.py:208-255 | The keys and bodies of the four root tickets |
| Tickets.CompleteMeans | scripts/provision_v8_root_canary.py:334-360 | Entries are complete exactly when each is the only issue of its title and fulfils its ticket |
| Tickets.SoundMeans | scripts/provision_v8_root_canary.py:608-634 | The existing tickets are sound exactly when every issue of a ticket title is the only one and fulfils the ticket |
| Tickets.CompleteIsUnique | scripts/provision_v8_root_canary.py:334-360 | For given issues there is at most one complete list of entries |
| Provisioning.Screen | scripts/provision_v8_root_canary.py:593-606 | A listing passes exactly when numbers are positive and distinct and titles non-empty |
| Provisioning.Port.PreflightReadback | scripts/provision_v8_root_canary.py:608-634 | A preflight that succeeds has found every existing ticket alone and ready, and caches exactly the readbacks; without faults it fails only otherwise |
| Provisioning.Port.FindExactTitle | scripts/provision_v8_root_canary.py:636-648 | A cached title is used once; any other is looked up and refused when held twice |
| Provisioning.Port.CreateIssue | scripts/provision_v8_root_canary.py:650-668 | Adds one issue with a new number and the ticket's title, or none; a failing call may have had its effect |
| Provisioning.Locate | scripts/provision_v8_root_canary.py:276-300 | All tickets are resolved from the cache, which is empty afterwards |
| Provisioning.Build | scripts/provision_v8_root_canary.py:305-334 | Existing tickets are taken over and missing ones created and read back; however it ends no title gets more than one new issue |
| Provisioning.Barrier | scripts/provision_v8_root_canary.py:336-360 | Succeeds only with the entries unchanged on both sides of the creations |
| Provisioning.ProvisionLock.Enter | scripts/provision_v8_root_canary.py:383-405 | The lock is taken only when no lock file stands |
| Provisioning.ProvisionLock.Exit | scripts/provision_v8_root_canary.py:407-421 | A lock file that cannot be removed stays, and a descriptor that cannot be closed is an error either way |
| Provisioning.Provision | scripts/provision_v8_root_canary.py:258-360 | Without faults a run succeeds exactly when it is allowed, the lock is free, the existing tickets are sound and, if it only reads, none is missing; otherwise the error tells the first of these that fails; it creates only then, only missing tickets and each once, and nothing where all are present |
| Provisioning.RetryReturnsTheSame | scripts/provision_v8_root_canary.py:258-360 | A run after a success returns the same entries |
| ProvisioningRuns.StepIsSafe | scripts/provision_v8_root_canary.py:258-421 | Every step of any of the interleaved runs keeps one writer at a time and what each run knows about the issues |
| ProvisioningRuns.NoTitleIsCreatedTwice | scripts/provision_v8_root_canary.py:258-421 | Over any number of interleaved, failed and crashed runs each title is created at most once |
| ProvisioningRuns.CreationNeedsSoundTickets | scripts/provision_v8_root_canary.py:276-334 | An issue is created only by an approved writing run for the right repository that holds the lock, while every existing ticket is alone and ready |
| ProvisioningRuns.SuccessEndsCreation | scripts/provision_v8_root_canary.py:258-360 | After one success nothing is created again |
| ProvisioningRuns.SuccessesAgree | scripts/provision_v8_root_canary.py:258-360 | All runs that ever succeed, writing or reading, return the same entries |
| ProvisioningRuns.UndisturbedRunSucceeds | scripts/provision_v8_root_canary.py:258-360 | Left alone and answered, a run that may start ends with the complete entries when the existing tickets are sound and, if it only reads, none is missing |
| Framing.Feed | scripts/beta3_release_subject.py:1482-1492 | Hashes the framed stream of the files, or fails when a length does not fit its field |
| Framing.ShortFrame | scripts/sync_orchestrator.py:42-45 | The layout of one framed file, byte by byte |
| Framing.UnframeStream | scripts/sync_orchestrator.py:37-46 | The stream decodes to exactly the list of names and contents |
| Framing.StreamIsInjective | scripts/sync_orchestrator.py:37-46 | Equal streams come from equal lists |
| Bytes.BigEndianRoundTrip | scripts/sync_orchestrator.py:42-44 | A length that fits its big-endian field is read back from it |
| Packages.Scan | scripts/beta3_control_ownership_attestor.py:3131-3176 | One directory is read in name order: kept files recorded, directories but caches left for later, anything else refused |
| Packages.Snapshots | scripts/beta3_control_ownership_attestor.py:3119-3177 | The work-list loop ends, refuses exactly the trees in which a special file is met, and returns the kept files in the order of their path texts |
| Packages.KeptMeans | scripts/beta3_control_ownership_attestor.py:3155-3162 | A file is kept exactly when no directory on its path is a cache and its name does not end in .pyc after something else |
| Packages.ScanAccounts | scripts/beta3_control_ownership_attestor.py:3131-3176 | What a scan records and leaves for later accounts for everything below the directory |
| Digests.PruningIsFiltering | scripts/beta3_control_ownership_attestor.py:3156-3162 | Not descending into caches keeps exactly the files that filtering a full listing by path keeps |
| Digests.CollectedOnce | scripts/beta3_control_ownership_attestor.py:3119-3177 | In a well-named tree no path is collected twice |
| Digests.NormalisedKeeps | scripts/sync_orchestrator.py:40-41 | Normalising line ends changes nothing exactly when no carriage return stands before a line feed |
| Digests.NormalisedTwice | scripts/sync_orchestrator.py:40-41 | A second pass changes nothing exactly for texts without CR CR LF |
| Digests.TripleIsNotStable | scripts/sync_orchestrator.py:40-41 | CR CR LF becomes CR LF and then LF |
| Digests.CheckoutKeepsNormalised | scripts/sync_orchestrator.py:40-41 | A checkout that gives bare line feeds a carriage return does not change the normalised text |
| Digests.CheckoutKeepsStream | scripts/sync_orchestrator.py:37-46 | Whichever texts a checkout converts, a package hashes to the same stream |
| Digests.NormalisedReplaces | scripts/sync_orchestrator.py:40-41 | Normalising replaces every carriage return with line feed, from left to right, by a line feed |
| Digests.TextIsGlued | scripts/sync_orchestrator.py:40-41 | Every text is made of pieces with such line ends between them |
| Digests.WhatIsHashed | scripts/sync_orchestrator.py:24-46 | The hashed stream holds all files in the order of their relative paths, each with this path and its content, normalised for the seven text suffixes only |
| Digests.ListedMeans | scripts/sync_orchestrator.py:26-34 | Which files each digest is about |
| Paths.OrderOfTexts | scripts/sync_orchestrator.py:35-35 | Texts are ordered by the first character in which they differ, and a beginning comes first |
| Digests.PackageDigest | scripts/sync_orchestrator.py:24-46 | Hashes the listed files in relative path order, whatever order the listing has |
| Digests.PackageContentDigest | scripts/beta3_control_ownership_attestor.py:3521-3546 | Hashes the snapshots in relative path order |
| Digests.StreamIgnoresOrder | scripts/sync_orchestrator.py:26-36 | The stream of a package does not depend on the order in which its files are found |
| Digests.DigestsAgree | scripts/beta3_control_ownership_attestor.py:3521-3546 | Both digests hash the same stream for the same package tree |
| Digests.EqualStreamsEqualPackages | scripts/sync_orchestrator.py:24-46 | Packages with equal streams hold the same relative paths with the same hashed contents |

## Left out

- Search.BestCompatibleSubset: optimality is stated for non-negative unlocks of unprioritised Issues. That this is exact is proved for the bound, for searches that stop at their seed, for candidates without conflicts and for all claims at once (`Scores.AdmissibleExactly`, `Search.ShortcutIsOptimalExactly`, `SearchLimits`); for one given set of conflicting candidates, whether a wrongly pruned node matters depends on the best selection found before it.
- Frontier.SelectWave: Issue numbers are taken to be distinct, and the text of a reason beyond its kind is not modelled; candidate assessment labels and reserve counts are not part of this model.
- Claims.IssueClaimsContend: letter case is folded for ASCII only, here and wherever texts are lowered.
- Search.Explorer.Visit: Python's recursion limit is not modelled.
- FrontierRuns.RunIsSafe: a delivery that is withdrawn is no step of these runs, because it may break the slots; `FrontierRuns.HistoryIsSound` is about runs with such deliveries.
- FrontierRuns.ResumeIsSafe: the claims that are checked are the Issue's own, and the checks of the contract digest and of the integration base, which only make resuming rarer, are left out.
- Publication.Disk.Publish: what a power failure loses of unflushed data, links and reparse points, and creating parent directories are not modelled; the journal's JSON text is represented by its value, so a document is never mistaken for a journal.
- Publication.Disk.Recover: a recovery that is cut off promises only which entries are restored; removing the staging directory happens whole or not at all.
- Rendering.RetriesAreOneRun: a run that is cut short and leaves no journal, or one that is refused, ends the histories, since the code promises nothing from there on; `Publication.InterruptedRecovery`, `Publication.StrandedAndDiscarded` and `Publication.UnrecordedRollback` say exactly when that happens and what is lost.
- Rendering.Render: the documents' texts are parameters, and the translation of line ends on reading and writing text files is not modelled; the validation of the renderer's inputs is not part of this model.
- LiveCycle.Cycle.ReadField: the lock makes a read one step, so waiting for it is not modelled; the 30-second bound is an expiry that may happen at any time; `_LiveReadPort` only forwards.
- Lineage.CheckLedger: decoding the ledger's JSON into receipts is not part of this model; all refusals carry one code in the source and are told apart here.
- CanonicalJson.AcceptedExactly: payloads with float tokens, which the source accepts, are outside the model.
- CanonicalJson.RoundTrip: floats, Python's recursion limit, cycles by object identity and the UTF-8 step are left out; texts hold no lone surrogates because Dafny characters have none.
- Cleanup.NoForeignFileIsLost: descriptors and identity reads are abstract inode numbers; creating the file is the state the run starts from.
- Records.Decode: one buffer is decoded; calling for further buffers and sorting all results is not part of this model, and UTF-16 names are kept as bytes that are checked to be well-formed.
- Provisioning.Locate: the second validation of a cached readback, which the preflight has already validated, is not repeated.
- ProvisioningRuns.StepIsSafe: nobody else edits the issues during the runs, as the source's barrier can only detect; comments and timestamps are one field compared for equality.
- Packages.Snapshots: held handles and identity checks against concurrent change are not part of this model.
- Digests.DigestsAgree: a link inside a cache directory is never listed; other links make the traversal refuse the tree.
- The validators of evidence, manifests, bundles, GitHub snapshots and the runtime configuration are not modelled.
- Process launching, `gh` and Git commands, SQLite and the Windows handle code are input and output.
- The execution kernel, plan control, candidate gate, batch integrator and cutover guard are not part of this model.
