# A verified model of rustysd

rustysd starts, supervises and stops units: services, sockets and targets. Units are connected by six kinds of
edges (`before`/`after`, `requires`/`required_by`, `wants`/`wanted_by`). This project models the parts of rustysd whose
correctness depends on that graph and on the order of events, and proves what they promise.

`dafny verify dfyconfig.toml` checks everything.

- **The graph.** `Units` and `Digraph` define the unit table and what it means for it to be closed (no edge leads out
  of the table), mirrored (every edge is there from both ends) and acyclic. `DependencyResolving`, `SocketLinking`,
  `Pruning` and `Loading` follow a table from the parsed files to the one that is run; `SanityCheck` is the depth-first
  search that accepts exactly the acyclic tables; `StartSubgraph` computes what a target needs; `InsertNew`,
  `RemoveUnits` and `RemovalCheck` change a table that is in use.
- **The statuses.** `UnitStatus` holds the guards and transitions as functions on a status map, and `WholeRuns` what
  holds after any sequence of them. `Services` and
  `RuntimeInfo` are the objects they act on: the pid of a service, the store of open sockets, and the operations start,
  stop, restart, recursive stop and shutdown, each as one whole.
- **Everything at once.** `StartupPool`, `StartupRuns` and `StartupTries` cut the parallel start into the steps of the
  activities in the thread pool and quantify over every schedule; `Boot` puts loading, checking and starting together.
  `InterleavedSafety` does the same for overlapping calls of all kinds, `InterleavedConsistency` says when regular ones
  keep requires-consistency, and `PidTable` covers the threads that share the pid table, pids being used again included.
- **Streams and files.** `Splitting`, `Notifications`, `UnitParser` and `SocketUnits` cover the buffers that messages
  and output lines are cut from, the numbered entries of a section and the order of the sockets of a unit.

The environment is an argument: whether a command, a fork, a socket or a close succeeds is chosen freely, as is the
order in which a hash map yields its entries and the order in which threads run. `Pid` and `Termination` are numbers,
text is a sequence of characters, a table is a `map`. A method that changes a table in the original takes it and
returns the new one here; objects with fields of their own are classes.

Some things the code does differ from what one would expect from it. They are modelled as they are, with the exact
condition under which the expectation holds:

- A service whose poststart commands fail while its poststop commands succeed reports a failed *prestart*
  (src/services/services.rs:217, `Services.MisreportedPoststart`).
- The flag and the buffer of the notifications of a service are not reset when it is started again. The wait for
  readiness ends with the right message exactly if both are empty by then (`Notifications.WaitsForOwnReadyIff`).
- A message named READY signals readiness whatever its value (`Notifications.SaysReadyIff`), and a status message is cut
  at its second equals sign (`Notifications.StatusTextArrives`).
- The lists of sockets and services are not cleaned when a unit is removed. None is left dangling exactly if every unit
  names what it lists, directly or through others; links made by matching names do not count as naming
  (`RemoveUnits.NoRemovalDangles`).
- Inserting a batch leaves the table mirrored in every order of a hash map exactly if the batch is mirrored in itself
  and everything it depends on exists (`InsertNew.MirroredBatchSuits`).
- A restart, and a start by socket activation, do not look at the dependents of the unit. They keep requires-consistency
  whatever happens exactly if no started unit relies on the unit, or they do not get that far
  (`UnitStatus.RestartConsistencyIff`, `UnitStatus.StartConsistencyIff`, `WholeRuns.FailingRestartLoses`).
- Before a removal only the direct referrers of the unit are checked to be stopped, although referrers of referrers
  are removed as well (`RemovalCheck.CheckCoversRemoval`, `RemovalCheck.IndirectReferrerEscapes`).
- The stop guard does not see a dependent that is still starting. Overlapping calls keep requires-consistency exactly as
  long as this does not happen (`InterleavedConsistency.ConsistentUnlessClash`).
- A pid that is given out again while the exit of its last process is still being handled or waited for leads to
  unreachable code or to the wrong exit; at any other time it is harmless (`PidTable.SafeReuse`).

## Model

| member | source | states |
|---|---|---|
| IdVectors.DedupHasNoRepeat | src/units/unit.rs:736-750 | sorting and dropping equal neighbours leaves a sorted vector with the same ids and none twice, provided no two ids share a name |
| IdVectors.DedupFixed | src/units/unit.rs:736-750 | a vector that is sorted and without repetition is left alone |
| IdVectors.RemoveFromVec | src/units/unit.rs:774-778 | removing an id by position, as long as it is found, leaves all others in order |
| Digraph.AcyclicHasSink | src/units/unitset_manipulation/activate.rs:220-223 | in an acyclic graph every non-empty set of units has one with no edge to another of the set, found by walking until a unit repeats |
| Digraph.AcyclicHasRank | src/units/unitset_manipulation/activate.rs:220-223 | an acyclic closed graph has a rank that falls along every edge; the measure of the startup proofs |
| Digraph.ReachesNoCycleHasRank | src/units/unitset_manipulation/deactivate.rs:4-26 | from a unit that reaches no cycle there is a rank for all that it reaches, cycles elsewhere or not; the measure of the recursions over required_by |
| Digraph.AfterIsAcyclic | src/units/unitset_manipulation/sanity_check.rs:12-73 | in a mirrored table `after` has a cycle only if `before` has one, so checking one of them is enough |
| StartSubgraph.NextIds | src/units/unitset_manipulation/activate.rs:177-189 | one round finds exactly the ids that are needed by the present ones and are not among them, each once |
| StartSubgraph.CollectUnitStartSubgraph | src/units/unitset_manipulation/activate.rs:174-197 | the result is exactly the reflexive-transitive closure of the seeds over after, wants and requires, without duplicates if the seeds have none |
| SanityCheck.BackedgeSearch.SearchBackedge | src/units/unitset_manipulation/sanity_check.rs:75-122 | the recursive search either finishes the unit, extends the finishing order and restores the path, or reports a cycle of units that were not finished, none twice, and finishes them |
| SanityCheck.BackedgeSearch.SearchSuccessors | src/units/unitset_manipulation/sanity_check.rs:93-112 | the loop over the later units ends with all of them finished or with a circle |
| SanityCheck.SanityCheckDependencies | src/units/unitset_manipulation/sanity_check.rs:12-73 | Ok if and only if `before` has no cycle, whatever the order of the map, with the finishing order as a rank; otherwise every reported list is a cycle, but for a last one of units that each come after another of them, no unit is reported twice, and every cycle of the table meets a reported list |
| Pruning.PruneUnits | src/units/loading/dependency_resolving.rs:8-123 | fails exactly if no unit has the name; otherwise keeps exactly what the target needs and, in every vector and list, the ids that are kept |
| Pruning.NeededIdsAfterPruning | src/units/loading/dependency_resolving.rs:8-123 | the pruned table needs the same units for its target as the full one |
| Pruning.PruningTwice | src/units/loading/dependency_resolving.rs:8-123 | pruning for the same target again changes nothing |
| Pruning.PruningKeepsShape | src/units/loading/dependency_resolving.rs:8-123 | a closed, mirrored table whose sockets and services list each other stays one, and no kept unit lists a pruned one |
| Pruning.PruneUnusedSockets | src/units/loading/mod.rs:93-110 | removes and reports exactly the sockets without a service |
| Pruning.CleanupRemovedIds | src/units/loading/mod.rs:82-91 | every removed id disappears from all six vectors of every unit |
| Pruning.DropUnusedSockets | src/units/loading/mod.rs:69-77 | the two together keep the table closed and mirrored, keep exactly the edges between kept units, and no service loses a socket it lists |
| DependencyResolving.CollectEdges | src/units/loading/dependency_resolving.rs:129-156 | the four lists of pairs hold exactly the declared edges, each relation together with its mirror |
| DependencyResolving.MirrorDependencies | src/units/loading/dependency_resolving.rs:129-180 | afterwards an edge is there exactly if it was declared at one of its two ends |
| DependencyResolving.AddSocketTargetRelations | src/units/loading/dependency_resolving.rs:205-222 | adds exactly the edges between sockets.target and each socket, both ways |
| SocketLinking.LinkIfMatching | src/units/loading/dependency_resolving.rs:276-321 | links a service and a socket exactly if one names the other or their names match and they do not yet name each other both ways; a link means both lists and the four vectors |
| SocketLinking.SuffixIsCutOff | src/units/unit.rs:383-386 | the name that is compared is what stands before the last dot, and nothing if there is none |
| SocketLinking.LinkedIsStable | src/units/loading/dependency_resolving.rs:250-339 | whether a pair is to be linked does not change while other pairs are linked, which is why the order does not matter |
| SocketLinking.LinkSocket | src/units/loading/dependency_resolving.rs:267-332 | the inner loop links exactly the matching services and counts them |
| SocketLinking.ApplySocketsToServices | src/units/loading/dependency_resolving.rs:250-339 | fails exactly if a socket would be added to more than one service; otherwise edges and lists grow by exactly the newly linked pairs, in any order |
| Loading.FillDependencies | src/units/loading/dependency_resolving.rs:129-198 | the edges of the filled table are the declared ones from both ends, those of sockets.target and those of new links, each once in its vector; the verdict and the result, as sets, do not depend on any order |
| Loading.FillingEstablishesShape | src/units/loading/dependency_resolving.rs:125-198 | the filled table is closed and mirrored, and sockets and services list each other |
| Loading.FillingTwice | src/units/loading/dependency_resolving.rs:125-198 | filling a filled table adds no edge and no list entry |
| Loading.LoadAllUnits | src/units/loading/mod.rs:46-80 | the loaded table is well formed, has exactly the needed units without unused sockets and exactly the filled edges between them, each once; services and sockets go on listing what they were declared or linked to, as far as it is kept or needed, and the names they refer to are as declared |
| Loading.KeptExactly | src/units/loading/mod.rs:93-110 | a needed unit is dropped exactly if it is a socket none of whose services is needed |
| Boot.UnstartedDeps | src/units/unitset_manipulation/activate.rs:85-118 | reported are exactly the predecessors that were never tried and the required ones that are not started; none for an unknown unit |
| Boot.FindStartableUnits | src/units/unitset_manipulation/activate.rs:239-249 | exactly the units of the list whose predecessors have all been tried and whose required ones are started, in their order |
| Boot.ScanAloneFinds | src/units/unitset_manipulation/activate.rs:239-249 | the scan that the pool takes step by step finds, undisturbed, what the loop finds |
| Boot.TargetIsKept | src/units/loading/mod.rs:69-77 | loading keeps its target exactly if it is no socket, or a socket that needs one of its services to start |
| Boot.PrepareStart | src/bin/rustysd.rs:112-136 | from declared units to a start: rejected exactly if some socket goes to several services or the loaded table has an ordering cycle; a socket that is not kept is reported, where the original panics; otherwise the ids are exactly what the target transitively comes after, wants or requires, each once, the loaded units have their edges and lists, and in every schedule that drains the pool each id is started unless it or something before it failed for good |
| StartupPool.ReadyStays | src/units/unitset_manipulation/activate.rs:96-117 | what is ready stays ready while statuses only move on |
| StartupPool.GuardPasses | src/units/unit.rs:402-433 | a task that the scheduler has let through is let through by the guard of the unit |
| StartupPool.TaskAloneIsWhole | src/units/unitset_manipulation/activate.rs:271-308 | the steps of a task that nothing comes between add up to the whole start of its unit, and it goes on to the later units exactly on Ok |
| StartupPool.StepForgetsNothing | src/units/unitset_manipulation/activate.rs:254-312 | after every step a needed unit whose predecessors are all started is started, failed or still pending in some activity |
| StartupPool.StepKeepsInv | src/units/unitset_manipulation/activate.rs:254-312 | the invariant of the parallel start: locks are exclusive, only needed units are touched, units are queued and started only when ready, nothing is forgotten |
| StartupRuns.StepWeighsLess | src/units/unitset_manipulation/activate.rs:254-312 | every step of every activity, a failed start included, lowers a weight defined by recursion over the acyclic `before` edges |
| StartupRuns.WeightsExist | src/units/unitset_manipulation/activate.rs:220-223 | such weights exist if the table is acyclic |
| StartupRuns.RunKeepsInv | src/units/unitset_manipulation/activate.rs:201-312 | the invariant holds at every moment of every run |
| StartupRuns.NoDependencyErrors | src/units/unitset_manipulation/activate.rs:297-303 | in no interleaving is a queued unit refused with a dependency error: whatever its task has got to, its predecessors have been tried and the required ones are started; units that are not needed stay NeverStarted |
| StartupRuns.StartedHasDepsReady | src/units/unit.rs:402-433 | at every moment a starting or started unit has no NeverStarted predecessor and all required ones started |
| StartupRuns.RunsEnd | src/units/unitset_manipulation/activate.rs:220-236 | there is a bound on the length of all runs, although units are queued again for each predecessor |
| StartupRuns.NeverStuck | src/units/unitset_manipulation/activate.rs:254-312 | as long as the pool is not empty some activity can step |
| StartupRuns.StartupCompletes | src/units/unitset_manipulation/activate.rs:201-312 | in every schedule, once the pool is empty a needed unit is started unless it or something it transitively comes after failed to start and is not started now |
| StartupTries.TriedOnceReady | src/units/unitset_manipulation/activate.rs:85-118 | if a step starts one of the predecessors of a needed unit and now all of them have been tried and the required ones are started, the unit is started or has failed once the pool is empty: a failed predecessor that is not required does not hold it back |
| StartupTries.TriedAfterAStart | src/units/unitset_manipulation/activate.rs:271-303 | at every moment a unit that has been tried comes after nothing or after something that is started: a failed unit does not set off the ones after it |
| StartupTries.FailedExactly | src/units/unitset_manipulation/activate.rs:297-307 | the failed units are exactly those whose start came to a failure at some step of the run |
| UnitStatus.ActivateKeepsConsistency | src/units/unit.rs:402-433 | starting a unit keeps: a started unit has everything it requires and comes after started |
| UnitStatus.DeactivateKeepsConsistency | src/units/unit.rs:472-495 | stopping a unit keeps it, because required_by mirrors requires |
| UnitStatus.ShutdownKeepsConsistency | src/shutdown.rs:4-39 | shutting down the chosen unit keeps it, because before mirrors after |
| UnitStatus.ActivateResult | src/units/unit.rs:499-577 | over the statuses: running units, waiting ones without a wake-up and stopped ones with one are left alone; any other start is refused exactly if a predecessor was never tried or a required one is not started, naming those, and else ends started, or stopped unexpectedly with the error |
| UnitStatus.DeactivateResult | src/units/unit.rs:581-633 | a stop leaves stopped units alone, is refused exactly if a unit that requires this one is started, naming those, and else ends stopped for good, with the error if there was one |
| UnitStatus.ReactivateResult | src/units/unit.rs:639-705 | a restart is refused like a start; of a started unit the stop comes first, and its failure ends the restart |
| UnitStatus.StartConsistencyIff | src/units/unit.rs:499-577 | a start keeps it however it turns out if and only if it is a regular one, or will be refused, or the unit is not waiting for its socket, or no started unit requires it and comes after it |
| UnitStatus.RestartConsistencyIff | src/units/unit.rs:639-705 | a restart keeps it however it turns out if and only if it will be refused, or the unit is not started, or no started unit requires it and comes after it |
| UnitStatus.SomethingToShutDown | src/shutdown.rs:4-39 | in an acyclic table a unit to shut down exists as long as anything is started |
| UnitStatus.AcyclicHasNoSelfOrder | src/units/unitset_manipulation/locking.rs:26-28 | in a table without ordering cycles no unit comes after itself, on which acquiring the locks would panic |
| WholeRuns.RunsKeepConsistency | src/units/unit.rs:397-705 | requires-consistency holds after every run of whole start, stop and shutdown operations, and of restarts and wake-ups that are safe in that sense, with any outcomes |
| WholeRuns.FailingRestartLoses | src/units/unit.rs:639-705 | a socket and two services as they come out of their files can be started one after the other so that a restart or a wake-up of the first service, if its start fails, leaves the second one started without it |
| Services.Service.Start | src/services/services.rs:150-232 | refused if there is a process; otherwise a process is left behind exactly if the start succeeded and the fork did, with the error of the first step that failed |
| Services.MisreportedPoststart | src/services/services.rs:212-223 | a start past its prestart commands reports that these failed exactly if the poststart commands failed and the poststop commands did not |
| Services.StartErrorTells | src/services/services.rs:150-232 | each error of a start tells exactly which of its steps succeeded and whether the poststop commands did |
| Services.Service.Kill | src/services/services.rs:263-292 | afterwards there is no process, whichever command failed; the error tells which |
| Services.KillErrorTells | src/services/services.rs:263-292 | and so does each error of a stop |
| Services.FdStore.InsertGlobal | src/fd_store.rs:35-43 | stores under a new name; hands the descriptors back and changes nothing if the name is taken |
| Services.FdStore.RemoveGlobal | src/fd_store.rs:45-48 | hands out and removes the entry |
| Services.OpenAll | src/sockets/mod.rs:77-107 | on success the store holds one descriptor per configured socket under the unit's name, on failure nothing changes |
| Services.CloseAll | src/sockets/mod.rs:109-123 | the entry is gone in any case; Ok exactly if every descriptor closed |
| RuntimeInfo.RuntimeInfo.constructor | src/runtime_info.rs:17-26 | a fresh system is valid: nothing is started and nothing is held |
| RuntimeInfo.RuntimeInfo.Activate | src/units/unit.rs:499-577 | the new status and result of a start: who is left alone, who is refused and for which predecessors, and how an attempt ends; a service has a pid exactly while Started(Running), unless its fork failed, and a socket an entry in the store exactly while started, those just acquired, so a pid is never in the way; the sockets of a service that now waits are listened to again, and nothing of other units is touched; requires-consistency is kept exactly if the start was safe beforehand, as a regular one is, or succeeds |
| RuntimeInfo.RuntimeInfo.Deactivate | src/units/unit.rs:581-633 | the new status and result of a stop, the same bookkeeping, requires-consistency kept |
| RuntimeInfo.RuntimeInfo.Reactivate | src/units/unit.rs:639-705 | the new status and result of a restart, full if the unit was started, with the same bookkeeping; requires-consistency is kept exactly if the restart was safe beforehand or both its stop and its start succeed |
| RuntimeInfo.RuntimeInfo.DeactivateUnitRecursive | src/units/unitset_manipulation/deactivate.rs:4-26 | never a dependency error; Ok means all transitive dependents are stopped; others are untouched; a unit is stopped only if everything that requires it has stopped cleanly; an error is that of the one dependent which failed to stop |
| RuntimeInfo.RuntimeInfo.DeactivateUnitsRecursive | src/units/unitset_manipulation/deactivate.rs:51-59 | the same for a list, in its order, up to the first unit that fails to stop or else the first unknown id, whose error it returns; those before it are all stopped and those after it untouched |
| RuntimeInfo.RuntimeInfo.GetNextServiceToShutdown | src/shutdown.rs:4-39 | a started unit with no started unit in its before list; None only if there is none |
| RuntimeInfo.RuntimeInfo.ShutdownUnit | src/shutdown.rs:41-116 | the unit ends up stopped and holds nothing, errors or not |
| RuntimeInfo.RuntimeInfo.ShutdownSequence | src/shutdown.rs:136-145 | everything started is stopped and nothing else changes; a unit goes only after all started units that come after it; requires-consistency, if it held, holds after each stop |
| InsertNew.CheckAllNamesExist | src/units/unitset_manipulation/insert_new.rs:73-110 | Ok exactly if no id or name is taken and every name that is referred to is known or new |
| InsertNew.InsertOne | src/units/unitset_manipulation/insert_new.rs:117-143 | inserting a unit adds its edges and their mirrors at units that are already there |
| InsertNew.InsertNewUnits | src/units/unitset_manipulation/insert_new.rs:113-148 | refused batches change nothing; otherwise the table is the result of inserting the units one by one in some order, and its edges are exactly those of the table and the batch with the mirrors of those whose far end was there earlier |
| InsertNew.ParsedDepsExist | src/units/unitset_manipulation/insert_new.rs:73-110 | for units from files the check of the names makes sure that everything they depend on exists |
| InsertNew.InsertingKeepsClosed | src/units/unitset_manipulation/insert_new.rs:113-148 | the table stays closed if and only if everything the batch depends on exists |
| InsertNew.InsertingKeepsMirrored | src/units/unitset_manipulation/insert_new.rs:113-148 | the table stays mirrored if and only if, besides, the batch is mirrored in itself where the order does not make up for it |
| InsertNew.MirroredBatchSuits | src/units/unitset_manipulation/insert_new.rs:113-148 | the table stays mirrored in every order of insertion if and only if the batch is mirrored in itself and everything it depends on exists |
| InsertNew.OrderMatters | src/units/unitset_manipulation/insert_new.rs:117-143 | for any table and an accepted batch of two units from files, of which one names the other, one order gives a mirrored table and the other does not |
| InsertNew.NewOnesSuit | src/control/control.rs:585-613 | what a freshly loaded table has that the running one has not can be inserted in any order: the table stays closed and mirrored and then holds both, old and new units with their own edges, lists and names, and the old ones with the mirrors of edges to them |
| InsertNew.LoadAllNew | src/control/control.rs:585-613 | so the command that loads all new units either keeps the table in shape or is refused, exactly if a new unit names one that is in neither table |
| RemoveUnits.RemoveSingleUnit | src/units/unitset_manipulation/remove.rs:54-60 | the unit and every edge to it are gone, everything else is as before |
| RemoveUnits.RemoveWithDependingUnits | src/units/unitset_manipulation/remove.rs:84-103 | removes exactly the unit and all units that name it directly or through others, with their edges; ends although siblings may be gone already |
| RemoveUnits.RemovalKeepsShape | src/units/unitset_manipulation/remove.rs:84-103 | the remaining table is closed and mirrored and neither an edge nor a name refers to a removed unit; the lists of the remaining units are as before |
| RemoveUnits.NoneDanglesIff | src/units/unit.rs:780-787 | a removal leaves no list with a removed socket or service exactly if each unit that lists one is removed as well |
| RemoveUnits.NoRemovalDangles | src/units/unit.rs:780-787 | no removal ever does if and only if every unit names, directly or through others, the units it lists |
| RemoveUnits.NamedListsStayClean | src/units/from_parsed_config.rs:36-42 | in particular if every unit names what it lists |
| RemoveUnits.ParsedListsAreNamed | src/units/from_parsed_config.rs:36-42 | as a unit does that comes from a file |
| RemoveUnits.RemovalLeavesListedSocket | src/units/unit.rs:780-787 | in the table that parsing and filling make of a service and a socket with matching names and empty files, the service goes on listing the socket after its removal |
| RemovalCheck.RankedReturns | src/units/unitset_manipulation/remove.rs:29-50 | the check returns for a unit from which no cycle of required_by can be reached |
| RemovalCheck.CheckDeactivatedRecursive | src/units/unitset_manipulation/remove.rs:29-50 | whenever the recursion returns, it is Ok exactly if the unit and everything that transitively requires it is stopped |
| RemovalCheck.FindAllDepending | src/units/unitset_manipulation/remove.rs:62-81 | finds exactly the units that name the unit themselves: the recursive calls return at once |
| RemovalCheck.RemoveUnitWithDependencies | src/units/unitset_manipulation/remove.rs:5-26 | goes ahead exactly if the checked units are stopped, and then removes the unit with all its referrers; otherwise changes nothing |
| RemovalCheck.CheckCoversRemoval | src/units/unitset_manipulation/remove.rs:5-26 | the check makes sure that all removed units are stopped if and only if each of them is among the checked ones |
| RemovalCheck.NoIndirectReferrers | src/units/unitset_manipulation/remove.rs:5-26 | they are if whatever names a referrer names the unit as well |
| RemovalCheck.IndirectReferrerEscapes | src/units/unitset_manipulation/remove.rs:62-81 | in the table that parsing and filling make of three targets, each ordered after the one before, a started unit is removed |
| InterleavedSafety.CallStepEffect | src/units/unit.rs:397-495 | a step changes only the status of its unit and never back to NeverStarted; a unit becomes active only behind a start guard that found its predecessors ready; whoever passes a guard marks the unit as starting, stopping or restarting |
| InterleavedSafety.StartAloneIsWhole | src/units/unit.rs:499-577 | the steps of a start that nothing comes between add up to the whole transition; the next three say so for the other calls |
| InterleavedSafety.StopAloneIsWhole | src/units/unit.rs:581-633 | the same for a stop |
| InterleavedSafety.RestartAloneIsWhole | src/units/unit.rs:639-705 | the same for a restart |
| InterleavedSafety.ShutdownAloneIsWhole | src/shutdown.rs:41-116 | the same for the shutdown of a unit, which does nothing unless the unit was started |
| InterleavedSafety.ActiveHasPredecessorsTried | src/units/unit.rs:397-466 | however start, stop, restart and shutdown overlap, a starting, restarting or started unit has no NeverStarted predecessor, and each required predecessor has been started before |
| InterleavedSafety.NeverStartedNeverReturns | src/units/unit.rs:499-705 | no status returns to NeverStarted |
| InterleavedConsistency.ConsistentUnlessClash | src/units/unit.rs:479-487 | in every history of overlapping regular starts and stops, at most one at a time per unit, requires-consistency holds at each moment and after any next step if and only if no stop gets past its guard while a unit that requires the stopped one and follows it is being started |
| InterleavedConsistency.ClashLoses | src/units/unit.rs:479-487 | after such a stop the start need only succeed for the unit to be started without what it requires |
| InterleavedConsistency.RequiresConsistencyIsLost | src/units/unit.rs:479-487 | and such histories exist, with one call at a time per unit, in the table that parsing and filling make of two targets |
| PidTable.HandlerKeepsInv | src/services/service_exit_handler.rs:24-89 | each critical section of the exit handler keeps the protocol invariant |
| PidTable.WaiterKeepsInv | src/services/services.rs:597-658 | so does each look, timeout or cleanup of a waiter |
| PidTable.SpawnKeepsInv | src/services/services.rs:366-380 | so does the spawn of a process under a pid that is not busy, used before or not |
| PidTable.NothingImpossible | src/services/service_exit_handler.rs:24-89 | in no interleaving of harmless events, the reuse of pids included, is a branch reached that is marked unreachable or reports a pid as saved before |
| PidTable.OwnExit | src/services/services.rs:597-658 | a waiter that returns in time returns the exit of its own process, whoever else had the pid |
| PidTable.TakenOnce | src/services/fork_parent.rs:97-160 | the exit status of each process is taken out of the table at most once, and rightly |
| PidTable.ResultIsTaken | src/services/fork_parent.rs:97-160 | whoever returns an exit has taken it out of the table |
| PidTable.NoLostExit | src/services/services.rs:597-658 | once the handler is through, the next look of whoever waits for the process finds the exit |
| PidTable.ResultTellsEvent | src/services/fork_parent.rs:31-96 | a waiter returns a timeout exactly if its time was up before anything else ended its wait, readiness exactly if it waits for a notification and saw it first, and an exit exactly if it first found one in the table |
| PidTable.SpawnedIsAwaited | src/services/services.rs:366-380 | each helper, oneshot and notify process has one waiter of its kind |
| PidTable.AwaitedWasSpawned | src/services/services.rs:366-380 | and there is no other waiter |
| PidTable.HelpersLeaveNothing | src/services/services.rs:366-444 | when all waiters have returned no entry of a helper is left, timed out or not |
| PidTable.SafeReuse | src/services/service_exit_handler.rs:24-89 | after any run, giving out the pid of a process that is gone cannot go wrong, for any kind of process, if and only if no handler and no waiter is still at work on that pid |
| PidTable.SafeOrphan | src/services/service_exit_handler.rs:24-58 | the exit of a process that was not spawned here cannot go wrong if and only if its pid has no entry |
| PidTable.ReuseBeforeCleanup | src/services/services.rs:437-444 | one way it goes wrong: the cleanup after a helper removes the entry of the next helper with its pid |
| PidTable.ReusedPidIsFatal | src/services/service_exit_handler.rs:61-89 | another, soon reached: the handler of a service is between its two sections |
| Splitting.SplitOfConcat | src/notification_handler.rs:267-277 | splitting the remainder together with more input gives what splitting everything at once gives |
| Splitting.SplitIsFaithful | src/services/services.rs:531-556 | the parts with their separators and the remainder give back the input, and no part contains a separator |
| Splitting.SplitIsUnique | src/services/services.rs:531-556 | there is no other way to cut the input |
| Notifications.ServiceStreams.HandleNotificationMessage | src/notification_handler.rs:247-265 | a STATUS message adds its text, a READY message sets the flag, any other changes nothing |
| Notifications.ServiceStreams.HandleNotificationsFromBuffer | src/notification_handler.rs:267-277 | all complete lines are handled in order and only the incomplete one stays |
| Notifications.ReceiveAll | src/notification_handler.rs:101-105 | for any chunking, and an unfinished line left from before, the messages, the flag and the remainder are those of the whole stream |
| Notifications.WaitForReady | src/services/fork_parent.rs:31-96 | the wait ends with the first chunk after which the flag is set, which may be left over; then the flag is cleared and later chunks are not touched |
| Notifications.ReadyAtIsFirst | src/services/fork_parent.rs:79-88 | that is the first chunk with which the flag was set before or the stream has completed a READY message |
| Notifications.LeftoverFlagEndsWait | src/services/fork_parent.rs:79-88 | a flag left from an earlier run ends the wait with the first chunk, whatever it says |
| Notifications.WaitsForOwnReadyIff | src/services/fork_parent.rs:79-88 | the wait ends with the first READY message of the new run, for every stream, if and only if the flag is clear and the buffer empty |
| Notifications.SaysReadyIff | src/notification_handler.rs:247-265 | a message signals readiness exactly if it is the word READY, or begins with it and an equals sign |
| Notifications.ServiceStreams.LogLines | src/services/services.rs:531-584 | exactly the non-empty complete lines are written, in order, each with prefix and newline |
| Notifications.LogAll | src/notification_handler.rs:163-164 | for any sequence of chunks, and an unfinished line left from before, what is written and what remains are those of the whole stream |
| Notifications.StatusTextArrives | src/notification_handler.rs:247-251 | a status text arrives whole if and only if it contains no equals sign |
| UnitParser.PushValues | src/units/unit_parsing/unit_parser.rs:326-331 | the values of a line get the next numbers in order and go to the end of their key |
| UnitParser.ParseSection | src/units/unit_parsing/unit_parser.rs:304-335 | under each key exactly its values in file order, each with its place among all values of the section |
| UnitParser.NumbersArePlaces | src/units/unit_parsing/unit_parser.rs:304-335 | each number from 0 to n-1 is used once over all keys, for the entry at that place |
| UnitParser.SettingRoundTrip | src/units/unit_parsing/unit_parser.rs:304-335 | a setting written to a line, with white space and further equals signs around, is read again: its key in upper case with each of its comma-separated values |
| UnitParser.ParseFile | src/units/unit_parsing/unit_parser.rs:11-59 | Ok exactly with the parsed sections if no header occurs twice; the error names the first header that does |
| UnitParser.FileRoundTrip | src/units/unit_parsing/unit_parser.rs:11-59 | sections written to a file line by line are found in it again, each with its lines |
| SocketUnits.SortRestoresFileOrder | src/units/unit_parsing/socket_unit.rs:102-130 | merging the four Listen buckets and sorting by number gives back the order of the file |
| SocketUnits.OneArrangement | src/units/unit_parsing/socket_unit.rs:128-130 | numbers that differ have only one sorted arrangement, so any sorting algorithm gives it |
| SocketUnits.MergeListens | src/units/unit_parsing/socket_unit.rs:102-130 | the sockets in file order, whichever keys the file mixes |
| SocketUnits.CheckAddrs | src/units/unit_parsing/socket_unit.rs:132-180 | Ok exactly if each transport takes its address; the error names the first that it does not |
| SocketUnits.ExecErrorIff | src/units/unit_parsing/unit_parser.rs:137-244 | the exec settings are accepted exactly if none that takes one value has several, outputs are supported and the environment parses |
| SocketUnits.ExecErrorTells | src/units/unit_parsing/unit_parser.rs:137-244 | which of these errors is reported |
| SocketUnits.ValuesAreGiven | src/units/unit_parsing/unit_parser.rs:326-331 | the values of a key are those that the file gives it, first to last, wherever they stand |
| SocketUnits.ParseSocketSection | src/units/unit_parsing/socket_unit.rs:65-189 | accepted exactly if the exec settings are in order, no other setting is left, there is at most one descriptor name and every address suits its transport; the error is the first in this order; the sockets come in file order, the services as listed |
| SocketUnits.ParseSocketLines | src/units/unit_parsing/socket_unit.rs:65-189 | the same from the lines of the section |

## Left out

- System calls: fork, exec, dup, select, cgroups, users and groups, event descriptors, dbus, logging, configuration and file discovery. Where an operation depends on one, its success is an argument.
- The control interface, but for the command that loads all new units: it only dispatches to the operations modelled here.
- Time: timeouts are steps that may happen at any moment, back-off sleeps are no steps at all.
- The locks on statuses and unit states as such: each guarded transition is one step, and no claim is made that acquiring the locks cannot deadlock (src/units/unitset_manipulation/locking.rs:30-46 does not follow one global order). A table whose unit comes after itself, on which acquiring the locks panics, is excluded.
- The stored sockets of services and the loop that wakes services by their sockets; of the `activated` flags only the reset is modelled.
- Services.Service.Start: takes as given that the fork of a oneshot or notify service succeeds, because otherwise the original panics on the missing pid.
- RuntimeInfo.RuntimeInfo.DeactivateUnitRecursive: takes as given that the unit reaches no cycle of required_by, because nothing in the original checks it; on such a cycle its recursion does not end.
- RemovalCheck.CheckDeactivatedRecursive: takes as given that the recursion returns, stated as a rank that falls on every step it takes, for the same reason.
- Services.OpenAll: a socket that cannot be opened makes the operation fail with the error its callers are prepared for; the original panics there.
- Loading.LoadAllUnits: takes ids whose names differ, a unit for every declared dependency (`Closed`) and a unit with the target's name as given; without the latter two the original panics (src/units/loading/dependency_resolving.rs:158-176).
- SocketLinking.ApplySocketsToServices: a service and a socket that name each other both ways already get no ordering edges, as in the original; the edges are stated for newly linked pairs.
- StartupRuns.StartupCompletes: says nothing about the successors of a unit that failed, because the original does not queue them; `StartupTries` says when another predecessor does.
- SanityCheck.SanityCheckDependencies: which of the units that come after a cycle are in the last list depends on the order of the map, so it claims no more than that they wait for each other.
- InterleavedSafety.ActiveHasPredecessorsTried: the table is fixed; a merely ordered predecessor may still be starting, so it claims no more than that it has been tried.
- InterleavedConsistency.ConsistentUnlessClash: covers regular starts and stops; a restart, a socket activation and a shutdown change a started unit without a look at its dependents.
- The exit handler after its second critical section: its retry loop does not end when the stop succeeds (src/services/service_exit_handler.rs:148-165).
- Notifications.ServiceStreams.HandleNotificationMessage: a STATUS message without an equals sign makes the original panic and is excluded; so are chunks that cut a UTF-8 character in two.
- UnitParser.ParseSection: what the conversion to upper case does to a key is an argument, and a section has fewer than 2^32 values, since the counter has 32 bits.
- UnitParser.ParseFile: a file without any header, on which the original panics, is excluded.
- SocketUnits.ParseSocketSection: which texts are IPv4 or IPv6 socket addresses and which parse as an environment are arguments; an environment with a part that has no equals sign makes the original panic (src/units/unit_parsing/unit_parser.rs:86-90) and counts as one that does not parse; the values of the exec settings are not kept.
