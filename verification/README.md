# Karpenter, modelled and verified in Dafny

Karpenter keeps a picture of a Kubernetes cluster in memory and decides from it which nodes to add, replace and remove.
This project models the parts of it that are state machines, algebras or searches, and proves what they promise for all
inputs and all runs. `dafny verify dfyconfig.toml` checks everything.

What is modelled, and where:

- **Cluster state.** `StateNodes`, `ClusterView` (every event as a function on a value), `ClusterIndexes`,
  `ClusterTotals`, `ClusterPods`, `ClusterRuns` (all events, all runs), `ClusterEffects` (what each event leaves behind),
  `ClusterHistory` (the latest objects), `ClusterMarks` (marks and claim sets), and `Cluster`, the object, whose methods
  perform those functions. `DisruptionCosts` and `VolumeUsage` are two records kept per machine.
- **Static pools and the disruption queue.** `NodePools` (claim sets and reservation counters), `Reservations` (their
  protocol as interleaved atomic steps, with outstanding slots as history), `QueueProtocol` (commands as interleaved
  atomic steps), `QueueRuns` (their runs), `Queue`, the object, which always shows a world that such a run reaches, and
  `StaticRounds` (a pass and the start of all its commands).
- **Requirements.** `Numerals`, `Requirement` (one label) and `Requirements` (maps, printing and reading).
- **Overlays.** `Overlays` (the fold and its conflict test) and `OverlayStore` (the object and its application).
- **Consolidation.** `MultiNode` (the search over prefixes), `SingleNode` (the order of candidates and who is reached),
  `Balanced` (scoring), `Budgets` (disruption budgets and the passes that use them), `MinValues`.
- **Repair.** `RebootHistory`.

Objects that the program updates in place are classes here, loops are loops, and each method is proved against a function on
values. The laws are proved about those functions, over runs of them. Input and output of the program are parameters:
whether a call to the API server succeeded, what a look at a replacement found, what a simulation answered, what time it is.

Some claims one might expect do not hold, and are stated with the exact condition under which they do:

- Dropping a pool's entry forgets reservations and pending claims, and then the limit can be passed
  (`Reservations.RemoveKeepsBooksIff`, `Reservations.ForgettingOvershoots`).
- A mark or an update that comes after its claim was cleaned up costs a static pool a slot
  (`Reservations.StepStaysExactIff`, `Reservations.LateStepLosesSlot`), and after a late mark removing the claim again does
  not give it back (`Reservations.LateMarkIsNotUndone`); the limit holds all the same.
- Unmarking a machine whose claim is merely terminating files the claim as active (`ClusterMarks.ClaimsAreFiled`,
  `ClusterMarks.TerminatingClaimBecomesActive`).
- A replaced claim forgets its pods' disruption costs (`DisruptionCosts.CostExactIff`).
- A pod recorded again with fewer volumes leaves the old ones counted (`VolumeUsages.AddKeepsTightIff`).
- A command can fail after all its deletes succeeded (`QueueRuns.FailsAfterDeletingIff`).
- Printing a requirement that mixes a bound with exclusions loses the exclusions (`RequirementMaps.RoundTripIff`),
  "less than the smallest integer" wraps around (`RequirementMaps.ReadMeaning`), and "greater than the largest integer" loses
  its minimum (`RequirementMaps.ReadKeepsMinimumIff`).
- Narrowing a requirement can make it compatible (`RequirementMaps.NarrowingRepairsIff`).
- A third overlay of one weight can hide a capacity conflict (`Overlays.ClashMissedIff`), and a price overlay drops an
  offering's overrides (`OverlayStore.OverridesSurviveIff`).
- A multi-node batch can have 101 candidates; the comment in the program says 100 (`MultiNode.BatchBoundIff`).
- Putting unseen pools first does not keep a pool from being passed over for ever (`SingleNode.StarvesIff`).
- Less disruption can undo an approval when nothing is left to measure it against (`Balanced.AntitoneInOwnDisruptionIff`).

Assumptions about the environment appear as preconditions of steps, never of the code itself: provider ids are unique and not
cleared, a claim's pool label and a pod's owner do not change, a pool's limit is fixed during a run, claim names are fresh, a
node's pod listing holds pods of that node, one disruption pass runs at a time and hands in disjoint commands, and only the queue marks machines for deletion.

## Model

| member | source | states |
|---|---|---|
| `NodePools.MarkMoves` | pkg/controllers/state/statenodepool.go:71-101 | marking puts a claim into the set that the mark names and out of the other two (so never in two), keeps every other claim and every counter, and touches no other pool |
| `NodePools.MarkCounts` | pkg/controllers/state/statenodepool.go:71-101 | a claim that is new to the pool makes it one larger, whatever the mark |
| `NodePools.CountIsSize` | pkg/controllers/state/statenodepool.go:182-187 | the three counts add up to the number of distinct claims of the pool |
| `NodePools.CleanupMeaning` | pkg/controllers/state/statenodepool.go:104-122 | cleaning a claim up drops the entry of its pool, reservations included, if and only if no other claim of it is active or deleting; otherwise it takes out that claim alone |
| `NodePools.GrantMeaning` | pkg/controllers/state/statenodepool.go:134-157 | as many of the wanted slots are granted as fit under the limit beside what the pool has and has promised |
| `NodePools.ReleaseMeaning` | pkg/controllers/state/statenodepool.go:160-178 | a release gives slots of a known pool back, down to none, and touches nothing else |
| `NodePools.NodePoolState.MarkNodeClaimActive` | pkg/controllers/state/statenodepool.go:71-79 | the object performs the marking function above |
| `NodePools.NodePoolState.MarkNodeClaimDeleting` | pkg/controllers/state/statenodepool.go:82-90 | same, for deleting |
| `NodePools.NodePoolState.MarkNodeClaimPendingDisruption` | pkg/controllers/state/statenodepool.go:93-101 | same, for pending disruption |
| `NodePools.NodePoolState.SetNodeClaimMapping` | pkg/controllers/state/statenodepool.go:59-68 | records the owner of a named claim, and does nothing for an empty pool or claim name |
| `NodePools.NodePoolState.EnsureNodePoolEntry` | pkg/controllers/state/statenodepool.go:206-217 | entries are made in both maps together and change no answer |
| `NodePools.NodePoolState.Cleanup` | pkg/controllers/state/statenodepool.go:104-122 | forgets the claim, and the whole entry with its reservations when no active and no deleting claim is left |
| `NodePools.NodePoolState.UpdateNodeClaim` | pkg/controllers/state/statenodepool.go:190-204 | owner and mark of an observed claim |
| `NodePools.NodePoolState.GetNodeCount` | pkg/controllers/state/statenodepool.go:125-130 | the three counts; together the size of the union of the sets |
| `NodePools.NodePoolState.ReserveNodeCount` | pkg/controllers/state/statenodepool.go:134-157 | the compare-and-swap loop grants at most what is asked for and, when it grants anything, stays within the limit |
| `NodePools.NodePoolState.ReleaseNodeCount` | pkg/controllers/state/statenodepool.go:160-178 | the counter goes down by the count but not below zero; an unknown pool is left alone |
| `Reservations.RemoveKeepsBooksIff` | pkg/controllers/state/statenodepool.go:104-122 | removing a claim keeps every claim counted and the counter exact if and only if dropping the entry forgets no reservation and no other claim |
| `Reservations.RelaunchKeepsBooksIff` | pkg/controllers/state/cluster.go:758-763 | the same condition, exactly, for the cleanup and re-adding of a claim on its first launch |
| `Reservations.ForeignCleanup` | pkg/controllers/state/statenodepool.go:104-122 | cleaning up a claim of another pool leaves this pool alone |
| `Reservations.StepKeepsBooks` | pkg/controllers/state/statenodepool.go:71-178 | every step of the reserve, create, release, mark, observe, relaunch and remove protocol whose cleanup forgets nothing keeps the books; a mark or an update may come for any claim at any time |
| `Reservations.StepStaysWithinLimit` | pkg/controllers/state/statenodepool.go:134-178 | every step keeps claims plus unspent reservations within the limit |
| `Reservations.LimitHoldsOverRuns` | pkg/controllers/state/statenodepool.go:71-178 | in every interleaving of steps, marks and updates of claims already gone included, claims plus unspent reservations never exceed the fixed limit, every claim stays counted and the counter stays what is outstanding |
| `Reservations.StepStaysExactIff` | pkg/controllers/state/statenodepool.go:71-122 | a step leaves the pool holding and owning exactly the claims that exist if and only if it does not mark or update a claim that the pool does not own |
| `Reservations.ExactOverRuns` | pkg/controllers/state/statenodepool.go:71-178 | over every run without such a late mark or update the pool holds and owns exactly the claims that exist |
| `Reservations.LateStepCostsSlot` | pkg/controllers/disruption/queue.go:326-340 | a late mark or update leaves one slot less to grant, though no claim came into existence |
| `Reservations.LateStepLosesSlot` | pkg/controllers/static/deprovisioning/controller.go:113-127 | in any pool, a claim removed and then marked or updated leaves one slot less than the removal freed |
| `Reservations.LateMarkIsNotUndone` | pkg/controllers/static/deprovisioning/controller.go:113-127 | after a late mark, removing the claim once more does not give the slot back |
| `Reservations.LateStepHappens` | pkg/controllers/static/deprovisioning/controller.go:113-127 | a concrete run, for every mark and both kinds of update, after which an empty pool of limit one grants nothing |
| `Reservations.ForgettingOvershoots` | pkg/controllers/state/statenodepool.go:115-118 | whenever a dropped entry, on a removal or on a first launch, forgot a slot, spent or not, or a claim, steps that are allowed take a pool of positive limit past it |
| `Reservations.OvershootHappens` | pkg/controllers/state/statenodepool.go:115-118 | a concrete pool in which that happens |
| `ClusterIndexes.ClaimUpdateKeepsIndexesIff` | pkg/controllers/state/cluster.go:381-404 | a claim update keeps the name indexes and the machine map inverse to each other if and only if the provider id was not cleared and is not another claim's |
| `ClusterIndexes.InstallKeepsIndexesIff` | pkg/controllers/state/cluster.go:414-440 | installing a rebuilt node keeps them inverse if and only if no other node has its provider id |
| `ClusterIndexes.NodeUpdateKeepsIndexes` | pkg/controllers/state/cluster.go:790-822 | a whole node update keeps them inverse, also when listing pods or volume limits fails half way |
| `ClusterIndexes.ClaimDeleteKeepsIndexes` | pkg/controllers/state/cluster.go:769-788 | deleting a claim keeps them inverse |
| `ClusterIndexes.NodeDeleteKeepsIndexes` | pkg/controllers/state/cluster.go:824-837 | deleting a node keeps them inverse |
| `ClusterIndexes.MarkKeepsIndexes` | pkg/controllers/state/cluster.go:348-379 | marking and unmarking keep them inverse |
| `ClusterIndexes.NamesAreUnique` | pkg/controllers/state/cluster.go:381-447 | no two machines hold the same node name or the same claim name |
| `ClusterIndexes.PopulateKeepsMachines` | pkg/controllers/state/cluster.go:928-945 | charging listed pods moves no machine, index or total |
| `ClusterTotals.SumCounts` | pkg/controllers/state/cluster.go:862-911 | the recomputed node count of a pool is positive exactly when some machine counts towards it |
| `StateNodes.CapacityMeaning` | pkg/controllers/state/statenode.go:467-483 | per resource: the quantity is the node's once initialized or without a claim, the claim's without a node, and before that the node's unless it is zero; and every machine is one node |
| `StateNodes.LabelsMeaning` | pkg/controllers/state/statenode.go:376-389 | labels are the node's once it is registered or has no claim, and the claim's before that |
| `StateNodes.MarkedMeaning` | pkg/controllers/state/statenode.go:545-556 | a machine counts as deleting when it is marked, when its claim is deleted or terminating, or when it has no claim and its node is deleted |
| `ClusterTotals.AdjustKeepsExact` | pkg/controllers/state/cluster.go:862-911 | subtracting what left and adding what came keeps every total equal to its recomputed sum, and its entry present exactly when one is due |
| `ClusterTotals.CountedHasTotal` | pkg/controllers/state/cluster.go:881-894 | a machine that counts has an entry to subtract from, so no update writes to a missing map |
| `ClusterTotals.ClaimUpdateKeepsTotals` | pkg/controllers/state/cluster.go:740-767 | totals stay exact over claim updates, including a changed provider id |
| `ClusterTotals.ClaimCleanupKeepsTotals` | pkg/controllers/state/cluster.go:769-788 | totals stay exact over claim deletes |
| `ClusterTotals.NodeUpdateKeepsTotals` | pkg/controllers/state/cluster.go:790-822 | totals stay exact over node updates, failed ones included |
| `ClusterTotals.NodeCleanupKeepsTotals` | pkg/controllers/state/cluster.go:824-837 | totals stay exact over node deletes |
| `ClusterTotals.MarkKeepsTotals` | pkg/controllers/state/cluster.go:348-379 | totals stay exact over marking and unmarking |
| `ClusterPods.NoDoubleCharge` | pkg/controllers/state/cluster.go:984-1000 | no pod is charged to two live machines |
| `ClusterPods.BindRestores` | pkg/controllers/state/cluster.go:984-1000 | rebinding a pod charged at its new node makes every charge agree with a binding again |
| `ClusterPods.PopulateKeepsBound` | pkg/controllers/state/cluster.go:928-945 | rebuilding a node's charges keeps every charge bound where it is made, whichever pod it stops at |
| `ClusterPods.NodeUpdateKeepsBound` | pkg/controllers/state/cluster.go:790-822 | so does a whole node update, failed ones included |
| `ClusterPods.PodUpdateKeepsBound` | pkg/controllers/state/cluster.go:949-966 | so does a pod update |
| `ClusterPods.CompletedPodIsNowhere` | pkg/controllers/state/cluster.go:968-982 | completing or deleting a pod takes its charge off every live machine and changes no other charge or binding |
| `ClusterPods.CompletePodKeepsBound` | pkg/controllers/state/cluster.go:968-982 | and keeps the remaining charges bound |
| `ClusterRuns.StepKeepsInvariant` | pkg/controllers/state/cluster.go:348-461 | every event keeps indexes, totals, charges and pool labels consistent |
| `ClusterRuns.RunKeepsInvariant` | pkg/controllers/state/cluster.go:348-461 | so does every sequence of events |
| `ClusterRuns.ReachableStatesAreConsistent` | pkg/controllers/state/cluster.go:862-911 | after every run from the empty state, indexes and machines are inverse, charges are bound, each pool's total of each resource is the sum over its unmarked machines, and a pool has a total exactly when it has such a machine |
| `ClusterEffects.PodUpdateAt` | pkg/controllers/state/cluster.go:947-966 | an unfinished pod is charged to the machine of its node with its requests, to the daemon table if and only if it is a daemon pod or was there, and to no other live machine; no other charge changes |
| `ClusterEffects.PodUpdateBinds` | pkg/controllers/state/cluster.go:947-966 | it is bound to that node; a pod that cannot be charged changes nothing |
| `ClusterEffects.PodCompleteAt` | pkg/controllers/state/cluster.go:968-982 | a completed pod is off every live machine, and nothing else is |
| `ClusterEffects.PopulateCharges` | pkg/controllers/state/cluster.go:928-945 | a listing is charged if and only if all its volumes are known, and then each pod's tables and binding are those of the last unfinished pod of its key |
| `ClusterEffects.NodeUpdateInstalls` | pkg/controllers/state/cluster.go:414-440 | a node update that takes effect leaves a machine with the node, the claim and mark it had, and exactly the pods of the listing |
| `ClusterEffects.NodeUpdateBinds` | pkg/controllers/state/cluster.go:928-945 | it binds exactly the unfinished pods that it lists |
| `ClusterEffects.NodeUpdateElsewhere` | pkg/controllers/state/cluster.go:790-837 | a machine that had the node loses it, or is gone; other live machines lose the listed pods and no others |
| `ClusterEffects.NodeUpdateFails` | pkg/controllers/state/cluster.go:414-440 | an update that is skipped or fails moves no object and no index |
| `ClusterEffects.ClaimUpdateInstalls` | pkg/controllers/state/cluster.go:736-767 | a claim update leaves the very claim on the machine of its provider id, without pod costs, and everything else as it was |
| `ClusterEffects.ClaimUpdateElsewhere` | pkg/controllers/state/cluster.go:758-788 | a machine that had the claim loses it, or is gone; every other machine stays as it is |
| `ClusterEffects.ClaimDeleteAt` | pkg/controllers/state/cluster.go:769-788 | so does deleting a claim |
| `ClusterEffects.NodeDeleteAt` | pkg/controllers/state/cluster.go:824-837 | deleting a node strips or drops its machine and leaves every other as it is |
| `ClusterEffects.MarkAllAt` | pkg/controllers/state/cluster.go:348-379 | marking changes the marks of the tracked machines among the ids and nothing else of any machine |
| `ClusterHistory.StepTracks` | pkg/controllers/state/cluster.go:381-461 | every event keeps the machines those of the latest objects seen |
| `ClusterHistory.MachinesAreTheLatest` | pkg/controllers/state/cluster.go:381-461 | after every run there is a machine for exactly the provider ids of the latest claims and nodes, told from the events alone, and it holds them as last seen and nothing else |
| `ClusterMarks.StepStaysFiled` | pkg/controllers/state/cluster.go:348-447 | every event keeps the claims of tracked machines filed by their marks |
| `ClusterMarks.ClaimsAreFiled` | pkg/controllers/state/cluster.go:348-404 | over every run the claim of a tracked machine is active or deleting in its pool, and unless it is merely terminating it is deleting if and only if the machine is marked for deletion |
| `ClusterMarks.TerminatingClaimBecomesActive` | pkg/controllers/state/cluster.go:348-362 | a run after which a merely terminating claim is filed as active though its machine counts as deleting |
| `ClusterRuns.ClusterMarksComeInTime` | pkg/controllers/state/cluster.go:357-375 | the marks that cluster state itself makes are never late: they keep the books of every static pool exact |
| `Clusters.AddAmounts` | pkg/controllers/state/cluster.go:862-911 | the loop over resources adds or subtracts every quantity once |
| `Clusters.IsAllZero` | pkg/controllers/state/cluster.go:898-910 | the garbage-collection test |
| `Clusters.Cluster.UpdateNodePoolResources` | pkg/controllers/state/cluster.go:862-911 | the object adjusts its totals as the specification does, never writing to a missing total |
| `Clusters.Cluster.MarkForDeletion` | pkg/controllers/state/cluster.go:365-379 | marks exactly the tracked machines among the ids and keeps the cluster consistent |
| `Clusters.Cluster.UnmarkForDeletion` | pkg/controllers/state/cluster.go:348-362 | takes the marks back; a claim that is being deleted stays in the deleting set |
| `Clusters.Cluster.UpdateNodeClaim` | pkg/controllers/state/cluster.go:381-404 | performs the specified update and keeps the cluster consistent |
| `Clusters.Cluster.DeleteNodeClaim` | pkg/controllers/state/cluster.go:406-412 | afterwards no index entry and no machine has the claim |
| `Clusters.Cluster.CleanupNodeClaim` | pkg/controllers/state/cluster.go:769-788 | removes or strips the machine without touching a missing entry |
| `Clusters.Cluster.UpdateNode` | pkg/controllers/state/cluster.go:414-440 | performs the specified update and keeps the cluster consistent on success and failure |
| `Clusters.Cluster.PopulateResourceRequests` | pkg/controllers/state/cluster.go:928-945 | the loop over listed pods, stopping at the first failure |
| `Clusters.Cluster.DeleteNode` | pkg/controllers/state/cluster.go:442-447 | afterwards no index entry and no machine has the node |
| `Clusters.Cluster.CleanupNode` | pkg/controllers/state/cluster.go:824-837 | removes or strips the machine without touching a missing entry |
| `Clusters.Cluster.Bind` | pkg/controllers/state/cluster.go:984-1000 | discharges the old machine and records the new binding |
| `Clusters.Cluster.UpdatePod` | pkg/controllers/state/cluster.go:449-461 | performs the update whose effect is stated above, and keeps the cluster consistent |
| `Clusters.Cluster.CompletePod` | pkg/controllers/state/cluster.go:968-982 | afterwards the pod is charged to no live machine |
| `Clusters.Cluster.DeletePod` | pkg/controllers/state/cluster.go:612-620 | the same, for a deleted pod |
| `DisruptionCosts.FollowsClusterState` | pkg/controllers/state/statenode.go:570-609 | the cost record changes as charging, discharging and replacing the claim of a cached machine change it |
| `DisruptionCosts.RebuildFollowsClusterState` | pkg/controllers/state/cluster.go:790-822 | and as rebuilding a node from a listing of its pods changes it |
| `DisruptionCosts.RunTracks` | pkg/controllers/state/cluster.go:740-767 | after any run the tracked pods are exactly the costly ones seen since the claim was last replaced, at their right cost |
| `DisruptionCosts.CostExactIff` | pkg/controllers/state/statenode.go:537-543 | the reported cost is never above the real one, and equal to it if and only if every costly pod was seen since the claim was last replaced |
| `DisruptionCosts.ClaimUpdateUndercounts` | pkg/controllers/state/cluster.go:744-758 | a concrete run after which a node with a costly pod reports the cost of an empty one |
| `DisruptionCosts.DisruptionCost` | pkg/controllers/state/statenode.go:537-543 | the loop returns the base cost plus the sum of the tracked costs |
| `VolumeUsages.RunCovers` | pkg/scheduling/volumeusage.go:208-245 | after any run the per-driver sets contain everything the pods mount |
| `VolumeUsages.AddKeepsTightIff` | pkg/scheduling/volumeusage.go:233-236 | recording a pod keeps the sets exact if and only if every volume the pod had before is still mounted by it or by another pod |
| `VolumeUsages.StaleVolumeCounts` | pkg/scheduling/volumeusage.go:208-236 | a volume a pod no longer mounts keeps another one out under a limit of one |
| `VolumeUsages.DeleteRestoresTight` | pkg/scheduling/volumeusage.go:238-245 | removing any pod makes the sets equal to what the pods mount, until the next pod is recorded |
| `VolumeUsages.PodsMeaning` | pkg/scheduling/volumeusage.go:233-245 | the pods on record after any run are those added and not removed since, with the volumes they were last added with |
| `VolumeUsages.DeleteFrees` | pkg/scheduling/volumeusage.go:238-245 | removing a pod forgets it alone, and leaves a volume counted if and only if another pod on record mounts it |
| `VolumeUsages.CountedIff` | pkg/scheduling/volumeusage.go:208-245 | over every run a volume is counted if and only if some step mounted it and no pod was removed since that step's pod was recorded anew or removed |
| `VolumeUsages.StepWithinIff` | pkg/scheduling/volumeusage.go:208-245 | a step keeps every driver within its limit if and only if its guard holds: for a pod, that the limit check passes |
| `VolumeUsages.RunStaysWithin` | pkg/scheduling/volumeusage.go:208-245 | over every run of guarded steps no driver is over its limit |
| `VolumeUsages.LimitsMeaning` | pkg/scheduling/volumeusage.go:217-231 | after any run a driver's limit is the last published one, or the last fallback if none was published |
| `VolumeUsages.PublishedLimitWins` | pkg/scheduling/volumeusage.go:217-231 | once a limit is published, no number of fallbacks changes it |
| `VolumeUsages.VolumeUsage.ExceedsLimits` | pkg/scheduling/volumeusage.go:208-215 | passes exactly when adding the volumes keeps every limit, and otherwise names a driver over its limit with its count |
| `VolumeUsages.VolumeUsage.AddLimit` | pkg/scheduling/volumeusage.go:217-220 | publishes a limit |
| `VolumeUsages.VolumeUsage.AddUnbounded` | pkg/scheduling/volumeusage.go:222-225 | publishes that there is none |
| `VolumeUsages.VolumeUsage.AddFallbackLimit` | pkg/scheduling/volumeusage.go:227-231 | sets a limit unless something was published |
| `VolumeUsages.VolumeUsage.Add` | pkg/scheduling/volumeusage.go:233-236 | records the pod and adds its volumes |
| `VolumeUsages.VolumeUsage.DeletePod` | pkg/scheduling/volumeusage.go:238-245 | forgets the pod and rebuilds the sets from the others |
| `VolumeUsages.Rebuild` | pkg/scheduling/volumeusage.go:238-245 | inserting pod after pod, in any order, gives the union of what they mount |
| `SetMaps.MergeSets` | pkg/scheduling/volumeusage.go:62-87 | the union of two volume maps, driver by driver |
| `QueueProtocol.StopsAtMeaning` | pkg/controllers/disruption/queue.go:196-223 | the wait stops at the first replacement that is gone before it was up |
| `QueueProtocol.WaitOrTerminate` | pkg/controllers/disruption/queue.go:186-267 | the loops ask for deletes if and only if every replacement was or is found up; success is all up, all deleted and no deadline passed; giving up is a passed deadline or a lost replacement; anything else is a retry |
| `QueueProtocol.JudgeMeaning` | pkg/controllers/disruption/queue.go:186-267 | the verdict that steps of the protocol use says the same |
| `QueueRuns.FailsAfterDeletingIff` | pkg/controllers/disruption/queue.go:186-267 | in every run, a command whose replacements were all up at a look and whose deletes all went through stays ended with all deletes requested; it is a failure, with its candidates unmarked, if and only if the deadline had passed by that look |
| `QueueRuns.LateCommandFails` | pkg/controllers/disruption/queue.go:186-195 | a run that closes a command as failed although its only candidate is deleted |
| `QueueRuns.Starts` | pkg/controllers/disruption/queue.go:364-450 | starting a command is a run of the protocol: checked, cordoned, launched, marked, queued |
| `QueueRuns.Completes` | pkg/controllers/disruption/queue.go:503-513 | completing one is a run of the protocol: unmarked unless it succeeded, then removed |
| `QueueRuns.CatchesUp` | pkg/controllers/disruption/queue.go:143-182 | any change of the tracked machines is a run of the protocol that keeps the mark of every machine that stays, and loses marks only on machines that left |
| `QueueProtocol.QueueStaysExact` | pkg/controllers/disruption/queue.go:364-513 | the queue holds exactly the candidates of the queued commands after every step |
| `QueueProtocol.StaysExclusive` | pkg/controllers/disruption/queue.go:364-450 | no machine is a candidate of two live commands, when each pass hands in disjoint ones |
| `QueueProtocol.DeletesKeepWaiting` | pkg/controllers/disruption/queue.go:186-267 | a delete is requested only for commands whose replacements were all observed initialized |
| `QueueProtocol.MarksStay` | pkg/controllers/disruption/queue.go:416-450 | a candidate that stays tracked stays marked for deletion while its command is queued, and until it leaves the queue if it succeeded |
| `QueueProtocol.SuccessesStayDeleted` | pkg/controllers/disruption/queue.go:154-182 | a command that ended as a success has all its replacements up and the delete of each of its candidates went through |
| `QueueProtocol.RemoveClears` | pkg/controllers/disruption/queue.go:503-513 | removing a command leaves no entry of it and touches no other |
| `QueueProtocol.RunKeepsInvariant` | pkg/controllers/disruption/queue.go:143-513 | all of this is kept over every run |
| `QueueProtocol.EveryRunIsSafe` | pkg/controllers/disruption/queue.go:143-513 | in every run from the start: deletes come after observed replacements, queued commands are disjoint, queued tracked candidates are marked, and succeeded commands have deleted all their candidates |
| `Queues.CountSlots` | pkg/controllers/disruption/queue.go:366-378 | the number of static slots of a command, per pool |
| `Queues.SlotsMeaning` | pkg/controllers/disruption/queue.go:366-378 | a command holds a slot of a pool for each of its static replacements there |
| `Queues.KeptMeaning` | pkg/controllers/disruption/queue.go:326-340 | each candidate is kept as often as its marking succeeded |
| `Queues.Queue.HasAny` | pkg/controllers/disruption/queue.go:479-490 | whether a queued command has any of the ids |
| `Queues.Queue.ReleaseReservations` | pkg/controllers/disruption/queue.go:366-378 | the deferred release gives back each of the command's static slots once |
| `Queues.KeptArePending` | pkg/controllers/disruption/queue.go:326-340 | every static candidate whose marking succeeded ends up pending disruption and in no other set of its pool |
| `Queues.OthersStayPut` | pkg/controllers/disruption/queue.go:326-340 | and no other claim changes its set |
| `Queues.Queue.MarkDisrupted` | pkg/controllers/disruption/queue.go:308-342 | keeps the candidates whose marking succeeded, makes exactly their static claims pending, reports failure exactly when one failed, and changes no reservation |
| `Queues.Queue.CreateOne` | pkg/controllers/provisioning/provisioner.go:194-209 | one claim is created or not, and its slot released once either way |
| `Queues.Queue.CreateNodeClaims` | pkg/controllers/provisioning/provisioner.go:190-211 | every static slot is released once, and it succeeds exactly when all claims were created |
| `Queues.Queue.StartCommand` | pkg/controllers/disruption/queue.go:364-450 | on every path each static slot of the command is released exactly once; each outcome comes about exactly under its condition; a command that does not start changes no machine and no queue entry but leaves its marked candidates pending; a started one is queued under exactly its kept candidates, which are marked for deletion and otherwise unchanged; the claims created are tracked |
| `Queues.Queue.IsSafe` | pkg/controllers/disruption/queue.go:143-513 | what holds over all runs holds of the object: entries lead to queued commands, these are disjoint, candidates tracked since their command started are marked, deletes waited for replacements, and succeeded commands have deleted all their candidates |
| `Queues.StartFollows` | pkg/controllers/disruption/queue.go:364-450 | what a start does to the object is what a run of the protocol does to the world it shows |
| `Queues.LookFollows` | pkg/controllers/disruption/queue.go:143-182 | so is what a reconcile does |
| `Queues.Queue.CatchUp` | pkg/controllers/state/cluster.go:381-447 | after other controllers changed the cluster without touching a mark, the object shows a reached world in which only machines no longer tracked have lost theirs |
| `Queues.Queue.Deliver` | pkg/controllers/state/cluster.go:381-461 | so every cluster event but marking keeps the object valid, and excuses a lost mark only of a machine that the event untracked |
| `Queues.EventsKeepMarks` | pkg/controllers/state/cluster.go:381-461 | no cluster event but marking changes the mark of a machine tracked before and after it, or brings a new machine in marked |
| `Queues.Queue.CompleteCommand` | pkg/controllers/disruption/queue.go:503-513 | takes all candidates out of the queue, and takes back their marks unless the command succeeded |
| `Queues.Queue.Reconcile` | pkg/controllers/disruption/queue.go:143-182 | asks for deletes exactly when all replacements are up, completes the command exactly when the outcome is final, and leaves everything alone for an unknown claim |
| `RequirementAlgebra.IntersectionExact` | pkg/scheduling/requirement.go:187-227 | the intersection admits exactly the strings that both admit |
| `RequirementAlgebra.HasIntersectionExact` | pkg/scheduling/requirement.go:232-266 | the fast test is true if and only if some string is admitted by both, also for two complements, where leading zeros outrun any finite exclusion |
| `RequirementAlgebra.EmptyIsDoesNotExist` | pkg/scheduling/requirement.go:303-314 | a normal requirement admits nothing exactly when its operator is DoesNotExist |
| `RequirementAlgebra.IntersectionNormal` | pkg/scheduling/requirement.go:187-227 | intersection keeps normal form |
| `RequirementAlgebra.IntersectionCommutes` | pkg/scheduling/requirement.go:187-227 | intersection commutes, down to representation |
| `RequirementAlgebra.IntersectionAssociates` | pkg/scheduling/requirement.go:187-227 | intersection associates, down to representation |
| `RequirementAlgebra.NormalFormIsUnique` | pkg/scheduling/requirement.go:187-227 | a normal requirement is determined by what it admits, its sign, bounds and minimum |
| `RequirementAlgebra.Prune` | pkg/scheduling/requirement.go:210-214 | the loop keeps exactly the values within the bounds |
| `RequirementAlgebra.Intersect` | pkg/scheduling/requirement.go:187-227 | the imperative form refines the function and admits what both admit |
| `RequirementAlgebra.FastHasIntersection` | pkg/scheduling/requirement.go:232-266 | the early-exit loops decide whether a common string exists |
| `Numerals.NumeralReads` | pkg/scheduling/requirement.go:400-416 | every spelling of a 64-bit number, with any number of leading zeros, reads back as it |
| `Numerals.ReadsIff` | pkg/scheduling/requirement.go:400-416 | a string reads as a number if and only if it is its digits after any number of zeros and a fitting sign |
| `Numerals.FreshNumeral` | pkg/scheduling/requirement.go:232-266 | no finite set of strings holds every spelling of a number |
| `RequirementMaps.AddIsConjunction` | pkg/scheduling/requirements.go:134-141 | adding a list is conjunction, label by label |
| `RequirementMaps.AddTakesLargestMinimum` | pkg/scheduling/requirements.go:134-141 | the minimum of a label is the largest that was asked for |
| `RequirementMaps.OrderDoesNotMatter` | pkg/scheduling/requirements.go:134-141 | the same requirements in any order give the same map |
| `RequirementMaps.ReadIsNormal` | pkg/scheduling/requirement.go:50-117 | the constructor yields normal form |
| `RequirementMaps.ReadMeaning` | pkg/scheduling/requirement.go:50-117 | a selector admits what its operator says for every string, if and only if it is not less-than the smallest integer, whose bound wraps around |
| `RequirementMaps.ReadKeepsMinimumIff` | pkg/scheduling/requirement.go:81-90 | a label gets the largest minimum its selectors ask for if and only if those greater than the largest integer, which lose theirs, ask for no more than the rest |
| `RequirementMaps.RoundTripIff` | pkg/scheduling/requirements.go:48-54 | printing a map and reading it back gives the same map if and only if no requirement mixes a bound with exclusions |
| `RequirementMaps.RereadWidensIff` | pkg/scheduling/requirement.go:128-184 | what is read back is never narrower, is wider exactly in that mixed case, and keeps the minimum |
| `RequirementMaps.CompatibleMeaning` | pkg/scheduling/requirements.go:182-198 | compatible means: undefined labels are allowed or tolerate absence, and shared labels have a common string or both tolerate absence |
| `RequirementMaps.AbsentMeaning` | pkg/scheduling/requirements.go:256-276 | a requirement tolerates absence if and only if it admits nothing, or is a complement that excludes something within its bounds |
| `RequirementMaps.AbsentIntersectionIff` | pkg/scheduling/requirement.go:187-227 | an intersection tolerates absence if and only if nothing is in it, or both sides are complements and one excludes a value within their joint bounds |
| `RequirementMaps.NarrowingRepairsIff` | pkg/scheduling/requirements.go:256-276 | narrowing a disagreeing requirement by a third makes it agree if and only if the other side tolerates absence and the third has nothing in common with it, or both are complements and one excludes a value within their joint bounds |
| `RequirementMaps.NarrowingCanRepair` | pkg/scheduling/requirements.go:262-270 | a concrete case of that |
| `RequirementMaps.AddInPlace` | pkg/scheduling/requirements.go:134-141 | the loop refines the fold |
| `RequirementMaps.ReadSelectors` | pkg/scheduling/requirements.go:48-54 | the loop refines reading and adding all selectors |
| `Overlays.PriceConflictExact` | pkg/controllers/nodeoverlay/store.go:271-290 | the remembered weight clashes if and only if an accepted overlay of equal weight prices the offering |
| `Overlays.CapacityConflictExact` | pkg/controllers/nodeoverlay/store.go:215-239 | the capacity test looks at the last accepted capacity overlay and no other |
| `Overlays.ConflictsExact` | pkg/controllers/nodeoverlay/controller.go:183-206 | the whole test, as a statement about the accepted overlays only |
| `Overlays.StoreKeepsFaith` | pkg/controllers/nodeoverlay/controller.go:208-224 | storing keeps the store equal to what the accepted overlays say |
| `Overlays.FoldPartitions` | pkg/controllers/nodeoverlay/controller.go:105-115 | every overlay is accepted or rejected once, in order |
| `Overlays.OverlayMeaning` | pkg/controllers/nodeoverlay/store.go:243-269 | an overlay without a weight weighs nothing, and a price goes before a price adjustment |
| `Overlays.FoldIsSound` | pkg/controllers/nodeoverlay/controller.go:105-115 | in descending order, accepted overlays pricing an offering have pairwise different weights, and each rejection names an accepted overlay of equal weight |
| `Overlays.StoredPriceIsHeaviest` | pkg/controllers/nodeoverlay/store.go:243-269 | a stored price is that of the one heaviest accepted overlay pricing the offering |
| `Overlays.StoredQuantityIsHeaviest` | pkg/controllers/nodeoverlay/store.go:181-213 | a stored quantity is that of an accepted overlay no accepted overlay sizing the resource outweighs |
| `Overlays.ClashMissedIff` | pkg/controllers/nodeoverlay/store.go:215-239 | the fold leaves a quantity ambiguous if and only if an accepted overlay sizes a place between two of one weight that clash there and shares nothing with the later one |
| `Overlays.OriginsAscend` | pkg/controllers/nodeoverlay/controller.go:105-115 | the accepted overlays stand in input order |
| `Overlays.NothingHiddenNothingMissed` | pkg/controllers/nodeoverlay/store.go:215-239 | if no overlay of the input stands so between two others, no clash is missed |
| `Overlays.ThirdOverlaySlipsThrough` | pkg/controllers/nodeoverlay/store.go:205-212 | three overlays of one weight, all accepted, that leave a quantity ambiguous |
| `OverlayStore.AddMissing` | pkg/controllers/nodeoverlay/store.go:202-208 | the loop keeps what is there and adds the rest |
| `OverlayStore.AddPrices` | pkg/controllers/nodeoverlay/store.go:258-268 | the loop keeps the first change per offering and records the new weight |
| `OverlayStore.InstanceTypeStore.UpdateInstanceTypeCapacity` | pkg/controllers/nodeoverlay/store.go:181-213 | the store after a capacity overlay |
| `OverlayStore.InstanceTypeStore.UpdateInstanceTypeOffering` | pkg/controllers/nodeoverlay/store.go:243-269 | the store after a price overlay |
| `OverlayStore.InstanceTypeStore.IsCapacityUpdateConflicting` | pkg/controllers/nodeoverlay/store.go:215-239 | the capacity test |
| `OverlayStore.InstanceTypeStore.IsOfferingUpdateConflicting` | pkg/controllers/nodeoverlay/store.go:271-290 | the price test |
| `OverlayStore.InstanceTypeStore.ValidateAndUpdate` | pkg/controllers/nodeoverlay/controller.go:163-181 | a rejected overlay leaves the store unchanged; it is accepted exactly when nothing conflicts anywhere |
| `OverlayStore.InstanceTypeStore.Reconcile` | pkg/controllers/nodeoverlay/controller.go:105-115 | the loop refines the fold |
| `OverlayStore.AppliedPriceIsHeaviest` | pkg/controllers/nodeoverlay/store.go:158-177 | an offering is handed out at the price the heaviest accepted overlay asks for, and untouched without one |
| `OverlayStore.AppliedQuantityIsHeaviest` | pkg/controllers/nodeoverlay/store.go:117-152 | a resource is handed out in the quantity of the heaviest accepted overlay, or as it was |
| `OverlayStore.OverridesSurviveIff` | pkg/controllers/nodeoverlay/store.go:158-177 | a price overlay changes nothing but the price if and only if the offering carries no overrides |
| `MultiNode.BitsIsLog` | pkg/controllers/disruption/multinodeconsolidation.go:113-187 | the bound used below is floor(log2(n)) + 1 |
| `MultiNode.Halves` | pkg/controllers/disruption/multinodeconsolidation.go:131-136 | each step leaves at most half of the range |
| `MultiNode.SearchFindsLargest` | pkg/controllers/disruption/multinodeconsolidation.go:113-187 | the search ends at the largest valid prefix, if its range holds it |
| `MultiNode.LargestValid` | pkg/controllers/disruption/multinodeconsolidation.go:113-187 | there is one when validity is steady and closed under shorter prefixes |
| `MultiNode.SearchIsLogarithmic` | pkg/controllers/disruption/multinodeconsolidation.go:131-178 | it takes at most one simulation per binary digit of its range |
| `MultiNode.FirstN` | pkg/controllers/disruption/multinodeconsolidation.go:113-187 | whatever simulations answer, the result is nothing or an approved prefix of at least two, after at most floor(log2(ceiling)) + 1 simulations; it is the largest valid prefix when validity is closed under shorter prefixes |
| `MultiNode.WithinBudget` | pkg/controllers/disruption/multinodeconsolidation.go:62-74 | takes of every pool exactly the first eligible candidates, in order, as many as its budget has room for |
| `MultiNode.TakesCount` | pkg/controllers/disruption/multinodeconsolidation.go:62-74 | that is all of them, or the whole budget |
| `MultiNode.LargestBatch` | pkg/controllers/disruption/multinodeconsolidation.go:76-121 | no batch is larger than 101 or than the number of candidates, and when every simulation is approved that is its size |
| `MultiNode.BatchBoundIff` | pkg/controllers/disruption/multinodeconsolidation.go:113-121 | every batch the search returns stays within 100 if and only if there are at most 100 candidates; with more, one of 101 is returned |
| `SingleNode.ShuffleCandidates` | pkg/controllers/disruption/singlenodeconsolidation.go:143-169 | unseen pools come first, every pool once; every candidate of every pool has exactly one place, round by round |
| `SingleNode.EveryCandidateOnce` | pkg/controllers/disruption/singlenodeconsolidation.go:159-166 | no candidate is left out and none is taken twice |
| `SingleNode.RoundsAreFair` | pkg/controllers/disruption/singlenodeconsolidation.go:159-166 | no pool gets another turn before every pool with candidates left had as many |
| `SingleNode.FirstRound` | pkg/controllers/disruption/singlenodeconsolidation.go:159-166 | the first turns go to one candidate of each pool, in pool order |
| `SingleNode.ComputeCommands` | pkg/controllers/disruption/singlenodeconsolidation.go:52-126 | a pass that is late remembers exactly the pools of which it saw no candidate; one that went over all candidates remembers none; one that ends in a command or a rejection leaves the memory alone, and returns the first command that is found and valid |
| `SingleNode.LatePassCuts` | pkg/controllers/disruption/singlenodeconsolidation.go:62-76 | in the first round of an interleaved order a late pass leaves unseen exactly the pools after the cut |
| `SingleNode.StarvesIff` | pkg/controllers/disruption/singlenodeconsolidation.go:61-75 | whatever the number of timed-out passes and where each is cut off, some pool can be passed over by all of them if and only if no two in a row look at as many candidates as there are pools |
| `SingleNode.PoolStarves` | pkg/controllers/disruption/singlenodeconsolidation.go:149-152 | such passes can skip any pool that the first did not reach |
| `Balanced.ApprovesIff` | pkg/controllers/disruption/balanced.go:109-122 | approval without divisions: savings are positive and at least half of what the disruption share justifies |
| `Balanced.SavingsMeaning` | pkg/controllers/disruption/types.go:415-446 | what the sources cost is what the command saves and what its launches cost, and a reboot saves nothing |
| `Balanced.ReplaceSaves` | pkg/controllers/disruption/types.go:415-446 | a replace saves the difference of the two prices and is scored on it |
| `Balanced.InPoolMeaning` | pkg/controllers/disruption/balanced.go:136-136 | a pool's group has exactly its candidates |
| `Balanced.MonotoneInSavings` | designs/scripts/balanced-consolidation-properties.py:69-99 | more savings never undo an approval |
| `Balanced.AntitoneInOwnDisruptionIff` | designs/scripts/balanced-consolidation-properties.py:101-124 | less disruption on the node never undoes an approval, if and only if the pool is left with some disruption to measure against |
| `Balanced.UniformPoolSize` | designs/scripts/balanced-consolidation-properties.py:220-244 | in a uniform pool the decision does not depend on its size |
| `Balanced.ReplaceHalves` | pkg/apis/v1/nodepool.go:168-172 | an approved command that replaces a Balanced node with at least its share of disruption halves its price |
| `Balanced.ChainIsLogarithmic` | designs/scripts/balanced-consolidation-properties.py:246-297 | a chain of n such commands divides the price by at least 2^n |
| `Balanced.PoolApprovesIff` | pkg/controllers/disruption/balanced.go:142-180 | a pool approves if and only if it is not Balanced or its weighted part of the savings is worth its disruption, without divisions |
| `Balanced.EvaluatePool` | pkg/controllers/disruption/balanced.go:142-180 | one pool's verdict, in those multiplied-out terms |
| `Balanced.EvaluateBalancedMove` | pkg/controllers/disruption/balanced.go:131-183 | a move is approved exactly when it has candidates and for every Balanced pool its weighted part of the savings is worth its disruption, without divisions |
| `Balanced.PruningIsSound` | pkg/controllers/disruption/balanced.go:288-300 | a pruned candidate alone would never be approved, for all non-negative replacement prices and all totals |
| `Balanced.PruningIff` | pkg/controllers/disruption/balanced.go:288-300 | a candidate is pruned if and only if its pool is Balanced, has a cost, and no command for it alone would be approved |
| `Balanced.GroupsAddUp` | pkg/controllers/disruption/balanced.go:131-183 | grouping candidates by pool loses no cost |
| `Balanced.SplitConservesSavings` | pkg/controllers/disruption/balanced.go:131-183 | the parts of a cross-pool move's savings add up to its savings |
| `Balanced.PartIsProportional` | pkg/controllers/disruption/balanced.go:157-167 | each pool's part is to the savings as the price of its own candidates is to the price of all |
| `Budgets.SmallestIsMinimum` | pkg/apis/v1/nodepool.go:368-381 | the allowance is below every applicable budget and is one of them, or unbounded |
| `Budgets.AllowsMeaning` | pkg/apis/v1/nodepool.go:386-408 | a budget allows its count, or its share of the pool rounded up, while active, and anything while not |
| `Budgets.ShareIsProper` | pkg/apis/v1/nodepool.go:395-407 | a share of at most 100% is at most the pool, and a positive share of a pool with nodes is at least one |
| `Budgets.AllowedIff` | pkg/apis/v1/nodepool.go:359-408 | so many disruptions are allowed if and only if no budget is broken and every applicable one admits them |
| `Budgets.RemainingIff` | pkg/controllers/disruption/helpers.go:417-438 | so many more may be disrupted if and only if the budgets admit them on top of the nodes already disrupting |
| `Budgets.GetAllowedDisruptions` | pkg/apis/v1/nodepool.go:359-408 | the loop computes the allowance; so many disruptions are allowed if and only if no budget is broken and every applicable one admits them |
| `Budgets.NodePoolStats` | pkg/controllers/disruption/helpers.go:368-413 | the loop counts every pool's own nodes that are initialized or rebooting and not terminating, and of these the marked, rebooting and, but for repair, not ready ones |
| `Budgets.MarkAllAdds` | pkg/controllers/disruption/helpers.go:368-413 | marking what was chosen leaves every size alone and adds at most one disrupting node per choice |
| `Budgets.PassRespectsBudgets` | pkg/controllers/disruption/helpers.go:417-438 | after marking a choice within what remains of the budgets, every pool's disrupting count is at most the larger of its allowance and what it was, with size and allowance unchanged |
| `Budgets.PassKeepsShare` | pkg/apis/v1/nodepool.go:395-407 | with one active percentage budget, a pool not over it has at most the rounded-up share of its nodes disrupting after the choice is marked |
| `Budgets.EmptinessPass` | pkg/controllers/disruption/emptiness.go:68-83 | chooses of every pool exactly its first empty candidates, up to what remains of its budget, so that marking them keeps every pool within its allowance or what it was |
| `Budgets.MultiNodePass` | pkg/controllers/disruption/multinodeconsolidation.go:49-109 | chooses exactly the batch that the search finds among what the budgets admit: nothing or between 2 and 101 candidates, with the same conclusion |
| `Budgets.DriftPool` | pkg/controllers/disruption/staticdrift.go:84-140 | stays within the pool's budget; stages the first candidates, one per granted slot; terminates candidates first when no slot is granted, or only holders of reserved capacity when that is full; and does nothing while the pool scales down |
| `Budgets.TerminateFirst` | pkg/controllers/disruption/staticdrift.go:147-165 | stages nothing, and takes exactly the first eligible candidates up to the number given, or none |
| `Budgets.StaticDriftPass` | pkg/controllers/disruption/staticdrift.go:60-143 | every pool gets that choice, the pass stays within every budget, with the same conclusion, and leaves one outstanding slot per staged replacement |
| `Budgets.RepairStatic` | pkg/controllers/disruption/repair.go:177-232 | a repair stays out of a pool that scales down, and takes a slot exactly when it stages a replacement, and then exactly one |
| `StaticRounds.StartAll` | pkg/controllers/disruption/queue.go:364-450 | starting the commands of a pass gives back exactly the slots they hold, however each start ends |
| `StaticRounds.DriftRound` | pkg/controllers/disruption/staticdrift.go:60-143 | after a drift pass and the start of each of its commands every pool's reservations are what they were |
| `StaticRounds.RepairRound` | pkg/controllers/disruption/repair.go:177-232 | the same for a repair |
| `RebootHistories.ExpiryIsInvisible` | pkg/controllers/disruption/repair_history.go:94-109 | expiry of a cache entry cannot be observed |
| `RebootHistories.RecordTracksIff` | pkg/controllers/disruption/repair_history.go:62-75 | recording keeps the two slots in agreement with the full log if and only if fewer than two reboots are recent |
| `RebootHistories.ResolveAgreesWithLog` | pkg/controllers/disruption/repair_history.go:81-92 | the two slots answer as the full log would |
| `RebootHistories.StepAgrees` | pkg/controllers/disruption/repair.go:267-308 | every step of the repair protocol keeps the agreement |
| `RebootHistories.RunKeepsInvariant` | pkg/controllers/disruption/repair.go:159-173 | so does every run |
| `RebootHistories.NeverThreeRebootsInWindow` | pkg/controllers/disruption/repair.go:78-92 | over every run any three committed reboots of a claim span at least the window of 24 hours |
| `RebootHistories.RecentReboots` | pkg/controllers/disruption/repair_history.go:94-109 | the compaction loop keeps exactly the recent times, in order |
| `RebootHistories.RebootHistory.RecordCommittedReboot` | pkg/controllers/disruption/repair_history.go:62-75 | the object records as specified |
| `RebootHistories.RebootHistory.Resolve` | pkg/controllers/disruption/repair_history.go:81-92 | the object answers as specified |
| `MinValues.SatisfiesMinValues` | pkg/cloudprovider/types.go:591-630 | for a non-empty list: succeeds exactly when every minimum is met, with the length of the shortest satisfying prefix, or else the labels that fall short; an empty list succeeds |
| `MinValues.AvailableMeaning` | pkg/cloudprovider/types.go:600-612 | a value counts if some instance type lists it for the label and the requirement allows it |
| `MinValues.ShortIff` | pkg/cloudprovider/types.go:613-624 | no label falls short exactly when every minimum is met |
| `MinValues.Truncate` | pkg/cloudprovider/types.go:634-646 | cuts the sorted list and reports an error, returning the whole list, exactly when the cut is not empty and breaks a minimum that must be kept |
| `MinValues.TruncateKeepsIff` | pkg/cloudprovider/types.go:634-646 | a non-empty prefix keeps the minimums exactly when it is at least that long |
| `MinValues.TruncationKeepsMinimums` | pkg/controllers/disruption/consolidation.go:333-339 | keeping the larger of a cap and that length keeps every minimum |

## Left out

- The scheduler, topology and scheduling simulation: simulation is an arbitrary function of the candidates and the time.
- Kubernetes calls, patches, retries, taints, watches and controller registration: only whether they succeeded.
- Events, metrics, logging and text rendering.
- Cron schedules, timers and the cache library: whether a budget is active, whether a deadline passed, and the time are inputs.
- Rounding of floating-point prices and scores: they are reals.
- Resource quantities beyond integers, and their formats.
- Label normalization and validation of custom resources: selectors are taken as validated.
- Machines as shared objects: a `StateNode` is a value in a map, so aliasing of an old and a new one is not captured.
- Host ports, resource limits of pods, nominations, synchronization with the API server, anti-affinity and daemonset caches of
  cluster state: no index, total or charge depends on them.
- The compare-and-swap loops run under their lock here, so a retry never happens; the loops are kept.
- Queues.Queue.MarkDisrupted: marks candidates one after another, not in parallel.
- Queues.Queue.CreateNodeClaims: creates claims one after another, not in parallel; in `QueueProtocol` commands do interleave.
- Overlays.FoldIsSound: the sort by weight is a precondition; the sort itself and its tie-break by name are not modelled.
- OverlayStore.AppliedPriceIsHeaviest: how a price change is computed from its text is an arbitrary function.
- Balanced.PruningIsSound: pool totals are arbitrary inputs; computing them from candidates and nodes is not modelled.
- SingleNode.StarvesIff: the pools that have candidates are the same in every pass, and passes that find a command, which leave the unseen list alone, are not steps.
- MinValues.TruncateKeepsIff: holds of the list in any order; the sort by price that comes before the cut is not modelled.
- MinValues.TruncationKeepsMinimums: sorting instance types by price and the best-effort policy are not modelled.
- DisruptionCosts.CostExactIff: the eviction cost of a pod is an input.
- VolumeUsages.RunStaysWithin: resolving a pod's volumes to drivers is not modelled.
- The order by which drift puts holders of reserved capacity first, and names of template pools.
- Batching, capacity buffers, dynamic resource allocation, generated copies, test providers and operator setup.
