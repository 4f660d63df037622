# Control plane of a sharded key-value cluster: model and proofs

The controller keeps, per cluster, a topology: which shard owns each of the 16384 slots, which
migration is pending, which node of a shard is master, and a version. API handlers and a
background checker read a copy, change it and write it back under a version check. This project
models that control plane and proves what holds in every run of it.

| file | what it models |
|---|---|
| `SlotRanges.dfy` | lists of slot ranges as sets of slots: add, remove, divide |
| `Topology.dfy` | the stored value, and the effect of every operation on it |
| `Failover.dfy` | which replica is promoted; one master per shard |
| `Partition.dfy` | the invariant of the topology, kept by every operation |
| `Migration.dfy` | how operations move ownership; creating a cluster |
| `Answers.dfy` | when each request succeeds, with what result, and why it is refused |
| `Moves.dfy` | slot moves on range lists of any form |
| `Targets.dfy` | whether a recorded index still names its shard |
| `Pending.dfy` | what begins and ends a pending migration, over any run |
| `Concurrency.dfy` | the versioned register shared by any number of actors |
| `Ownership.dfy` | the owner of a slot after any run |
| `Objects.dfy` | shards and clusters as objects updated in place |
| `Store.dfy` | the cluster store and the API handlers |
| `MigrationPass.dfy` | one pass over the pending migrations: what it completes and who owns what afterwards |
| `Checker.dfy` | failure counters, automatic failover, and the loop of the pass |
| `Raft.dfy` | log application, snapshots and restarts of the raft engine |
| `Text.dfy`, `SlotText.dfy` | slot ranges and topologies as text |
| `ClusterNodes.dfy`, `ClusterNodesLaws.dfy` | reading a topology from CLUSTER NODES |
| `Witnesses.dfy` | concrete inputs and runs for what the proofs found |

Pure code is modelled by functions. Objects that the Go code updates in place are classes, and
their methods are proved against the functions on values; the laws are then proved about those
functions, and over whole runs of the concurrent system. Replies of data nodes, freshly generated
node ids and reports of migrations are parameters of the operations; `Partition.Permitted` is all
that is assumed of them: requested ranges have passed `ParseSlotRange`, and generated node ids are
new. `Err(Crash)` marks the places where the Go code dereferences nil or slices out of range;
`Migration.CrashIff` says when that can happen.

What the proofs found about the code:

- The controller panics when the source of a pending migration reports no migrating slot, which
  CLUSTER INFO of a node without a migration does; on a valid topology nothing else panics
  (`Migration.CrashIff`, `Witnesses.ReportWithoutSlotCrashes`).
- `findShardIndexBySlot` tests overlap, not containment, and answers "multiple shards" also for two
  ranges of one shard (`Witnesses.OwnerNotFound`). On a partition with normalised lists it is
  nevertheless exact (`Partition.FindIsExact`), which is why the lists must stay in normal form.
- Removing a shard shifts indices but not the recorded migration targets. The partition survives;
  an index still names its shard exactly when only shards behind it were removed
  (`Targets.TargetNamesChosenIff`). Otherwise the slots are delivered to the next shard, or their
  success is refused as out of range (`Migration.RemovalRedirectsMigration`,
  `Migration.RemovalStrandsMigration`; runs from a new cluster in `Witnesses.MigrationRedirected`
  and `Witnesses.MigrationStranded`).
- A migration whose target index no longer exists ends the pass over the shards, instead of being
  skipped, whenever its source answers with the recorded slot. It then blocks every later
  migration, whatever their sources report (`MigrationPass.PassCompletesReported`,
  `Witnesses.PassBlocked`).
- More than 16384 shards give ill-formed ranges (`Migration.NewClusterIsValidIff`,
  `SlotRanges.SlicesValidIff`, `Witnesses.TooManyShards`).
- `SetCluster` with an equal version lets an earlier copy overwrite it, and nothing else does
  (`Concurrency.SetLosesUpdateIff`, `Concurrency.LostUpdateNeedsEqualVersions`,
  `Witnesses.SetLost`).
- A raft node that cannot save a received snapshot goes on, loads an older file or none, and takes
  the entries of the snapshot as applied. The map is then right exactly when those entries leave
  every key as the older file has it (`Raft.ReceivedIsRightIff`,
  `Witnesses.UnsavedSnapshotLosesKey`).
- Replaying an uncommitted tail of the write-ahead log is invisible exactly when every key that
  only the tail writes keeps its binding from the snapshot (`Raft.TruncatedTailInvisibleIff`,
  `Witnesses.TailVisible`). A batch that ends before the applied index is applied again and moves
  the index back (`Raft.RaftNode.ApplyEntries`, `Witnesses.OldBatchUndoesNewer`).
- A master listed twice in CLUSTER NODES duplicates its slaves (`ClusterNodesLaws.NodesKeptOnceIff`,
  `Witnesses.ReplicaListedTwice`).
- The topology text names every node but the first master a slave, so it recovers roles exactly
  when a shard has one master (`SlotText.NodesRecoveredIff`, `Witnesses.SecondMasterDemoted`). An
  address needs a colon to be read back (`SlotText.TextRoundTripIff`,
  `Witnesses.AddressWithoutColon`).

## Model

| member | source | states |
|---|---|---|
| SlotRanges.NewSlotRange | store/slot.go:59-71 | succeeds exactly for 0 <= start <= stop <= 16383, with the slots from start to stop; an out-of-range error implies start <= stop |
| SlotRanges.OverlapIffShared | store/slot.go:83-85 | two well-formed ranges overlap exactly when some slot lies in both |
| SlotRanges.CanMergeIffUnionIsBlock | store/slot.go:240-255 | two ranges can merge exactly when the merged range contains the slots of both and no others |
| SlotRanges.Canonical | store/slot.go:259-314 | normal lists with the same slots are the same list |
| SlotRanges.SortOfNormal | store/slot.go:285-287 | the unstable sort has only one possible result on a normal list |
| SlotRanges.MergeOfAnySort | store/slot.go:263-281 | whichever sorted permutation the sort yields, merging it gives the normal list of the union, also for unsorted, overlapping or adjacent sources |
| SlotRanges.AddIsUnion | store/slot.go:259-282 | adding is set union, returns normal form and stays in bounds |
| SlotRanges.AddSlotToSlotRanges | store/slot.go:259-282 | for every input the loop merges some sorted permutation of the list and the slot; for every well-formed input that is the normal list of the union |
| SlotRanges.CutWithoutOverlap | store/slot.go:288-290 | the early return equals what the loop would build |
| SlotRanges.RemoveIsDifference | store/slot.go:284-314 | removing is set difference, and keeps normal form and bounds |
| SlotRanges.RemoveSlotFromSlotRanges | store/slot.go:284-314 | for every input the loop cuts the slot out of some sorted permutation of the list; for every well-formed input that is the difference, and for normal ones the normal list |
| SlotRanges.HasOverlapAny | store/slot.go:166-173 | true exactly when some range of the list overlaps the slot |
| SlotRanges.AddCommutes | store/slot.go:259-282 | adds commute as lists, from any well-formed source |
| SlotRanges.RemoveUndoesAdd | store/slot.go:259-314 | removing undoes an add exactly when no added slot was owned before |
| SlotRanges.AddUndoesRemove | store/slot.go:259-314 | adding undoes a remove exactly when every removed slot was owned |
| SlotRanges.CalculateSlotRanges | store/slot.go:316-327 | for at most 16384 shards the loop gives valid, consecutive ranges from slot 0 to slot 16383 |
| SlotRanges.SliceBounds | store/slot.go:318-324 | slices are valid and consecutive, all but the last of size 16384/n, the last larger by less than n |
| SlotRanges.SlicesPartition | store/slot.go:316-327 | every slot lies in exactly one slice |
| SlotRanges.SlicesValidIff | store/slot.go:316-327 | all slices are valid exactly for n <= 16384; beyond, the first is 0 to -1 |
| Failover.NewMasterIsChoice | store/cluster_shard.go:151-207 | the promoted node is the first eligible one with the preferred id, otherwise the last eligible replica of maximal sequence; never the current master; none exactly when none is eligible |
| Failover.NewMasterByReplies | store/cluster_shard.go:151-207 | by the replies alone: the new master answered both questions as a slave with a sequence above 0, and unless it is the preferred node no other such replica has a larger sequence; there is none exactly when no replica answered so |
| Failover.ChoiceIsUnique | store/cluster_shard.go:151-207 | that description determines the node |
| Failover.PromotionFailsIff | store/cluster_shard.go:215-236 | promotion fails exactly for want of a replica, a matching master or an eligible candidate |
| Failover.PromoteIffPromotable | store/cluster_shard.go:215-236 | promotion succeeds exactly when there is a replica, the current master is the named one or none is named, and some node is eligible |
| Failover.PromoteKeepsOneMaster | store/cluster_shard.go:237-240 | one master stays one master, the old one is demoted, the choice promoted, every other node and all ids, addresses and order stay |
| Failover.PromotedIsNewMaster | store/cluster_shard.go:237-240 | the returned id is that of the new master, which is not the old one |
| Failover.AddNodeKeepsOneMaster | store/cluster_shard.go:102-118 | adding a node never makes a second master |
| Failover.RemoveNodeDropsNamed | store/cluster_shard.go:133-149 | with distinct ids exactly the named replica goes, and one master stays |
| Partition.FindIsExact | store/cluster.go:179-196 | on a partition the search answers i exactly when shard i owns every requested slot, and never that no shard owns it |
| Answers.FoundNoneIff | store/cluster.go:179-196 | on shards of any form the search answers that no shard has the slot exactly when no range of any shard touches it |
| Answers.FoundOne | store/cluster.go:179-196 | on shards of any form a shard is found when it has the one range that touches the slot |
| Partition.MoveOwners | store/cluster.go:209-215 | after a move the moved slots belong to the target and every other slot to its old owner, in normal lists |
| Partition.ApplyKeepsInv | server/api/shard.go:57-115 | every operation keeps: each slot has exactly one owner, lists are normal, a migrating shard owns what it migrates, one master per shard, distinct ids |
| Partition.MigrateKeepsInv | store/cluster.go:198-234 | the same for slot-only moves and for starting a migration |
| Partition.CompleteKeepsInv | controller/cluster.go:349-388 | the same for every reported outcome |
| Partition.RemoveShardKeepsInv | server/api/shard.go:101-109 | the same when a shard is spliced out of the list |
| Migration.StepMovesOwner | controller/cluster.go:354-388 | every operation moves the owner of every slot exactly as the owner map says: only slot-only moves and reported successes move slots |
| Migration.SuccessMovesExactly | controller/cluster.go:366-372 | exactly the recorded slots leave the source and join the shard at the recorded index; no other shard and no node changes |
| Migration.FailureMovesNothing | controller/cluster.go:357-388 | failure or an unknown state ends the migration and changes no ownership |
| Migration.CrashIff | controller/cluster.go:332-348 | on a valid topology the only crash is a report without a migrating slot for a migrating shard |
| Migration.StartThenSuccessIsMove | store/cluster.go:209-233 | starting a migration and reporting success gives exactly the topology of the slot-only move |
| Migration.StartThenFailureIsUndo | controller/cluster.go:357-365 | starting a migration and reporting failure or an unknown state leaves the topology as it was |
| Migration.AddThenRemoveNodeIsUndo | store/cluster_shard.go:102-149 | removing a replica with a new id undoes adding it |
| Migration.CreateThenRemoveShardIsUndo | server/api/shard.go:71-109 | a new shard can be removed again, which undoes its creation |
| Migration.TargetKeptIff | server/api/shard.go:109 | a target index names the same shard after a removal exactly when it lies before the removed one |
| Targets.TargetNamesChosenIff | server/api/shard.go:105-109 | after any list of accepted operations, an index names the shard that it named before, followed by its nodes from step to step, exactly when every removed index was above it |
| Targets.StepPlaces | server/api/shard.go:57-115 | what an accepted operation makes of a shard, found by the nodes it keeps, is at exactly one index, which only a removal changes |
| Migration.RemovalRedirectsMigration | server/api/shard.go:105-109 | a pending migration to an index at or beyond the removed one delivers its slots to the shard that stood behind the target |
| Migration.RemovalStrandsMigration | controller/cluster.go:349-352 | when the target was the last shard, a reported success is refused as out of range once any shard is removed |
| Migration.NewClusterKeepsAddresses | store/cluster.go:55-73 | the shards' addresses concatenate back to the input |
| Migration.NewClusterIsValidIff | store/cluster.go:42-78 | a new cluster satisfies the invariant exactly when it has at most 16384 shards |
| Answers.StartAnswer | store/cluster.go:198-234 | a migration starts exactly when the target exists, another shard owns all the slots, neither of the two migrates, and the source accepts the command; each refusal has exactly one reason |
| Answers.StartRecordsMigration | store/cluster.go:230-233 | the slots and the target are recorded in the owner, and nothing else changes |
| Answers.MoveAnswer | store/cluster.go:198-215 | a slot-only move succeeds exactly when the target exists and another shard owns all the slots, and which error each refusal gives |
| Answers.AddNodeAnswer | store/cluster_shard.go:102-118 | a shard of a valid topology accepts exactly replicas with a new address and appends them; which error each refusal gives |
| Answers.AddNodeToAnswer | store/cluster_shard.go:102-118 | for any shard: when a node is accepted, and that it is appended as requested |
| Answers.RemoveNodeAnswer | store/cluster_shard.go:133-149 | exactly replicas are removed; unknown ids and masters are refused with different errors |
| Answers.CreateShardAnswer | server/api/shard.go:57-84 | a shard is created from any nodes but none, has all of them in order with the first as master, no slots and no migration |
| Answers.RemoveShardAnswer | server/api/shard.go:97-109 | exactly shards that own no slot and migrate nothing are removed, and the others stay in order |
| Answers.NewClusterAnswer | store/cluster.go:42-78 | a cluster is created exactly for a positive number of nodes that the shard size divides; every shard has its block of nodes and its slice of the slots, at version 1 |
| Answers.FailoverAnswer | store/cluster_shard.go:215-236 | a failover succeeds exactly for a promotable shard, and which error each refusal gives |
| Pending.EveryStepKeepsMigrations | store/cluster.go:198-234 | an accepted operation leaves the migration of every shard as it is, unless it completes it or moves slots out of the shard at once, which end it, or starts one where there was none |
| Pending.EveryRunKeepsMigrations | store/store.go:155-206 | in every interleaving the same holds for every operation of every accepted update, so no pending migration is replaced by another |
| Concurrency.VersionsNeverDecrease | store/store.go:176-227 | in every interleaving, sets included, stored versions never decrease, and every copy is its base after its edits |
| Concurrency.AnswersAreSteps | store/store.go:181-226 | the register refuses exactly older versions and leaves the value; an accepted set stores the value itself, an accepted update the copy one version on |
| Concurrency.VersionsIncrease | store/store.go:176-206 | stored versions strictly increase when sets carry new versions |
| Concurrency.AcceptedIffBaseIsStored | store/store.go:181-189 | in every interleaving an update is accepted exactly when the stored value is the one the copy was computed from |
| Concurrency.SetLosesUpdateIff | store/store.go:209-227 | after any run, sets included, a set is overwritten by a copy of the value it replaces exactly when their versions are equal and the values differ |
| Concurrency.LostUpdateNeedsEqualVersions | store/store.go:176-227 | after any run, sets included, a copy whose base is no longer stored is accepted exactly when its base has the stored version, and then the last two stored values have equal versions |
| Concurrency.EveryRunIsSerial | store/store.go:155-206 | every interleaving equals running the accepted updates one after the other |
| Concurrency.EveryRunIsValid | store/store.go:155-227 | in every interleaving in which sets carry valid topologies every stored value and every copy satisfies the invariant |
| Concurrency.EverySlotHasOneOwner | store/cluster.go:42-78 | from a new cluster, after any run in which sets carry valid topologies, each slot is owned by exactly one shard |
| Concurrency.AcceptedFailoverDemotesFailedMaster | controller/cluster.go:144-156 | an accepted automatic failover demotes exactly the node whose probe failed, which is the master in the value being replaced |
| Ownership.EveryRunMovesOwners | store/cluster.go:198-234 | after any run the stored owner of a slot is what the accepted updates, in order, make of it |
| Ownership.UnmovedSlotStays | controller/cluster.go:323-390 | a slot keeps its owner through every run without an accepted move of it or removal of a shard |
| Objects.Shard.Clone | store/cluster_shard.go:77-86 | a new object with the same contents |
| Objects.Shard.IsServicing | store/cluster_shard.go:93-100 | true exactly when the shard owns a range other than -1 to -1, or migrates |
| Objects.Shard.AddNode | store/cluster_shard.go:102-118 | new contents and errors as the operation on values |
| Objects.RemovesNamed | store/cluster_shard.go:133-149 | with distinct ids the loop over the stale slice header takes out exactly the named replica, and refuses a master or an unknown id |
| Objects.Shard.RemoveNode | store/cluster_shard.go:133-149 | for every list of nodes the nodes left, the error and the out-of-range slice are those of the loop over the compacted array; with distinct ids those of the operation on values |
| Objects.Shard.GetNewMasterNodeIndex | store/cluster_shard.go:151-207 | the scan finds the choice described in Failover |
| Objects.Shard.PromoteNewMaster | store/cluster_shard.go:215-241 | roles and returned id as the operation on values; errors change nothing |
| Objects.Cluster.New | store/cluster.go:42-78 | the nested loops build the initial topology, without division by zero or index out of range |
| Objects.Cluster.Clone | store/cluster.go:80-90 | a new object with new shards and the same contents |
| Objects.Cluster.FindShardIndexBySlot | store/cluster.go:179-196 | the nested loops with early exit give the same answer as counting overlapping ranges |
| Objects.Cluster.MigrateSlot | store/cluster.go:198-234 | result, errors and a started migration are those of the operation on values, and errors change nothing; a slot-only move gives the lists of the remove and the add for some outcome of their sorts, which on normal lists are those of the operation on values |
| Moves.MovedIsMove | store/cluster.go:209-215 | on normal lists a slot-only move has one result, whatever the sorts do |
| Moves.MovedOwns | store/cluster.go:209-215 | on well-formed lists, whatever the sorts do, exactly the slots leave the source and join the target |
| Objects.Cluster.AddNode | store/cluster.go:120-125 | new contents and errors as the operation on values |
| Objects.Cluster.RemoveNode | store/cluster.go:127-132 | index error, or the removal in that shard and nothing else; with distinct ids the operation on values |
| Objects.Cluster.PromoteNewMaster | store/cluster.go:134-147 | the same, with the id of the promoted node |
| Objects.Cluster.CreateShard | server/api/shard.go:67-84 | an appended shard without slots whose first node is master |
| Objects.Cluster.RemoveShard | server/api/shard.go:101-109 | only an idle shard is spliced out |
| Store.ClusterStore.GetCluster | store/store.go:155-173 | a fresh object with the stored contents, or not found |
| Store.ClusterStore.UpdateCluster | store/store.go:176-206 | rejected when the stored version is newer; otherwise stores the value one version on and bumps the caller's object |
| Store.ClusterStore.SetCluster | store/store.go:209-227 | the same check, without a bump |
| Store.ClusterStore.CreateCluster | store/store.go:229-251 | refuses an existing name and keeps its value |
| Store.ValidIsRegular | server/api/cluster.go:129-162 | on a valid topology every permitted request meets what the objects need |
| Store.HandledIff | server/api/shard.go:117-147 | a request is granted exactly when the cluster exists, a preferred id is empty or 40 characters long, and the operation succeeds; then the version grows by one |
| Store.Handle | server/api/cluster.go:129-162 | a request stores the operation's result one version on, or leaves the store as it is |
| Store.HandlerIsRun | server/api/cluster.go:129-162 | a request is a get, an edit and an update of the concurrent system |
| Checker.NextEvent | controller/cluster.go:125-133 | how one failure or reset changes the number of failures since the last reset |
| Checker.CountFromStart | controller/cluster.go:125-164 | for every trace without a reset the count is the number of failures |
| Checker.CountSinceReset | controller/cluster.go:125-170 | for every trace with a reset the count is the number of failures after the last one |
| Checker.ClusterChecker.constructor | controller/cluster.go:64-105 | no counters; a maximum below 1 becomes 5 |
| Checker.ClusterChecker.ResetFailureCount | controller/cluster.go:166-170 | records a reset; counters stay the failures since the last reset |
| Checker.ClusterChecker.IncreaseFailureCount | controller/cluster.go:125-164 | returns the failures since the last reset, this one included, and tries the failover exactly at multiples of the maximum |
| Checker.ClusterChecker.HandleProbe | controller/cluster.go:223-263 | restoring nodes keep their counter, answers reset it, failures count |
| Checker.ProbeStepCount | controller/cluster.go:223-263 | what one probe does to the counter of every node: an answer or becoming master clears it, a failure adds one, a restoring backup leaves it |
| Checker.CountByProbes | controller/cluster.go:125-170 | over every trace of probes the counter of a node is the number of its failed probes since the last one that it answered or that made it a master |
| Checker.EveryProbeChange | controller/cluster.go:125-170 | over every trace of probes the topology stays valid, and a probe changes it exactly when it fails, its node counts as master, its failed probes since it was last cleared reach a multiple of the maximum and the shard can promote a replica of that node; then the version grows by one, exactly the failing master is demoted, and the counter of the new master is 0 |
| Checker.RunPass | controller/cluster.go:328-389 | the loop with its returns and continues ends in an outcome of the pass for some outcome of the sorts; on a tidy topology in that of the pass on values |
| Checker.ClusterChecker.TryUpdateMigrationStatus | controller/cluster.go:323-390 | the stored values, the copy and the cached cluster are those of an outcome of the pass; on a tidy topology those of the pass on values |
| MigrationPass.PassToIsPass | controller/cluster.go:328-389 | on a tidy topology a pass has one outcome, whatever the sorts do |
| MigrationPass.CompleteDecides | controller/cluster.go:332-356 | a step completes exactly when the report matches the recorded slots, the target exists and the state is an outcome; it ends the pass exactly for a missing master or a report without slots, where the process panics, or a matching report and a missing target, where the loop returns; otherwise it leaves the migration pending |
| MigrationPass.PassCompletesReported | controller/cluster.go:328-388 | after a pass over an up-to-date copy a shard still migrates exactly if it did before and either its source reports no outcome or an earlier migration ended the pass |
| MigrationPass.PassMovesOwners | controller/cluster.go:328-388 | after a pass over an up-to-date valid copy the owner of a slot is the recorded target if the owner reached a reported success for that slot, and otherwise the old owner |
| MigrationPass.StalePassStoresNothing | controller/cluster.go:360-363 | a pass over a stale copy stores nothing and leaves the cached cluster |
| MigrationPass.PassIsRun | controller/cluster.go:323-390 | a pass is a run of edits and updates of the concurrent system, so all laws of runs hold for it |
| MigrationPass.ValidIsTidy | controller/cluster.go:323-390 | every valid topology is tidy: normal lists and well-formed recorded migrations |
| Raft.LastWriterWins | store/engine/raft/store.go:191-232 | the last entry that writes a key decides it; unwritten keys stay |
| Raft.FailsIff | store/engine/raft/store.go:191-211 | a start fails exactly for undecodable data and unknown operations, never for empty entries, configuration changes or the three operations |
| Raft.RestartIsInvisible | store/engine/raft/store.go:165-172 | replaying a log and applying it again with later entries ends where one pass ends |
| Raft.TruncatedTailInvisibleIff | store/engine/raft/store.go:151-172 | replaying entries that are later replaced is invisible exactly when keys only they write keep their snapshot binding |
| Raft.NodeStepOk | store/engine/raft/node.go:262-332 | deliveries, own and received snapshots saved in full, in part or not at all, loaded or not, failing compaction and restarts keep the node's invariant |
| Raft.EveryRunIsRight | store/engine/raft/node.go:252-305 | in every run snapshot <= applied index, compaction <= snapshot unless a received snapshot was not loaded, and once redelivery has caught up every key that is not lost has the binding of one pass over the applied entries |
| Raft.EveryRunConverges | store/engine/raft/node.go:252-305 | in every run in which received snapshots are loaded from files at least as new, with torn snapshots, failing loads and restarts anywhere, the map is one pass over the applied entries once redelivery has caught up |
| Raft.ReceivedIsRightIff | store/engine/raft/node.go:267-279 | when a received snapshot is loaded the map is right at its index exactly when the loaded file is at least as new or the entries behind it leave every key as it is there, but for keys still to be delivered again |
| Raft.CompactKeepsRecent | store/engine/raft/node.go:323-326 | compaction leaves exactly the last `keep` applied entries, or compacts to 1 |
| Raft.EveryRunKeepsRecent | store/engine/raft/node.go:307-332 | in every run, between receptions and restarts, own snapshots compact away none of the last `keep` applied entries but entry 1 |
| Raft.RestartResumes | store/engine/raft/store.go:139-173 | a restart continues behind the newest saved snapshot, own or received |
| Raft.SavedIsLoaded | store/engine/raft/node.go:267-279 | a saved received snapshot that is the newest is what the node then holds |
| Raft.SnapshotAdvances | store/engine/raft/node.go:307-332 | a snapshot advances the snapshot index exactly when it is due and taken in full, and changes neither the map nor, unless saved, the disk |
| Raft.UnsavedLoads | store/engine/raft/store.go:100-118 | without a file an unsaved received snapshot leaves the map, otherwise the file replaces it |
| Raft.FailedLoadMisses | store/engine/raft/node.go:433-447 | a failing load leaves map and indices behind the storage |
| Raft.GapStopsRestart | store/engine/raft/store.go:139-160 | entries that continue the write-ahead log keep it readable; entries behind an unsaved snapshot beyond its end leave a gap that stops every restart from the older record |
| Raft.DataStore.ApplyDataEntry | store/engine/raft/store.go:191-211 | the new map, and an error exactly for undecodable data or unknown operations |
| Raft.DataStore.ReplayWAL | store/engine/raft/store.go:165-173 | fails exactly when some entry fails; otherwise the map is the log applied to the snapshot |
| Raft.RaftNode.ApplyEntries | store/engine/raft/node.go:453-469 | with wrapping 64-bit arithmetic exactly the new entries of a batch are applied, once and in order; gaps are ignored; the index moves back exactly for a batch that ends before it, which is applied again |
| Raft.RaftNode.ApplySnapshot | store/engine/raft/node.go:433-451 | only a snapshot beyond the applied index is loaded, from the newest file; a failing load changes nothing; in memory this is the receiving step of the state machine, saved or not |
| Raft.RaftNode.TriggerSnapshotIfNeed | store/engine/raft/node.go:307-332 | the threshold test never wraps; compaction lies between 1 and the new snapshot; for every point of failure the error, memory and disk are those of the snapshot step of the state machine |
| Raft.DeliveryIsStep | store/engine/raft/node.go:453-469 | what a delivery applies is what the state machine over the log applies |
| Raft.ReplayIsStep | store/engine/raft/store.go:139-173 | what a start replays from the newest file and the log behind the newest record is the restart step of the state machine |
| Text.RangeRoundTripIff | store/slot.go:91-155 | writing and parsing a range gives it back exactly when it is valid |
| Text.AcceptedIff | store/slot.go:115-155 | a text is accepted exactly if it is one decimal number or two joined by a dash that denote a valid range, and for that range |
| Text.AcceptedIsValid | store/slot.go:115-155 | every accepted text gives a valid range |
| Text.AtoiIff | store/cluster.go:284-287 | numbers are read exactly if they fit 64 bits, with either sign |
| Text.MigratingRoundTripIff | store/slot.go:190-233 | saving and loading keeps whether and what a slot migrates exactly when a migrating range is valid |
| Text.LoadNumber | store/slot.go:199-226 | -1 is no migration, a number from 0 to 16383 one of the slot below it, any other number is refused |
| Text.LoadText | store/slot.go:199-226 | a text is loaded as a migration of exactly the range it denotes |
| Text.LoadedMigrationIsValid | store/slot.go:190-226 | every migration accepted from JSON has a valid range |
| SlotText.ToSlotsString | store/cluster_shard.go:252-289 | the builder writes one line per node, or nothing without a master |
| SlotText.ToSlotString | store/cluster.go:101-111 | the texts of the shards in order, or an error |
| SlotText.TextIffMasters | store/cluster.go:101-111 | there is a text exactly when every shard has a master |
| SlotText.TextRoundTripIff | store/cluster_shard.go:265-287 | splitting the text recovers one record per node, in order, with id, address, written role, master id and ranges, exactly when all ranges are valid, ids and addresses contain no blank and no newline, and every address contains a colon |
| SlotText.NodesRecoveredIff | store/cluster_shard.go:263-287 | for shards of masters and slaves the records name every node with its own id, address and role exactly when the shard has one master |
| ClusterNodes.ParseCluster | store/cluster.go:254-321 | the first bad line decides the error; otherwise the version is that of the last line, there is one shard per master line with the slaves that name it, in slot order with slotless shards last |
| ClusterNodesLaws.FieldsAnswer | store/cluster.go:266-305 | which lines are accepted, as what, and why the others are refused |
| ClusterNodesLaws.SlavesJoinTheirMaster | store/cluster.go:288-313 | the shards are those of the master lines and a shard's slaves are exactly those whose lines name its master |
| ClusterNodesLaws.NodesKeptOnceIff | store/cluster.go:300-313 | every node with a listed master is kept exactly once, and no other, exactly when no master with slaves is listed twice |
| ClusterNodesLaws.LineOrderIrrelevant | store/cluster.go:266-313 | the order of the lines does not change masters, nodes or ranges of the shards |
| ClusterNodesLaws.WellFormedTextParses | store/cluster.go:258-305 | text in the CLUSTER NODES serialization format parses to exactly the lines it serializes |
| Witnesses.MigrationRedirected | server/api/shard.go:105-109 | from a new cluster: slot 0 is sent to shard 2, that idle shard is removed, success is reported, and the slot ends in a shard nobody named |
| Witnesses.MigrationStranded | controller/cluster.go:349-352 | from a new cluster: slot 0 is sent to the last shard, an idle shard is removed, and the reported success is refused |
| Witnesses.ReportWithoutSlotCrashes | controller/cluster.go:341-341 | from a new cluster: slot 0 is sent to shard 2, its source reports no migrating slot, and the controller panics |
| Witnesses.OwnerNotFound | store/cluster.go:179-196 | the one shard that owns two adjacent ranges is not found for slots of both |
| Witnesses.TooManyShards | store/slot.go:316-327 | a cluster of 16385 shards starts with the range 0 to -1 and is not valid |
| Witnesses.PassBlocked | controller/cluster.go:349-352 | after that, shard 1 migrates and reports success: a pass leaves it migrating when shard 0 answers, and completes it when shard 0 does not |
| Witnesses.SetLost | controller/cluster.go:267-277 | a set of version 2, prepared on version 1, meets the stored version 2, is accepted, and is overwritten by a copy read before it |
| Witnesses.TailVisible | store/engine/raft/store.go:165-172 | a set that was logged and never committed stays visible after a restart |
| Witnesses.UnsavedSnapshotLosesKey | store/engine/raft/node.go:267-279 | a new node that cannot save a received snapshot takes its entry as applied with an empty map |
| Witnesses.SecondMasterDemoted | store/cluster_shard.go:265-287 | of two masters in a shard the text calls the second one a slave |
| Witnesses.TextOfShard | store/cluster_shard.go:252-289 | the text of a shard with two nodes and two ranges, word by word |
| Witnesses.AddressWithoutColon | store/cluster_shard.go:265-287 | the text of a node without a colon in its address does not read back |
| Witnesses.RepeatedIdCrashes | store/cluster_shard.go:133-149 | removing an id that the last two nodes share slices out of range |
| Witnesses.ReplicaListedTwice | store/cluster.go:300-313 | a master on two lines puts its replica into two shards |
| Witnesses.OldBatchUndoesNewer | store/engine/raft/node.go:453-469 | entry 1 delivered again after entry 2 undoes it and moves the index back to 1 |

## Left out

- The state that Go shares between objects: appending and sorting in the backing array of a slice argument, and node objects shared by a cluster and its clone; nodes and range lists are values here.
- Failing engine writes: the engine is an atomic map and a write always succeeds; the raft engine's own write returns before the entry is applied, so the laws of the store are not claimed over it.
- Removing a cluster and creating it again, which restarts versions; creating, listing and removing namespaces, and listing clusters.
- `Import`, and the refresh through `SetCluster` from a node with a higher epoch: the topology is not checked for coverage there, so the partition is proved for runs whose sets carry valid topologies.
- Sending the topology to data nodes, timers, HTTP, the role an API request gets by default, and leader election.
- JSON as a whole; only migrating slots have a codec of their own. A stored migrating slot that is not migrating is kept as it is here, while the JSON form drops it.
- Configuration changes, peers and transport of the raft engine, its consensus, and the files of the write-ahead log; persisted entries belong to the committed log, except in `Raft.TruncatedTailInvisibleIff`.
- 64-bit overflow of failure counters and versions.
