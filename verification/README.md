# vyrm, verified

A Dafny model of the cores of vyrm and proofs about them; verify with `dafny verify dfyconfig.toml`.

1. **The vyrmKV engine.** `Batch`, `Versions`, `ActiveMemtable`, `Engine`, `EngineInvariant`, `Compaction`, `EngineRuns`,
   `Reads` and `Database` model the single-writer multi-version store over an explicit disk: a CURRENT record, a set of
   manifests, content-named segment files, WAL files keyed by their start sequence, and checkpoints. `Engine` gives the
   transitions as functions on values, and `EngineMeaning` what they mean, spelt out; the class `Database.Database` is the code with its fields and loops, each method
   proved equal to its transition. Over every run of writes, flushes, compactions, snapshot installs, checkpoints,
   collections and reopenings, with a failure at any named boundary, the store reads as the plain map of its accepted
   batches.
2. **The quorum simulator.** `Quorum` gives the transitions, `QuorumSafety` the invariant with a history of proposals
   behind it, `Simulator` the class, its loops and the termination of `deliver_ready`, `CommitIndex` when the leader's
   commit index falls, `Faults` what each fault does over every run, and `Replication` what the protocol sends and stores.
3. **The replicated state machine.** `RaftState` and `RaftMachine` model the application of the log: epoch fencing,
   request deduplication, one durable write per entry; `RaftEffects` says what is accepted, written and answered.
4. **The bi-temporal kernel and the runtime graph.** `ByteOrder` and `Keys` prove what the byte order of claim keys
   means; `Claims`, `Recall` and `RecallMeaning` prove as-of resolution and recall against a relational definition; `RuntimeModel`,
   `Graph` and `Traversal` cover snapshots, prospective views, differences and breadth-first traversal; `Overlap` and
   `Schema` the temporal sweep and what a schema registry guarantees over runs of commits, `History` what of that
   reaches the snapshots a reader sees, and `HistoryRuns` the runs in which it does not.
   `Acceptance` spells out, independently of the validator, which commits the store takes.
5. **Two compact cores.** `Digest` is incremental SHA-256 against FIPS 180-4, `HexDigest` its text form,
   `DigestConstants` and `DigestVector` its constants and a published digest, `Reasoning` the run chained by those digests and
   `ReasoningOrder` which event may follow which.

Conventions. Outside `Digest`, `HexDigest` and `Reasoning`, a SHA-256 digest is modelled by the content it digests, so
equal digests mean equal content. Sequence numbers, cursors and indexes are unbounded naturals; message identifiers,
delays and the simulated clock saturate at the largest 64-bit value as in the source, and timestamps of claims and
windows are bounded by it.

What a schema limits. The store checks cardinality and uniqueness on the latest version of every identity, and
`RunKeepsSchema` says that those always satisfy the schema. A snapshot at an instant shows something else: the last
version that starts at or before it, and what events write. `SnapshotKeepsSchema` says exactly when what a snapshot
states is the valid part of the tables, and so satisfies the schema; `SnapshotWithinIff` exactly when a limit holds in a
snapshot and `SnapshotUniqueIff` exactly when a unique property is unique in it.

Nine statements that the sources or their comments suggest are false of the code. Each is shown on a concrete input and
given its exact condition: the leader's commit index can fall (`LeaderCommitCanFall`, `LeaderCommitFallsIff`);
installing a snapshot at an equal sequence keeps unflushed writes (`InstallAtEqualSequenceDiffers`,
`InstallAtEqualSequence`); recall skips a claim that does not fit and goes on, although its comment says it stops
(`SkipsAndContinues`, `StopsAtOverflowIff`); superseding a closed claim can widen its window (`SupersedeCanWiden`,
`SupersedeNarrowsIff`); two open windows may hold together at the last representable instant without counting as an
overlap (`LastInstantEscapes`, `OverlapIsSharingIff`); a version replaced by one that starts later still counts in
earlier snapshots but no longer against a limit (`ReplacedVersionEscapes`, `SnapshotWithinIff`); the `emitted` relations
of events never count against a limit (`EmittedEscapes`, `SnapshotWithinIff`); a record replaced by one that starts later
still shows in earlier snapshots but is no longer compared for uniqueness (`ReplacedRecordEscapes`,
`SnapshotUniqueIff`); the records of events are never compared for uniqueness (`EventRecordsEscape`,
`SnapshotUniqueIff`).

## Model

| member | source | states |
|---|---|---|
| Batch.Encode | crates/vyrm-kv/src/batch.rs:63-97 | encoding succeeds exactly for valid batches within the payload limit and gives the wire format |
| Batch.Decode | crates/vyrm-kv/src/batch.rs:99-168 | the cursor loop computes the decoder's function, every refusal included |
| Batch.DecodeOfEncoding | crates/vyrm-kv/src/batch.rs:63-168 | every valid batch is recovered from its encoding |
| Batch.EncodingOfDecode | crates/vyrm-kv/src/batch.rs:63-168 | every byte string that decodes is the one encoding of its result |
| ActiveMemtable.Memtable.ApplyWriteBatch | crates/vyrm-kv/src/memtable.rs:84-124 | a batch is accepted exactly when it continues the sequence, and then adds one numbered version per operation |
| ActiveMemtable.Memtable.GetVersion | crates/vyrm-kv/src/memtable.rs:169-175 | the backwards search finds what the list lookup specifies |
| ActiveMemtable.RecoverFrom | crates/vyrm-kv/src/memtable.rs:25-31 | recovery rebuilds exactly the replay of the frames and refuses a file one of whose frames is refused |
| ActiveMemtable.FromVersions | crates/vyrm-kv/src/memtable.rs:40-73 | accepts exactly tables of non-empty, strictly ordered lists within the durable sequence |
| Versions.FindNewestMeaning | crates/vyrm-kv/src/memtable.rs:169-175 | the backwards search over an ordered list is the newest version at or below the snapshot |
| Versions.ApplyOperationsReads | crates/vyrm-kv/src/memtable.rs:84-124 | after a batch the new head reads the batch applied to the old map, and every older snapshot reads as before |
| Versions.KeptReads | crates/vyrm-kv/src/database.rs:641-665 | keeping only the answers of protected reads changes no protected read and none at or above the head |
| EngineInvariant.PublicationSucceeds | crates/vyrm-kv/src/manifest.rs:73-166 | publishing well-formed segments over the CURRENT one holds passes every manifest and compare-and-swap check |
| EngineInvariant.OpenOk | crates/vyrm-kv/src/database.rs:157-196 | opening the directory at any moment succeeds and shows exactly what was open before |
| EngineInvariant.WriteOk | crates/vyrm-kv/src/database.rs:212-220 | a write is accepted exactly when its batch is encodable, keeps the invariant and advances the head by its operations |
| EngineInvariant.FlushOk | crates/vyrm-kv/src/database.rs:265-319 | a flush with a failure at any boundary keeps the invariant and every visible version, and is refused only by the injected failure |
| Compaction.CompactOk | crates/vyrm-kv/src/database.rs:605-714 | compaction changes no read at a protected snapshot or at or above the head, whichever boundary fails |
| Compaction.CompactKeepsExactly | crates/vyrm-kv/src/database.rs:615-666 | of a key compaction leaves exactly the answers at the given snapshots up to the head and at the head, and nothing when those are all tombstones |
| Compaction.CompactKeepsOnlyAnswers | crates/vyrm-kv/src/database.rs:641-665 | every version left is the answer at a given snapshot or at the head |
| Compaction.CompactedLevel | crates/vyrm-kv/src/database.rs:671-687 | the compacted segment lies one level below all it replaces, as far as there are levels |
| Compaction.CompactIdempotent | crates/vyrm-kv/src/database.rs:605-714 | compacting again with the same protections keeps the same versions |
| EngineRuns.ExportOk | crates/vyrm-kv/src/database.rs:361-372 | an export succeeds and its manifest carries every visible version |
| EngineRuns.InstallOk | crates/vyrm-kv/src/database.rs:431-500 | an advancing install shows the old image before publication and the bundle's after it; anything else changes nothing |
| EngineRuns.TransferAgrees | crates/vyrm-kv/src/database.rs:361-500 | after shipping a snapshot to a node that is behind and reopening it, every read at every snapshot agrees with the source, or with the old image when the failure came first |
| EngineRuns.InstallAtEqualSequence | crates/vyrm-kv/src/database.rs:439-443 | an install at an equal sequence does nothing, and leaves the bundle's versions exactly when nothing waits in memory |
| EngineRuns.InstallAtEqualSequenceDiffers | crates/vyrm-kv/src/database.rs:439-443 | a node with one unflushed write accepts the snapshot of an emptied source and keeps its write |
| EngineRuns.CollectOk | crates/vyrm-kv/src/database.rs:719-762 | collection keeps CURRENT and checkpoints servable, keeps nothing else, and changes no read |
| EngineRuns.StepOk | crates/vyrm-kv/src/database.rs:157-319 | every step keeps the invariant; the successor-WAL, conflict, missing-file and segment-disagreement refusals never fire |
| EngineRuns.RunRefines | crates/vyrm-kv/src/database.rs:157-762 | over every run the head sequence and head map are those of the accepted batches and snapshots, and CURRENT has wal start = durable + 1 |
| EngineRuns.RunKeepsSnapshot | crates/vyrm-kv/src/database.rs:157-762 | a snapshot reads the same for ever while compactions protect it |
| EngineRuns.CheckpointsServable | crates/vyrm-kv/src/manifest.rs:393-457 | in every reachable state a pinned checkpoint opens, and reads at and below its sequence what its segments hold |
| EngineRuns.PinnedReads | crates/vyrm-kv/src/manifest.rs:393-457 | a checkpoint pinned in any reachable state opens in every later state until it is released, and reads at and below the durable sequence of its moment what the database read then |
| EngineRuns.FlushPublishesIff | crates/vyrm-kv/src/database.rs:265-319 | a flush publishes the next manifest exactly when there is something to flush and no failure comes before publication |
| EngineMeaning.TwoOperationBytes | crates/vyrm-kv/src/batch.rs:63-97 | the bytes of a batch of one write and one deletion |
| EngineMeaning.LastOperationWins | crates/vyrm-kv/src/database.rs:212-220 | after a batch the last operation on a key decides the read at the head, and other keys read as before |
| EngineMeaning.PublicationIff | crates/vyrm-kv/src/manifest.rs:73-166 | what publication demands of CURRENT, of the chain and of the segments, and that it changes nothing else |
| EngineMeaning.InstallOutcome | crates/vyrm-kv/src/database.rs:431-500 | an install advances, finds nothing to do, or is refused, exactly by sequence and segments |
| EngineMeaning.InstalledManifest | crates/vyrm-kv/src/database.rs:444-500 | the installed manifest takes the bundle's segments, continues the chain and is dated no earlier than anything it joins |
| EngineMeaning.CollectKeepsIff | crates/vyrm-kv/src/database.rs:719-762 | a file is kept exactly when CURRENT or a checkpoint needs it |
| EngineMeaning.PinOutcome | crates/vyrm-kv/src/manifest.rs:393-420 | pinning names the current manifest, and again only as the same checkpoint |
| EngineMeaning.ReleaseOutcome | crates/vyrm-kv/src/manifest.rs:445-458 | releasing removes that checkpoint and changes nothing else |
| Database.MergeSegments | crates/vyrm-kv/src/database.rs:622-640 | the merge succeeds exactly when no two segments disagree and holds exactly their versions |
| Database.RetainVersions | crates/vyrm-kv/src/database.rs:641-665 | the selection loop computes the retained table |
| Database.Database.Create | crates/vyrm-kv/src/database.rs:126-151 | a new database is the empty engine and satisfies the invariant |
| Database.Open | crates/vyrm-kv/src/database.rs:157-196 | opening succeeds exactly when the directory is servable, with the specified error otherwise |
| Database.Database.Write | crates/vyrm-kv/src/database.rs:212-220 | the method is the write transition and keeps the invariant |
| Database.Database.Flush | crates/vyrm-kv/src/database.rs:265-319 | the method is the flush transition at every failure boundary and keeps the invariant |
| Database.Database.Compact | crates/vyrm-kv/src/database.rs:605-714 | the method, with its merge and selection loops, is the compaction transition and keeps the invariant |
| Database.Database.Install | crates/vyrm-kv/src/database.rs:431-500 | the method is the install transition and keeps the invariant |
| Database.Database.GarbageCollect | crates/vyrm-kv/src/database.rs:719-762 | the method is the collection transition and keeps the invariant |
| Database.Database.Get | crates/vyrm-kv/src/database.rs:764-783 | the memtable short cut and the segment loop give the newest version over everything, whatever the segment order |
| Database.Database.GetMany | crates/vyrm-kv/src/database.rs:785-828 | every position of a batched read, on every path, is the single read |
| Database.Database.Scan | crates/vyrm-kv/src/database.rs:830-865 | a scan lists exactly the live keys of the range with their newest values, in key order, on every path |
| Quorum.QuorumSurvives | crates/vyrm-cluster/src/contract.rs:135-141 | a quorum has a member outside any tolerated set of lost disks |
| QuorumSafety.InvIsSafe | crates/vyrm-cluster/src/sim.rs:266-307 | the invariant makes every part of the safety check hold |
| QuorumSafety.OneSurvivorHoldsAll | crates/vyrm-cluster/src/sim.rs:349-433 | within the tolerated losses one voter with its disk holds every acknowledged entry |
| QuorumSafety.MaybeCommitOk | crates/vyrm-cluster/src/sim.rs:349-382 | committing keeps the invariant and never finds the leader without its entry |
| QuorumSafety.ProposeOk | crates/vyrm-cluster/src/sim.rs:131-167 | a proposal extends the history by one entry and keeps the invariant |
| QuorumSafety.DeliverOk | crates/vyrm-cluster/src/sim.rs:384-450 | a delivery of any message keeps the invariant and is never denied |
| QuorumSafety.DisturbOk | crates/vyrm-cluster/src/sim.rs:169-231 | every fault keeps the invariant and is never denied |
| QuorumSafety.EveryRunIsSafe | crates/vyrm-cluster/src/sim.rs:131-450 | in every reachable state the safety check succeeds and no step is denied |
| QuorumSafety.EveryRunKeepsAcknowledged | crates/vyrm-cluster/src/sim.rs:131-450 | through every run within the tolerated losses one voter's log holds all acknowledged entries |
| CommitIndex.DeliverCommit | crates/vyrm-cluster/src/sim.rs:349-450 | a delivery sets the leader's commit index to the index whose quorum it completes, and otherwise leaves it alone |
| CommitIndex.LeaderCommitFallsIff | crates/vyrm-cluster/src/sim.rs:131-231 | an operation lowers the leader's commit index exactly when its last completed quorum is for a lower index or the leader loses its disk |
| CommitIndex.EveryRunCommitFallsIff | crates/vyrm-cluster/src/sim.rs:131-450 | the same in every state a run reaches |
| CommitIndex.LeaderCommitCanFall | crates/vyrm-cluster/src/sim.rs:363 | a run of three voters in which a late acknowledgement takes the commit index from 2 to 1 |
| Faults.DeliveredIff | crates/vyrm-cluster/src/sim.rs:384-396 | a message leaves the queue exactly when it is due, both ends are online with their disks and the link is open |
| Faults.StaysCut | crates/vyrm-cluster/src/sim.rs:169-231 | over every run without a restoring operation a closed link or a node that is down stays so, and nothing that waits for it is delivered |
| Faults.PartitionCuts | crates/vyrm-cluster/src/sim.rs:171-177 | a partition closes the link both ways and nothing else |
| Faults.PartitionHolds | crates/vyrm-cluster/src/sim.rs:171-177 | over every run from a partition without its healing no message between the nodes is delivered |
| Faults.HealOpens | crates/vyrm-cluster/src/sim.rs:178-182 | healing opens exactly that link and undoes its partition |
| Faults.UnknownNodes | crates/vyrm-cluster/src/sim.rs:171-173 | a partition of an unknown node is refused |
| Faults.CrashAndRestart | crates/vyrm-cluster/src/sim.rs:202-215 | a crashed node takes part in nothing, and a restart brings it back with exactly its disk |
| Faults.DiskLossIsFinal | crates/vyrm-cluster/src/sim.rs:220-228 | after the loss of its disk a node holds nothing and cannot be restarted, over every run |
| Faults.DelayHolds | crates/vyrm-cluster/src/sim.rs:183-187 | a delayed message cannot be delivered before its time plus the delay |
| Faults.DuplicateCopies | crates/vyrm-cluster/src/sim.rs:188-195 | a duplicate is a second message with the same ends, time and content under a fresh identifier |
| Faults.ReorderIsDeliveries | crates/vyrm-cluster/src/sim.rs:197-201 | reordering delivers the given messages one after the other up to the first refusal |
| Faults.SkewIsolated | crates/vyrm-cluster/src/sim.rs:216-219 | a skewed clock changes one offset and no delivery |
| Faults.AdvancePasses | crates/vyrm-cluster/src/sim.rs:233-236 | time only passes, and what was due stays due |
| Replication.ProposalReaches | crates/vyrm-cluster/src/sim.rs:131-167 | an accepted proposal takes the next index, is stored by the leader and sent to every other voter |
| Replication.AppendStored | crates/vyrm-cluster/src/sim.rs:397-423 | a delivered entry is stored and acknowledged to its sender |
| Replication.GapRefused | crates/vyrm-cluster/src/sim.rs:397-423 | an entry that would leave a gap is consumed and not stored |
| Replication.CommitFollowed | crates/vyrm-cluster/src/sim.rs:434-450 | a follower's commit index follows the leader's announcements and never goes back |
| Replication.QuorumAcknowledges | crates/vyrm-cluster/src/sim.rs:349-382 | an index is acknowledged exactly by a majority, and then every other voter is told |
| Replication.EveryRunAgrees | crates/vyrm-cluster/src/sim.rs:266-307 | in every reachable state one index holds one entry, commit indexes are backed and logs have no gap |
| Replication.SafetyIff | crates/vyrm-cluster/src/sim.rs:266-307 | what the safety check decides: backed commits, agreeing logs, and acknowledged entries that survive tolerated losses |
| Replication.PlacementMeaning | crates/vyrm-cluster/src/contract.rs:116-204 | what the validation of a placement decides, in terms of sets of voters |
| Replication.ZoneLossLeavesQuorum | crates/vyrm-cluster/src/contract.rs:135-204 | when no zone holds more voters than may fail, the voters outside a zone form a quorum |
| Replication.StartMeaning | crates/vyrm-cluster/src/sim.rs:89-129 | which placements start, and with what |
| Simulator.SimCluster.constructor | crates/vyrm-cluster/src/sim.rs:89-129 | a valid placement with a voting leader starts in a state that satisfies the invariant |
| Simulator.SimCluster.Propose | crates/vyrm-cluster/src/sim.rs:131-167 | the method is the proposal transition and keeps the invariant |
| Simulator.SimCluster.MaybeCommit | crates/vyrm-cluster/src/sim.rs:349-382 | the method is the commit transition |
| Simulator.SimCluster.Deliver | crates/vyrm-cluster/src/sim.rs:384-450 | the method is the delivery transition, keeps the invariant and is never denied |
| Simulator.SimCluster.Apply | crates/vyrm-cluster/src/sim.rs:169-231 | the method is the fault transition, keeps the invariant and is never denied |
| Simulator.SimCluster.VerifySafety | crates/vyrm-cluster/src/sim.rs:266-307 | the three loops decide exactly the safety conditions |
| Simulator.SimCluster.DeliverReady | crates/vyrm-cluster/src/sim.rs:238-254 | the loop ends, delivers in order of least ready identifier, and stops only when nothing is ready or a delivery is refused |
| Simulator.DeliverProgress | crates/vyrm-cluster/src/sim.rs:349-447 | the pair of open indexes and weighted messages falls with every successful delivery |
| RaftState.EpochsAreConsecutive | crates/vyrm-cluster/src/openraft_adapter.rs:1179-1255 | over every log accepted transitions carry the epochs 1, 2, 3, ... and the state's epoch is their number |
| RaftState.EpochEstablished | crates/vyrm-cluster/src/openraft_adapter.rs:847-866 | an epoch in force goes back to one transition, and an unchanged generation means unchanged voters since |
| RaftState.AcceptedUnderItsEpoch | crates/vyrm-cluster/src/openraft_adapter.rs:1179-1255 | a first-time accepted probe or commit has had its placement's voters at every moment since its epoch's transition |
| RaftState.RetryHasNoEffect | crates/vyrm-cluster/src/openraft_adapter.rs:1153-1177 | a remembered request only moves the log position and repeats its answer, or is refused under another identity |
| RaftState.RetryWithinWindow | crates/vyrm-cluster/src/openraft_adapter.rs:1153-1177 | retries at f+1 through f+4096 are duplicates with the first answer and no effect |
| RaftState.ForgottenAfterWindow | crates/vyrm-cluster/src/openraft_adapter.rs:1379-1384 | at f+4097 the request is forgotten, whatever was retried |
| RaftState.FreshLog | crates/vyrm-cluster/src/openraft_adapter.rs:828-899 | from the empty state, after every entry the epoch is the number of transitions and the table within its window |
| RaftState.RunWindow | crates/vyrm-cluster/src/openraft_adapter.rs:1323-1384 | the request table never exceeds 4096 entries |
| RaftEffects.AcceptedIff | crates/vyrm-cluster/src/openraft_adapter.rs:1179-1335 | a first-time command is accepted exactly when it names the right epoch and index under standing voters and its placement binds or its preparation does not reject it |
| RaftEffects.ErrorIff | crates/vyrm-cluster/src/openraft_adapter.rs:1132-1152 | an entry is an error exactly for a malformed command, failing storage, or a batch that cannot be encoded |
| RaftEffects.EntryWrites | crates/vyrm-cluster/src/openraft_adapter.rs:1256-1300 | the keyspace changes exactly by the plan of a due first-time commit, which is accepted with its outcome and counted |
| RaftEffects.LogWrites | crates/vyrm-cluster/src/openraft_adapter.rs:868-894 | over every log the keyspace is the accepted plans in order and the count their number |
| RaftEffects.FencedIff | crates/vyrm-cluster/src/openraft_adapter.rs:1179-1204 | under the current epoch a first-time probe or commit is accepted exactly when the voters never changed since its transition |
| RaftEffects.TransitionBinds | crates/vyrm-cluster/src/openraft_adapter.rs:1233-1258 | at an accepted transition the voters are exactly the placement's |
| RaftEffects.BindsIff | crates/vyrm-cluster/src/openraft_adapter.rs:1337-1366 | when a placement binds the voters of a membership, spelt out |
| RaftEffects.RetryAnswers | crates/vyrm-cluster/src/openraft_adapter.rs:1153-1177 | within the window the same command is answered as before and any other under its name refused |
| RaftEffects.OtherEntries | crates/vyrm-cluster/src/openraft_adapter.rs:843-867 | blank and membership entries are answered as accepted and write nothing |
| RaftEffects.DigestFixesAccepted | crates/vyrm-cluster/src/openraft_adapter.rs:1305-1312 | equal state digests mean the same accepted operations at the same positions |
| RaftMachine.PruneRequestHistory | crates/vyrm-cluster/src/openraft_adapter.rs:1379-1384 | the walk keeps exactly the requests of the window |
| RaftMachine.ApplyOne | crates/vyrm-cluster/src/openraft_adapter.rs:1132-1335 | the branches compute the command's decision, state and operations |
| RaftMachine.ApplyNext | crates/vyrm-cluster/src/openraft_adapter.rs:843-896 | one entry is decided, pruned and written, and a batch that cannot be encoded is a storage error |
| RaftMachine.RaftStateMachine.Apply | crates/vyrm-cluster/src/openraft_adapter.rs:828-899 | one durable write per entry; an error, a refused write included, keeps exactly the entries before it |
| RaftMachine.ApplyAllSplits | crates/vyrm-cluster/src/openraft_adapter.rs:828-899 | how a log is cut into calls makes no difference |
| RaftMachine.ApplyAllTraces | crates/vyrm-cluster/src/openraft_adapter.rs:828-899 | an application without error is a trace of single durable steps, to which the log theorems apply |
| Keys.PrefixEnd | crates/vyrm-core/src/key.rs:110-120 | the pop-and-increment loop computes the prefix bound |
| Keys.PrefixRange | crates/vyrm-core/src/key.rs:101-120 | for every prefix, all-0xFF ones included, the scan range holds exactly the keys that extend it |
| Keys.NewestFirst | crates/vyrm-core/src/key.rs:48-69 | within a subject and predicate keys run from the newest valid time, latest recording first |
| Keys.SeekSkipsFuture | crates/vyrm-core/src/key.rs:95-99 | a seek skips exactly the versions that start after the instant |
| Keys.VersionPrefixCovers | crates/vyrm-core/src/key.rs:71-79 | the prefix of a subject and predicate covers exactly their own versions |
| Keys.SubjectPrefixCovers | crates/vyrm-core/src/key.rs:87-93 | the prefix of a subject covers exactly its own claims |
| Keys.ClaimKeyInjective | crates/vyrm-core/src/key.rs:48-58 | different versions have different keys |
| Keys.ParseOfClaimKey | crates/vyrm-core/src/key.rs:174-190 | parsing a claim key gives back its subject and predicate |
| Claims.ResolveAsOf | crates/vyrm-core/src/temporal.rs:48-63 | the index loop returns the first run head valid at the instant |
| Claims.VersionsResolve | crates/vyrm-core/src/temporal.rs:48-63 | resolving the versions up to any later bound is the relational answer: the greatest start whose latest correction is valid |
| Claims.AsOfUnique | crates/vyrm-core/src/temporal.rs:40-47 | the relational answer is one claim at most |
| Claims.WindowsAreHalfOpen | crates/vyrm-core/src/claim.rs:122-145 | a claim holds from its start and before its end, and valid claims are those that hold at some instant |
| Claims.SupersedeNarrowsIff | crates/vyrm-core/src/claim.rs:191-207 | retiring narrows the window exactly when it was open or reached the successor |
| Claims.SupersedeCanWiden | crates/vyrm-core/src/claim.rs:200 | a claim closed at 5 becomes valid at 7 |
| Claims.SupersedeResolves | crates/vyrm-core/src/claim.rs:189-207 | what resolves before, between and after a supersession of the newest claim |
| Recall.MemoryClaims.Insert | crates/vyrm-core/src/reference.rs:33-38 | a valid claim is stored under its key, an invalid one refused |
| Recall.MemoryClaims.VersionsAtOrBefore | crates/vyrm-core/src/reference.rs:53-72 | one seek yields exactly the versions that start at or before the instant, in key order |
| Recall.MemoryClaims.SubjectVersions | crates/vyrm-core/src/reference.rs:82-88 | one seek yields exactly the subject's claims in key order |
| Recall.MemoryClaims.AsOf | crates/vyrm-core/src/temporal.rs:75-83 | scan and resolution together are the relational answer |
| Recall.RecallSubject | crates/vyrm-core/src/recall.rs:103-132 | the run grouping finds exactly the as-of answer of each wanted predicate and fills the budget with them |
| Recall.Recall | crates/vyrm-core/src/recall.rs:86-140 | distinct subjects in query order, each with its claims in force, and the budget fill of them all |
| Recall.InForceUnique | crates/vyrm-core/src/recall.rs:96-132 | the claims in force are one determined list |
| Recall.RecallDetermined | crates/vyrm-core/src/recall.rs:78-140 | rows, query and budget determine the recalled set: recall is deterministic |
| RecallMeaning.RecallFiltered | crates/vyrm-core/src/recall.rs:96-132 | a recall of named predicates is the fill of what all predicates would bring, filtered to those |
| RecallMeaning.InForceFiltered | crates/vyrm-core/src/recall.rs:115-119 | per subject, naming predicates leaves exactly the claims about them |
| RecallMeaning.RecalledIsWanted | crates/vyrm-core/src/recall.rs:96-132 | every recalled claim is of an asked subject and predicate and in force |
| RecallMeaning.DistinctMeaning | crates/vyrm-core/src/recall.rs:90-94 | every subject once, in the order of first mentions |
| RecallMeaning.CostMeaning | crates/vyrm-core/src/recall.rs:58-64 | the estimate is the least number of four-byte tokens that holds the texts |
| Recall.FillMeaning | crates/vyrm-core/src/recall.rs:120-132 | exact estimate, exact truncation flag, the first match always taken, and only a single oversized claim over budget |
| Recall.StopsAtOverflowIff | crates/vyrm-core/src/recall.rs:82-132 | the fill stops at the first overflow exactly when nothing later fits |
| Recall.SkipsAndContinues | crates/vyrm-core/src/recall.rs:78-140 | of three stored claims recalled into two tokens the larger second one is skipped and the third one taken |
| Graph.FromChanges | crates/vyrm-core/src/runtime.rs:1232-1317 | the loop computes the valid part of the replayed changes |
| Graph.SnapshotMeaning | crates/vyrm-core/src/runtime.rs:1232-1317 | a replayed record is the last visible write of its identity |
| Graph.SnapshotRelationMeaning | crates/vyrm-core/src/runtime.rs:1232-1317 | a replayed relation, stated or emitted, is the last visible write of its identity |
| Graph.Preview | crates/vyrm-core/src/runtime.rs:687-796 | a view exists exactly for a valid transaction over the state it read, and is the pending mutations applied to it |
| Graph.PreviewIsFuture | crates/vyrm-core/src/runtime.rs:687-796 | the prospective view is the snapshot of the log extended by the commit, at every instant |
| Graph.DiffRoundTrip | crates/vyrm-core/src/runtime.rs:1361-1427 | a difference leads from the older graph to the newer and its reverse leads back |
| Graph.DiffIsMinimal | crates/vyrm-core/src/runtime.rs:1361-1427 | a difference names exactly the identities on which the graphs differ |
| Graph.UnseenChanges | crates/vyrm-core/src/runtime.rs:1239-1243 | changes after the cursor and of other scopes do not show in a snapshot |
| Traversal.Traverse | crates/vyrm-core/src/runtime.rs:1336-1359 | the traversal ends and visits exactly the references within the depth over permitted edges |
| Overlap.MaxOverlap | crates/vyrm-core/src/schema.rs:438-455 | the sweep returns the true maximum, over all instants, of windows that hold together |
| Schema.OverlapMeaning | crates/vyrm-core/src/schema.rs:457-464 | windows overlap exactly when they share an instant before the last representable one |
| Schema.OverlapIsSharingIff | crates/vyrm-core/src/schema.rs:457-464 | overlap is sharing an instant exactly when it is not that both windows are open and one starts at the last instant |
| Schema.LastInstantEscapes | crates/vyrm-core/src/schema.rs:463 | two open windows at the last instant hold together without overlapping |
| Schema.CheckUnique | crates/vyrm-core/src/schema.rs:286-321 | the pairwise loop decides uniqueness at every instant before the last |
| Schema.CheckLimit | crates/vyrm-core/src/schema.rs:323-387 | grouping and sweeping decide whether any instant exceeds the limit in any group |
| Schema.ValidateObjects | crates/vyrm-core/src/schema.rs:166-216 | accepts exactly typed mutations whose merged objects satisfy every constraint |
| Schema.Prepare | crates/vyrm-store/src/native.rs:708-820 | the store takes exactly the commits the acceptance conditions describe |
| Schema.RunKeepsSchema | crates/vyrm-store/src/native.rs:708-820 | after any run of commits over any scopes, the latest versions of a scope exceed no cardinality limit at any instant and violate uniqueness at no instant before the last |
| Acceptance.AcceptedIff | crates/vyrm-store/src/native.rs:708-820 | a commit is accepted exactly when some registry governs it under which it is well formed, conforms, keeps limits and uniqueness and refers to known records, all spelt out independently |
| Acceptance.RunConforms | crates/vyrm-core/src/schema.rs:166-283 | in every run each accepted mutation conforms to the registry in force: endpoints, subjects, required, typed and closed properties |
| Acceptance.RunWithinLimits | crates/vyrm-core/src/schema.rs:286-387 | after every run no instant has a repeated pair, or more relations leaving or reaching a node than allowed, or before the last two records with one unique value |
| Acceptance.NothingDangles | crates/vyrm-store/src/native.rs:785-821 | after every run each relation joins records of its scope's table |
| Acceptance.RevisionsAreConsecutive | crates/vyrm-store/src/native.rs:733-756 | over every run a scope's registries carry the revisions 1, 2, 3, ... |
| Acceptance.ConformsIff | crates/vyrm-core/src/schema.rs:218-283 | the validator's typing is the spelt-out one |
| Acceptance.WellFormedIff | crates/vyrm-core/src/runtime.rs:205-276 | the validation of a commit is the spelt-out one |
| Acceptance.WindowsAreHalfOpen | crates/vyrm-core/src/runtime.rs:1464-1466 | adjacent windows never hold together |
| Acceptance.PreviewableIff | crates/vyrm-core/src/runtime.rs:687-700 | a view is given exactly of a well-formed commit over the scope and cursor it read |
| History.RunKeepsLog | crates/vyrm-store/src/native.rs:852-935 | after any run the log is numbered without gaps and every scope's tables are the latest versions in it |
| History.RelationsAreTableIff | crates/vyrm-core/src/runtime.rs:1232-1317 | a snapshot states exactly the valid relations of the table if and only if no version replaced by a later start is still valid at its instant |
| History.RecordsAreTableIff | crates/vyrm-core/src/runtime.rs:1232-1317 | the same for records |
| History.SnapshotKeepsSchema | crates/vyrm-store/src/native.rs:757-783 | after any run that condition decides whether the snapshot at the head states the tables, and under it what is stated satisfies the schema |
| History.SnapshotUniqueIff | crates/vyrm-core/src/schema.rs:286-321 | after any run and before the last instant, a property declared unique is unique in a snapshot exactly when no record written by an event or replaced by a later start shares its value with another |
| History.KindsWithoutEvents | crates/vyrm-core/src/runtime.rs:1256-1275 | uniqueness in kinds of which no event was recorded says the same of the stated part and of the whole snapshot |
| History.StandingIsTaker | crates/vyrm-core/src/runtime.rs:1242-1297 | of an event and a relation stated under its identity the later one in the log wins |
| History.ShownCount | crates/vyrm-core/src/runtime.rs:1232-1317 | in every group a snapshot shows the relations the table holds at its instant, those replaced by a later start and, for `emitted`, one per standing event about a subject |
| History.HeldIsTable | crates/vyrm-core/src/schema.rs:323-387 | outside the kind `emitted` what the table holds in a group is all the validator counts there at the instant |
| History.SnapshotWithinIff | crates/vyrm-core/src/schema.rs:323-387 | after any run a limit holds in the snapshot of an instant exactly when table, replaced versions and standing events together keep it in every group |
| History.OtherKindsAreStated | crates/vyrm-core/src/runtime.rs:1256-1297 | limits on kinds other than `emitted` say the same of the stated part and of the whole snapshot |
| HistoryRuns.ReplacedVersionEscapes | crates/vyrm-store/src/native.rs:771-783 | three accepted links of which two hold in one snapshot under a limit of one |
| HistoryRuns.EmittedEscapes | crates/vyrm-core/src/schema.rs:196-216 | two accepted events about one node exceed a limit of one outgoing `emitted` relation |
| HistoryRuns.ReplacedRecordEscapes | crates/vyrm-store/src/native.rs:757-783 | three accepted records of which two share a unique property in one snapshot |
| HistoryRuns.EventRecordsEscape | crates/vyrm-core/src/schema.rs:186-213 | two accepted events of a record kind share its unique property in one snapshot |
| Digest.CompressInPlace | crates/vyrm-core/src/digest.rs:110-152 | the array loops compute the compression of section 6.2.2 of FIPS 180-4 |
| Digest.PaddingIsFips | crates/vyrm-core/src/digest.rs:77-90 | the padding of section 5.1.1 of FIPS 180-4: whole blocks, fewest zeros, length in bits |
| Digest.Sha256.Update | crates/vyrm-core/src/digest.rs:49-75 | absorbing a piece keeps the state equal to the fold over the whole blocks so far, with the rest buffered |
| Digest.Sha256.Finalize | crates/vyrm-core/src/digest.rs:77-96 | in both padding cases the output is the digest of the padded message |
| Digest.HashChunks | crates/vyrm-core/src/digest.rs:49-108 | however the input is cut, the digest is that of the whole message |
| DigestConstants.RoundConstantsAreCubeRoots | crates/vyrm-core/src/digest.rs:10-19 | the round constants are the first 32 fractional bits of the cube roots of the primes of the table, section 4.2.2 of FIPS 180-4 |
| DigestConstants.InitialIsSquareRoots | crates/vyrm-core/src/digest.rs:7-9 | the initial words are those of the square roots of the first eight, section 5.3.3 of FIPS 180-4 |
| DigestConstants.TableOfPrimes | crates/vyrm-core/src/digest.rs:7-19 | the table holds primes in ascending order |
| DigestVector.TextOfAbc | crates/vyrm-core/src/digest.rs:171-181 | the digest of "abc" is the published text |
| HexDigest.HexInjective | crates/vyrm-core/src/digest.rs:158-165 | different digests have different texts |
| Reasoning.ReasoningRun.Append | crates/vyrm-core/src/reasoning.rs:193-232 | an accepted event is the specified one, a refused event leaves the run as it was |
| Reasoning.Replay | crates/vyrm-core/src/reasoning.rs:160-175 | the loop accepts and rebuilds what the replay function says |
| Reasoning.ReplayExactly | crates/vyrm-core/src/reasoning.rs:160-232 | a list replays to a run exactly when it is the non-empty history of a run that appending builds |
| Reasoning.SuccessFollowsVerification | crates/vyrm-core/src/reasoning.rs:235-276 | a Succeeded outcome directly follows an all-passed verification |
| ReasoningOrder.AcceptedIffFollows | crates/vyrm-core/src/reasoning.rs:193-276 | in every run an event with valid fields is accepted exactly when it may follow the history |
| ReasoningOrder.EveryEventFollows | crates/vyrm-core/src/reasoning.rs:235-276 | in every run each event follows what came before it, and times never go back |
| ReasoningOrder.FilledIff | crates/vyrm-core/src/reasoning.rs:278-333 | what each kind of payload must contain |
| ReasoningOrder.DecisionBytes | crates/vyrm-core/src/reasoning.rs:335-380 | the bytes hashed for one event |
| ReasoningOrder.PreviousIsLast | crates/vyrm-core/src/reasoning.rs:376-380 | the hashed bytes end with the flag, length and text of the digest before |
| Reasoning.PayloadSplit | crates/vyrm-core/src/reasoning.rs:343-376 | the encoding of a payload can be told apart from whatever bytes follow it |
| Reasoning.EncodingInjective | crates/vyrm-core/src/reasoning.rs:335-380 | equal hashed bytes mean equal fields, the previous digest included |
| Reasoning.FinalDigestFixesHistory | crates/vyrm-core/src/reasoning.rs:193-380 | two runs with the same final digest have identical histories, or two different events of theirs collide under SHA-256 |

## Left out

- WAL framing, segment blocks, the block cache and snapshot-bundle bytes: a segment is a table of version lists, a WAL file a list of encoded frames, a bundle a manifest with its segments.
- File locks, partial writes inside a rename, torn WAL tails and buffered durability: publication is atomic and every write is synced.
- Engine.NewManifest: orders segments by level only; the further order by first key and identifier has no effect on reads.
- EngineRuns.StepOk: bundles offered to an install are those a well-formed database exports; damaged bundles are refused before this model starts.
- The simulator's trace, evidence, read stamps and state digest: they are outputs without influence on the protocol.
- RaftState.AcceptedUnderItsEpoch: preparing a runtime commit is any deterministic function of the stored keyspace; the state record is kept as a value beside that keyspace, its bytes are any function of it, and response texts are not modelled.
- OpenRaft's consensus, log storage, snapshot transfer files and JSON encodings; the log is given with consecutive indexes.
- Graph.FromChanges: snapshots are maps by identity; the lists the source returns are their values in key order.
- Digests, confidence, tiers and signatures of claims, and their canonical bytes: they do not take part in resolution.
- Access keys, sequence keys and timestamp parsing: the same field arguments as for claim keys.
- Graph.Preview: the read stamp's own validation, and that of claims, vectors, samples, places and objects, is a given verdict; audit envelopes and projections are not modelled, as they do not touch the graph.
- Schema.Prepare: the claim sequence, the outbox and the hash chain over changes are outputs without influence on acceptance.
- History.SnapshotKeepsSchema: speaks of the head of the log; an earlier cursor at the end of a commit is the head of a shorter run, and cursors inside a commit are covered by the two statements about logs.
- Reasoning.ReasoningRun.Append: white space, here and in the migration text of a registry, is the ASCII white space; Unicode white space is not modelled.
- Digest.Sha256.Update: the total length must stay below 2^64 bytes, beyond which the source stops; above 2^61 bytes the length field wraps as in the source and section 5.1.1 of FIPS 180-4 no longer applies.
- Error texts, UTF-8 handling and serialized forms.
- The command line, the user interface, the edge and node processes, transport, embeddings, vectors and ranking.
