# A verified model of the SochDB client core

This project models the parts of SochDB whose correctness spans several calls, and proves what
they promise over whole runs. Everything is checked by `dafny verify dfyconfig.toml`.

**The intent log** (`AtomicMemory`, `AtomicRecovery`, `AtomicRuns`, `OpEffects`, `GraphIndex`,
`AtomicLimits`, `EdgeClashes`).
`write_atomic` stores an intent record, applies its operations one put or delete at a time and
marks the record; `recover` replays unfinished records. Every method is tied to the exact list of
store steps it performs, and a crash is a cut of that list. `RedoLog`, `LogRuns` and `LogLimits`
prove recovery for an arbitrary redo log; `AtomicRecovery` shows that the intent log is one. The main results are
crash atomicity over every run of writes, recoveries, cleanups and reopenings, each refused by
storage or cut by a crash (`AtomicRuns.EveryRunIsAtomic`), recovery that survives its own crashes
(`AtomicRuns.RecoverySurvivesCrashes`), the write-ahead discipline of every step, and agreement
of edges with their reverse index (`GraphIndex.EveryRunKeepsIndex`). `OpEffects` says key by key, without
the step lists, what each operation leaves, and that after every run each key is as the last operation
that names it says. Two assumptions are needed: a
writer recovers before it writes, and does not go on after a refused status update. Without them
any number of records may be unfinished: for any list of writes, with any ids and each cut anywhere,
over any well-keyed store, `AtomicLimits.StillAtomicIff` says exactly when the data comes out right.
`EdgeClashes.EdgesStayInStepIff` says for every set of edges, slashes in any identifier or namespace
included, exactly when the index stays right.

**The checkpoint store** (`Streams`, `Checkpoints`, `CheckpointKeys`, `CheckpointRuns`,
`CheckpointDeletion`, `CheckpointHistory`, `CheckpointContents`, `EventPages`, `CheckpointLimits`,
`NodeIsolation`). The
store refines one history per node and one event log per run: over every run of calls, deletions
included, each cut anywhere, loading returns the last record of the history, listing returns the
whole history in order, numbers are never reused, and paging reads every event once. The history is
built from the arguments of the calls, so what is read is what the callers gave; `get_run` returns
exactly the metadata that the calls made. A deletion
takes the oldest records first, removes exactly one run and can be restarted.
`NodeIsolation.NodeIsolationIff` says exactly when a node whose id has slashes is kept apart, and
`NodeIsolation.LoadIsOwnIff` when a load is. A node id such as `a/` mixes into the listing of `a`,
but not into a load once `a` has a checkpoint, because a slash sorts before every digit.

**The batch writer and the group-commit buffer** (`Batch`, `BatchRuns`, `BatchCalls`, `GroupCommit`).
Streaming is invisible in the tables whatever the batch size and mode; every operation makes exactly
the table call it asks for, on any engine; the counters cover exactly the chunks
whose fsync succeeded. The commit queue is a state machine over the critical sections of any
number of threads, with their notifications and timeouts.

**Loops over columns** (`HashJoin`, `Aggregation`, `TopTwo`, `RateLimiter`, `Columns`,
`IntColumns`, `Int64`, `Codecs`, `HexState`). Hash joins against the set of matching row pairs, group-by
passes against filter-then-fold, the bounded top-two buffer against sorting the whole group, the
pruned rate limiter against one that remembers everything, and the byte formats against their
inverses.

Conventions. Storage is a map from byte strings to records; `Connection` performs one put or
delete as a whole or refuses it, and counts refusals in the ghost field `faults`, so contracts say
exactly which error follows from a refusal and which from the state. Times are parameters. A `done`
in a call is the number of store steps that happened before a crash or a refusal ended it.

Where code and comments disagree the code is modelled. `submit_and_wait` is documented as waiting
for the commit, but a timeout returns success for an operation that no flush has cleared
(`GroupCommit.ClearedOnReturnIff`). `get_events` tests its limit after pushing, so a limit of 0
returns one event. Creating a run that exists resets its counters, after which a save may not be
what the next load returns (`CheckpointLimits.SavedIsLoadedIff`). The field `created_at` of an intent
is documented as being for recovery ordering, at line 133 of sochdb-client/src/atomic_memory.rs, but
recovery does not read it: it replays in byte order of the decimal ids, 10 before 9, so that an
older value can win (`AtomicLimits.OlderBlobWinsIff`).

## Model

| member | source | states |
|---|---|---|
| Storage.ReplayOverPrefix | sochdb-client/src/atomic_memory.rs:247-256 | making a full list of writes over any prefix of itself equals making it once |
| Storage.LastStepDecides | sochdb-client/src/atomic_memory.rs:247-256 | a key ends as the last step that touches it says |
| Storage.RunChangesNothingIff | sochdb-client/src/atomic_memory.rs:411-450 | repeating writes changes nothing exactly when each key already holds its last one |
| Keys.DecimalIsInjective | sochdb-client/src/atomic_memory.rs:186-188 | different intent ids give different decimal keys |
| Keys.DecimalDenotes | sochdb-client/src/atomic_memory.rs:186-188 | the text of an id is its decimal digits, with no zero in front |
| Keys.SuccessorsInOrderIff | sochdb-client/src/atomic_memory.rs:186-188 | an intent key sorts before that of the next id iff the next id is not 10, 100, 1000 and so on |
| Keys.SeqTextKeepsOrder | sochdb-client/src/checkpoint.rs:250-256 | the 16-digit hexadecimal text of a 64-bit number orders as the number |
| Keys.SplitAtSlash | sochdb-client/src/atomic_memory.rs:320-324 | slash-joined texts with slash-free heads are equal only part by part |
| Sweeps.SweepPrefix | sochdb-client/src/atomic_memory.rs:417-447 | the steps for the first scanned entries are a prefix of the steps of the whole pass |
| Sweeps.SweepOne | sochdb-client/src/atomic_memory.rs:417-447 | with one entry to act on, the whole pass is the action on that entry |
| Overlaps.PartThenIff | sochdb-client/src/atomic_memory.rs:247-256 | writes made in part under later ones go unnoticed iff every key only they touch is already final |
| Overlaps.MadeLateIff | sochdb-client/src/atomic_memory.rs:411-450 | writes made again over later ones go unnoticed iff both agree on the last write of every shared key |
| Overlaps.SameOutcomeIff | sochdb-client/src/atomic_memory.rs:247-256 | two lists of writes have the same outcome iff each key ends alike under both |
| Overlaps.LostOrLateIff | sochdb-client/src/atomic_memory.rs:411-450 | a stopped list replayed late, or never, goes unnoticed iff the shared, or the unshared, keys agree |
| RedoLog.RecoverySurvivesCrash | sochdb-client/src/atomic_memory.rs:411-450 | a recovery cut anywhere and run again reaches the store of an uncut one, for any redo log |
| RedoLog.SameOpenRecoversAlike | sochdb-client/src/atomic_memory.rs:426-446 | recovery depends on the unfinished records only |
| LogRuns.AttemptCutEarly | sochdb-client/src/atomic_memory.rs:203-235 | an attempt cut after its record leaves one open record, and recovery makes exactly its full writes |
| LogRuns.OneEvent | sochdb-client/src/atomic_memory.rs:203-235 | each event of a log keeps its invariant and has its intended effect after recovery |
| LogRuns.ReplayOutcome | sochdb-client/src/atomic_memory.rs:426-438 | a replay with refused writes, cut anywhere: until the record is settled recovery makes it in full, then the accepted writes stand |
| LogLimits.RecoveredData | sochdb-client/src/atomic_memory.rs:411-450 | with any number of open records recovery makes exactly their writes, in ascending order of their keys |
| LogLimits.AnyAttemptsRecovered | sochdb-client/src/atomic_memory.rs:203-235 | any attempts, each cut anywhere, over any good log: the data is what they made and then what is replayed |
| LogLimits.AnyAttemptsIff | sochdb-client/src/atomic_memory.rs:203-450 | and is what the attempts owe iff every key ends alike |
| LogLimits.KeptRecord | sochdb-client/src/atomic_memory.rs:203-235 | a record stays as it is unless a later attempt takes its key |
| AtomicMemory.AtomicMemoryWriter.constructor | sochdb-client/src/atomic_memory.rs:173-178 | every writer numbers its intents from 1 |
| AtomicMemory.AtomicMemoryWriter.ApplyOp | sochdb-client/src/atomic_memory.rs:259-373 | an operation performs its own writes after those of the operations before it, or is cut within them by a refusal |
| AtomicMemory.AtomicMemoryWriter.ApplyOps | sochdb-client/src/atomic_memory.rs:247-256 | exactly the intent's writes up to the first refusal; success with the operation count iff nothing is refused |
| AtomicMemory.AtomicMemoryWriter.UpdateIntentStatus | sochdb-client/src/atomic_memory.rs:394-405 | rewrites the record with the new status, leaves a missing one; a storage error iff refused, a serialization error iff unreadable |
| AtomicMemory.AtomicMemoryWriter.Settle | sochdb-client/src/atomic_memory.rs:216-234 | applies and then marks committed iff every write was accepted, aborted otherwise |
| AtomicMemory.AtomicMemoryWriter.WriteAtomic | sochdb-client/src/atomic_memory.rs:203-235 | performs a cut of record, writes, mark; succeeds with the whole list; a storage error iff refused, otherwise a serialization error on an unreadable record |
| AtomicMemory.AtomicMemoryWriter.ReplayRecord | sochdb-client/src/atomic_memory.rs:418-446 | replays an unfinished record, counts a finished or corrupted one |
| AtomicMemory.AtomicMemoryWriter.ReplayAll | sochdb-client/src/atomic_memory.rs:417-447 | the pass over the scanned records performs their replay in scan order and reports every outcome |
| AtomicMemory.AtomicMemoryWriter.Recover | sochdb-client/src/atomic_memory.rs:411-450 | replays all scanned records, in full when nothing is refused; an error return is a cut of those steps, and each kind of error has its cause |
| AtomicMemory.AtomicMemoryWriter.DeleteExpired | sochdb-client/src/atomic_memory.rs:467-483 | deletes the expired finished records in scan order up to a refusal |
| AtomicMemory.AtomicMemoryWriter.Cleanup | sochdb-client/src/atomic_memory.rs:455-486 | without a refusal it deletes exactly the readable records, committed or aborted, whose age in seconds is above the limit, and returns their number; every other key is unchanged even when refused |
| AtomicMemory.CleanupIsExact | sochdb-client/src/atomic_memory.rs:455-486 | the steps of a cleanup delete exactly those records; cut anywhere they leave all others alone |
| AtomicRecovery.OpStepsKeepOut | sochdb-client/src/atomic_memory.rs:259-373 | no write of an operation touches the intent log, if its blob keys do not |
| AtomicRecovery.SettleInPlace | sochdb-client/src/atomic_memory.rs:394-405 | marking a well-keyed record rewrites that very record |
| AtomicRecovery.OwnRecordIsReadable | sochdb-client/src/atomic_memory.rs:216-221 | while an intent applies its writes its own record stays readable |
| AtomicRecovery.RecoverFinishesAll | sochdb-client/src/atomic_memory.rs:411-450 | a complete recovery leaves no record unfinished, whatever was refused, and rewrites no finished one |
| AtomicRecovery.ReportCountsAll | sochdb-client/src/atomic_memory.rs:506-519 | the five report counters add up to the number of records scanned |
| AtomicRecovery.ReportIsExact | sochdb-client/src/atomic_memory.rs:417-447 | each of the five counters is the number of scanned records of its own kind |
| AtomicRecovery.OneUnfinished | sochdb-client/src/atomic_memory.rs:417-447 | with one record unfinished a pass settles that record and does nothing else |
| AtomicRecovery.RecoverIsLogRecovery | sochdb-client/src/atomic_memory.rs:411-450 | the writer's recovery is the recovery of its redo log |
| AtomicRuns.WriteIsAttempt | sochdb-client/src/atomic_memory.rs:203-235 | the steps of an atomic write are an attempt of the redo log |
| AtomicRuns.CleanupIsTrim | sochdb-client/src/atomic_memory.rs:455-486 | a cleanup cut anywhere deletes keys of finished records only |
| AtomicRuns.CleanupIsInvisible | sochdb-client/src/atomic_memory.rs:455-486 | in any well-keyed store a cleanup cut anywhere takes finished records only, and recovery leaves the same data as without it |
| AtomicRuns.RecoverCall | sochdb-client/src/atomic_memory.rs:411-450 | a recovery, refused or cut anywhere, keeps the log in order and has its intended effect |
| AtomicRuns.CrashAtomicity | sochdb-client/src/atomic_memory.rs:203-450 | over every run, each call refused or cut anywhere, a complete recovery leaves exactly the intended data, and at most the newest record is unfinished |
| AtomicRuns.EveryRunIsAtomic | sochdb-client/src/atomic_memory.rs:203-450 | crash atomicity from an empty store, for every run |
| AtomicRuns.RecoverySurvivesCrashes | sochdb-client/src/atomic_memory.rs:411-450 | any number of cut recoveries and then a complete one reach the store of one complete recovery; a further one does nothing |
| AtomicRuns.WriteAheadInWrite | sochdb-client/src/atomic_memory.rs:203-244 | every data write belongs to the record pending at that moment, a committed mark follows all its writes, and no pending record is overwritten |
| AtomicRuns.WriteAheadInRecovery | sochdb-client/src/atomic_memory.rs:411-450 | in any well-keyed store, whatever its number of unfinished records, every replayed write belongs to a record unfinished at that moment, and a mark follows all its writes |
| OpEffects.OpEffect | sochdb-client/src/atomic_memory.rs:259-373 | after any operation each key is as the operation says, under the keys as printed and with its own fields, and every other key is unchanged |
| OpEffects.HalfOpEffect | sochdb-client/src/atomic_memory.rs:259-373 | an operation cut after the first of its two writes has changed that key alone |
| OpEffects.KeyIsPrinted | sochdb-client/src/atomic_memory.rs:186-188 | the key of an intent is the prefix and its decimal id |
| OpEffects.VersionIsReadable | sochdb-client/src/atomic_memory.rs:376-381 | a versioned key is the key, a mark and eight bytes that read back as the version |
| OpEffects.EmbeddingIsReadable | sochdb-client/src/atomic_memory.rs:287-290 | the stored bytes of an embedding read back, four at a time, as its values |
| OpEffects.OpsEffect | sochdb-client/src/atomic_memory.rs:247-256 | after a list of operations each key is as the last operation that names it says |
| OpEffects.WriteLeaves | sochdb-client/src/atomic_memory.rs:203-235 | a complete write over any store leaves each key but that of its record as its operations say |
| OpEffects.WriteLeavesRecord | sochdb-client/src/atomic_memory.rs:203-235 | and its record committed, with the given operations and time |
| OpEffects.WriteTakesEffect | sochdb-client/src/atomic_memory.rs:203-450 | a write that stored its record, complete or cut anywhere, has that effect after recovery |
| OpEffects.BlobsAsLastSaid | sochdb-client/src/atomic_memory.rs:203-450 | a blob whose last naming operation deletes it is gone after the write and its recovery, and one last put holds that value |
| OpEffects.EveryRunLeaves | sochdb-client/src/atomic_memory.rs:203-450 | over every run, each call cut anywhere, recovery leaves each key as the last operation that names it says |
| GraphIndex.EdgeKeyIsInjective | sochdb-client/src/atomic_memory.rs:320-324 | edge keys with slash-free identifiers are equal only for equal edges |
| GraphIndex.IndexKeyIsInjective | sochdb-client/src/atomic_memory.rs:338-342 | reverse index keys likewise |
| GraphIndex.EdgeIsNotIndex | sochdb-client/src/atomic_memory.rs:320-342 | no edge key is an index key |
| GraphIndex.OpKeepsAgreement | sochdb-client/src/atomic_memory.rs:312-369 | every operation keeps each edge stored iff its index entry is, holding the source id |
| GraphIndex.GraphIndexAgreement | sochdb-client/src/atomic_memory.rs:312-369 | the agreement holds after every run, once recovery has completed |
| GraphIndex.EveryRunKeepsIndex | sochdb-client/src/atomic_memory.rs:312-369 | the agreement from an empty store, for every run |
| AtomicLimits.RecoveryKeepsDataIff | sochdb-client/src/atomic_memory.rs:411-450 | over any well-keyed store recovery makes the writes of the unfinished records in key order, and leaves the data alone iff every key already holds its last one |
| AtomicLimits.AnyWrites | sochdb-client/src/atomic_memory.rs:173-450 | writes with any ids, each refused or cut anywhere, over any well-keyed store: the log and data they leave, and the data after recovery |
| AtomicLimits.StillAtomicIff | sochdb-client/src/atomic_memory.rs:173-450 | such a run and a recovery leave the data of all its writes, in order and in full, iff what was made and then replayed ends every key as what is owed does |
| AtomicLimits.ReplayIsHarmlessIff | sochdb-client/src/atomic_memory.rs:411-450 | the recovery after such a run changes nothing iff every key already holds its last replayed write |
| AtomicLimits.StoppedRecordIsKept | sochdb-client/src/atomic_memory.rs:173-235 | the record of a stopped write is there to be replayed unless a later write takes its id |
| AtomicLimits.OneStoppedWrite | sochdb-client/src/atomic_memory.rs:173-235 | one write stopped, then complete ones: it is replayed in full over them, or left in part when its id is taken |
| AtomicLimits.OneStoppedWriteIff | sochdb-client/src/atomic_memory.rs:173-235 | such a run comes out right iff the shared, or with a taken id the unshared, keys agree |
| AtomicLimits.UnmarkedBlobComesBack | sochdb-client/src/atomic_memory.rs:219-222 | such a run in which recovery puts an overwritten blob back |
| AtomicLimits.OlderBlobWinsIff | sochdb-client/src/atomic_memory.rs:411-450 | of two unfinished writes of a blob with successive ids the older one wins iff the second id is 10, 100, 1000 and so on |
| AtomicLimits.TenIsReplayedBeforeNine | sochdb-client/src/atomic_memory.rs:411-450 | unfinished writes 9 and 10 leave, after recovery, the value of write 9 |
| AtomicLimits.SkippedRecoveryTearsEdge | sochdb-client/src/atomic_memory.rs:312-344 | such a run leaves an edge without its index entry for good |
| EdgeClashes.SlashesShareEdgeKey | sochdb-client/src/atomic_memory.rs:320-324 | identifiers with slashes let two edges share an edge key |
| EdgeClashes.SlashesShareIndexKey | sochdb-client/src/atomic_memory.rs:338-342 | and let two edges share an index key |
| EdgeClashes.SlashesMixKinds | sochdb-client/src/atomic_memory.rs:320-342 | a slash in a namespace lets the edge key of one edge be the index key of another |
| EdgeClashes.CreateThenDeleteIff | sochdb-client/src/atomic_memory.rs:312-369 | for all identifiers, after creating one edge and deleting another the first agrees iff the deletion takes both its keys or neither |
| EdgeClashes.CreateThenCreateIff | sochdb-client/src/atomic_memory.rs:312-344 | for all identifiers, after creating both the first agrees iff the second did not put its edge, or another source, under the index key of the first |
| EdgeClashes.EdgesStayInStepIff | sochdb-client/src/atomic_memory.rs:312-369 | any set of edges stays in step with its index under every sequence of operations iff its edges are compatible two by two |
| EdgeClashes.SlashFreeEdgesStay | sochdb-client/src/atomic_memory.rs:312-369 | edges whose identifiers have no slash always stay in step |
| Streams.ScanListsStream | sochdb-client/src/checkpoint.rs:416-439 | a prefix scan over numbered keys lists them in number order, complete |
| Streams.StreamAppend | sochdb-client/src/checkpoint.rs:331-363 | storing a larger number appends to the stream |
| Streams.StreamSuffix | sochdb-client/src/checkpoint.rs:538-548 | without the keys of its first records a stream is the rest of it |
| Streams.LastSlotIff | sochdb-client/src/checkpoint.rs:365-377 | the last scanned key holds a number iff no larger one is stored |
| Checkpoints.CheckpointStore.GetRun | sochdb-client/src/checkpoint.rs:468-477 | the stored metadata, none if absent, a serialization error if unreadable, a storage error iff refused |
| Checkpoints.CheckpointStore.CreateRun | sochdb-client/src/checkpoint.rs:441-466 | stores and returns metadata with the given workflow, parameters and time, running and with zero counters, iff not refused |
| Checkpoints.CheckpointStore.UpdateRunStatus | sochdb-client/src/checkpoint.rs:479-491 | changes only status and time of a readable run, accepts a missing one silently |
| Checkpoints.CheckpointStore.SaveCheckpoint | sochdb-client/src/checkpoint.rs:331-363 | counter first, then the record under the next number; returns the given identifiers, time and metadata with the size of the state; a failure after the first step uses the number up; each error iff its cause |
| Checkpoints.CheckpointStore.AppendEvent | sochdb-client/src/checkpoint.rs:493-504 | the same for events, with the caller's number and time replaced |
| Checkpoints.CheckpointStore.LoadCheckpoint | sochdb-client/src/checkpoint.rs:365-377 | the last entry of the node's scan |
| Checkpoints.CheckpointStore.LoadCheckpointAt | sochdb-client/src/checkpoint.rs:379-393 | the record under the number's key |
| Checkpoints.CheckpointStore.CollectMetas | sochdb-client/src/checkpoint.rs:395-414 | the metadata of every entry in order, an error iff some entry is unreadable |
| Checkpoints.CheckpointStore.ListCheckpoints | sochdb-client/src/checkpoint.rs:395-414 | the listing of every node of the run |
| Checkpoints.CheckpointStore.ListNodeCheckpoints | sochdb-client/src/checkpoint.rs:416-439 | the listing of one node |
| Checkpoints.CheckpointStore.CollectEvents | sochdb-client/src/checkpoint.rs:512-530 | the first events above a number, stopping at the limit without reading on |
| Checkpoints.CheckpointStore.GetEvents | sochdb-client/src/checkpoint.rs:506-531 | that selection over the run's event scan, from 0 by default |
| Checkpoints.CheckpointStore.DeleteUnder | sochdb-client/src/checkpoint.rs:538-548 | deletes what a prefix scan lists, in order, up to a refusal |
| Checkpoints.CheckpointStore.DeleteRun | sochdb-client/src/checkpoint.rs:533-555 | checkpoints, then events, then metadata; true iff the run existed; a failure is a cut of those steps |
| CheckpointKeys.KindsApart | sochdb-client/src/checkpoint.rs:246-272 | metadata, checkpoint and event keys of a run never meet |
| CheckpointKeys.UnderNode | sochdb-client/src/checkpoint.rs:258-260 | a filed record under a node's prefix is a checkpoint of that run and node |
| CheckpointKeys.KeyTexts | sochdb-client/src/checkpoint.rs:246-272 | the keys of a run, a checkpoint and an event, as they are printed |
| CheckpointRuns.CallKeepsGood | sochdb-client/src/checkpoint.rs:331-555 | every call cut anywhere keeps each record under its own key and at or below its run's counter |
| CheckpointRuns.DeletionIsExact | sochdb-client/src/checkpoint.rs:533-555 | a complete deletion removes exactly the keys of the run |
| CheckpointRuns.DeletionRestarts | sochdb-client/src/checkpoint.rs:533-555 | a deletion cut anywhere can be run again and reaches the store of an uncut one |
| CheckpointRuns.OwnsIsOwner | sochdb-client/src/checkpoint.rs:246-272 | the keys of a run are exactly the keys of its own records |
| CheckpointDeletion.UnderDeletion | sochdb-client/src/checkpoint.rs:533-555 | along a deletion the keys under any prefix of the run go in scan order, all of them |
| CheckpointDeletion.CutDeletionKeepsNewest | sochdb-client/src/checkpoint.rs:533-555 | a deletion cut anywhere leaves every node and event log its newest records |
| CheckpointDeletion.DeletionOrder | sochdb-client/src/checkpoint.rs:533-555 | in a deletion cut anywhere no event is gone before every checkpoint, and the metadata goes last |
| CheckpointDeletion.CompleteDeletionEmpties | sochdb-client/src/checkpoint.rs:533-555 | a complete deletion removes the whole of every stream of the run |
| CheckpointHistory.StoreHoldsHistory | sochdb-client/src/checkpoint.rs:331-555 | over every run of calls, each cut anywhere, the store holds exactly the history built from the arguments of the calls |
| CheckpointHistory.EveryRunLoadsLatest | sochdb-client/src/checkpoint.rs:331-439 | from an empty store, after every run, load returns the last record of the history and listing the whole history |
| CheckpointHistory.LoadSeesLatest | sochdb-client/src/checkpoint.rs:365-377 | loading returns the last checkpoint of the history |
| CheckpointHistory.ListSeesHistory | sochdb-client/src/checkpoint.rs:416-439 | listing a node describes its whole history in order, with the size of each state |
| CheckpointHistory.LoadAtSeesNumber | sochdb-client/src/checkpoint.rs:379-393 | loading by number finds a checkpoint iff the history has it, and then that one |
| CheckpointHistory.ListCoversRun | sochdb-client/src/checkpoint.rs:395-414 | listing a run names exactly its stored checkpoints |
| CheckpointHistory.EventsSeeHistory | sochdb-client/src/checkpoint.rs:506-531 | reading events returns the first ones above a number, in order |
| CheckpointHistory.PagingReadsLog | sochdb-client/src/checkpoint.rs:506-531 | reading page after page from the store ends, fails nowhere and joins to the log above the start |
| CheckpointHistory.CountersMove | sochdb-client/src/checkpoint.rs:281-327 | each call moves at most its own counter, by one |
| CheckpointHistory.CountersNeverFall | sochdb-client/src/checkpoint.rs:281-327 | counters never fall while the run's metadata is kept |
| CheckpointHistory.NumbersNeverReused | sochdb-client/src/checkpoint.rs:281-299 | a later save or append gets a larger number, even after one that was cut |
| CheckpointContents.HistoryIsGiven | sochdb-client/src/checkpoint.rs:331-504 | the history is what the completed saves, or appends, were asked to store, without the first ones that deletions took |
| CheckpointContents.EveryRunReturnsGiven | sochdb-client/src/checkpoint.rs:331-439 | from an empty store, after every run, load returns the state, metadata and time of the last completed save, and the listing describes all that are left |
| CheckpointContents.LoadAtReturnsGiven | sochdb-client/src/checkpoint.rs:379-393 | loading by number returns only what some completed save of the node was given |
| CheckpointContents.EveryRunReturnsEvents | sochdb-client/src/checkpoint.rs:493-531 | reading the events returns the types, nodes, payloads and times that the appends were given, in order |
| CheckpointContents.GetRunReturns | sochdb-client/src/checkpoint.rs:441-555 | over every run of calls, each cut anywhere, getting a run returns exactly the metadata that the calls made |
| CheckpointContents.RunKeepsWhatItWasGiven | sochdb-client/src/checkpoint.rs:281-504 | a run keeps its workflow, parameters and creation time; its status is the last one set and its counters count the saves and appends |
| EventPages.NewerIsSuffix | sochdb-client/src/checkpoint.rs:512-530 | the events above a number are a suffix of the log |
| EventPages.SelectFailsIff | sochdb-client/src/checkpoint.rs:512-530 | a read fails iff it meets an unreadable entry before its page is full |
| EventPages.SelectAdvances | sochdb-client/src/checkpoint.rs:512-530 | in any store a page that is not empty ends above its start and leaves fewer events to read |
| EventPages.PagingReadsAll | sochdb-client/src/checkpoint.rs:506-531 | the pages read from an ordered listing join to every newer event, once |
| CheckpointLimits.LoadedIffLargest | sochdb-client/src/checkpoint.rs:365-377 | a stored checkpoint is what load returns iff its node has no larger number |
| CheckpointLimits.SavedIsLoadedIff | sochdb-client/src/checkpoint.rs:331-377 | a save is seen by the next load iff the counter has not fallen behind the stored numbers |
| CheckpointLimits.RecreatedRunLoadsStale | sochdb-client/src/checkpoint.rs:441-466 | creating an existing run again makes a later save invisible to load |
| CheckpointLimits.SlashMixesNodes | sochdb-client/src/checkpoint.rs:258-260 | a node id with a slash puts its checkpoints under another node |
| NodeIsolation.ScanHitsIff | sochdb-client/src/checkpoint.rs:246-272 | for any identifiers a node's scan hits a record iff the record's path is the node's or below it |
| NodeIsolation.OnlyOwnIff | sochdb-client/src/checkpoint.rs:416-439 | for any identifiers a read of a node sees only its own checkpoints iff no stored record intrudes, and all its own always |
| NodeIsolation.NodeIsolationIff | sochdb-client/src/checkpoint.rs:416-439 | with slash-free run ids a node is isolated iff no stored node id of the run continues it with a slash |
| NodeIsolation.ReadsAreOwnIff | sochdb-client/src/checkpoint.rs:365-439 | the listing names only the node iff its scan sees only its own, and then so does load |
| NodeIsolation.LoadIsOwnIff | sochdb-client/src/checkpoint.rs:365-377 | for any identifiers a load returns nothing or a checkpoint of the node iff every intruding record comes before some checkpoint of the node |
| NodeIsolation.TrailingSlashComesFirst | sochdb-client/src/checkpoint.rs:246-272 | the keys of a node id with a slash added at its end come before all keys of the node |
| HexState.RoundTrip | sochdb-client/src/checkpoint.rs:562-583 | every byte string is decoded from its hex text |
| HexState.EncodedText | sochdb-client/src/checkpoint.rs:562-571 | each byte is two lower-case digits, the high one first |
| HexState.DecodesIff | sochdb-client/src/checkpoint.rs:573-582 | decoding succeeds iff the text is even and every pair is two hex digits or a plus and a digit |
| HexState.DigitIs | sochdb-client/src/checkpoint.rs:573-582 | the value of a digit, in either case, is its place among the sixteen |
| HexState.DecodedBytes | sochdb-client/src/checkpoint.rs:573-582 | byte i is the value of characters 2i and 2i + 1, the high digit first |
| HexState.TextRoundTripIff | sochdb-client/src/checkpoint.rs:562-583 | encoding what was decoded gives the text back iff it is all lower-case digits |
| HexState.SeqTextDenotes | sochdb-client/src/checkpoint.rs:250-256 | the text of a 64-bit number is sixteen lower-case hexadecimal digits that denote it |
| Batch.BatchWriter.constructor | sochdb-client/src/batch.rs:130-141 | an empty buffer of size 1000 with streaming off and zero counters |
| Batch.BatchWriter.SetMaxBatchSize | sochdb-client/src/batch.rs:150-153 | sets the size, at least 1, and nothing else |
| Batch.BatchWriter.SetAutoCommit | sochdb-client/src/batch.rs:160-163 | sets the mode and nothing else |
| Batch.BatchWriter.ApplyBatch | sochdb-client/src/batch.rs:184-246 | applies the operations in order and counts exactly the refused ones |
| Batch.BatchWriter.FlushCurrentBatch | sochdb-client/src/batch.rs:174-258 | applies and empties the buffer; counters move iff the fsync succeeds |
| Batch.BatchWriter.Push | sochdb-client/src/batch.rs:261-348 | appends and flushes a full buffer in streaming mode, hiding a failed flush |
| Batch.BatchWriter.Execute | sochdb-client/src/batch.rs:364-379 | flushes the rest and returns each counter in its place iff its fsync succeeds |
| BatchRuns.StreamingIsInvisible | sochdb-client/src/batch.rs:150-379 | whatever sizes, modes and failed fsyncs, the tables end as if operations were applied one by one |
| BatchRuns.NothingBeforeExecute | sochdb-client/src/batch.rs:150-348 | with streaming off nothing is applied or counted before execute |
| BatchRuns.BufferIsBounded | sochdb-client/src/batch.rs:166-171 | in streaming mode the buffer stays below the batch size |
| BatchRuns.ChunksPartition | sochdb-client/src/batch.rs:174-258 | every submitted operation is in exactly one chunk, in order, or still buffered |
| BatchRuns.CountersCoverSyncedChunks | sochdb-client/src/batch.rs:249-255 | the counters are the totals of exactly the chunks whose fsync succeeded |
| BatchRuns.StreamingCounts | sochdb-client/src/batch.rs:364-379 | with good fsyncs all n operations are counted, in n / K chunks rounded up |
| BatchRuns.CountsAllIffSynced | sochdb-client/src/batch.rs:356-358 | the counters account for everything submitted iff every fsync succeeded |
| BatchCalls.RowOfHoldsLast | sochdb-client/src/batch.rs:188-191 | a row holds for each name the last value paired with it |
| BatchCalls.SliceHoldsLast | sochdb-client/src/batch.rs:200-207 | a row from a slice holds field i with value i iff that is present |
| BatchCalls.CallsMade | sochdb-client/src/batch.rs:184-246 | on any engine the operations make one call each, unless they fail, in order and with their own kind, table, key and row; the tables result from these calls |
| BatchCalls.FailuresAreExact | sochdb-client/src/batch.rs:196-212 | the failures are exactly the slices for tables without a schema |
| BatchCalls.ExecutedCalls | sochdb-client/src/batch.rs:150-379 | over every run of the writer the calls made are those of the submitted operations |
| GroupCommit.GroupCommitBuffer.Enqueue | sochdb-client/src/batch.rs:465-483 | queues under the current batch and opens the next at the target size; returns the id after that |
| GroupCommit.GroupCommitBuffer.AfterWait | sochdb-client/src/batch.rs:486-493 | a timeout opens the next batch |
| GroupCommit.GroupCommitBuffer.Flush | sochdb-client/src/batch.rs:497-509 | marks and clears every queued commit and opens the next batch |
| GroupCommit.ScheduleKeepsOrder | sochdb-client/src/batch.rs:465-509 | over every schedule batch ids never fall, the queue is ordered, and later flushes clear strictly larger ids |
| GroupCommit.BatchIdCounts | sochdb-client/src/batch.rs:465-509 | over every schedule the batch id moves once per flush, timeout and submission at the target size |
| GroupCommit.EachOperationOnce | sochdb-client/src/batch.rs:465-509 | what flushes cleared, then what is queued, is what was submitted, in order |
| GroupCommit.ClearedOnReturnIff | sochdb-client/src/batch.rs:465-509 | a returning submitter finds its operation cleared iff a flush ran since it entered; it reports a timeout iff its timer ran out before any flush, and without one it is cleared |
| HashJoin.RowsOfExact | sochdb-bench/src/h2o_main.rs:194-197 | the rows filed under a key are exactly the rows holding it, ascending |
| HashJoin.BuildIndex | sochdb-bench/src/h2o_main.rs:194-197 | the index has exactly the column's keys, each with exactly its rows |
| HashJoin.InnerCountIsPairs | sochdb-bench/src/h2o_main.rs:474-483 | the sum of matches per row is the number of matching row pairs |
| HashJoin.InnerJoin | sochdb-bench/src/h2o_main.rs:474-483 | counts the matching row pairs of a nested loop |
| HashJoin.LeftJoin | sochdb-bench/src/h2o_main.rs:496-507 | counts the matching row pairs and each unmatched left row once |
| Aggregation.GroupFold | sochdb-bench/src/h2o_main.rs:322-329 | one entry per key, holding the fold of exactly that key's rows |
| Aggregation.GroupsAddUp | sochdb-bench/src/h2o_main.rs:340-350 | for any lawful sum the sums of groups add up to the sum of their rows |
| Aggregation.SumsWrap | sochdb-bench/src/h2o_main.rs:340-375 | the totals of a group are the wrapped integer sums, the real sum and the number of its rows |
| Aggregation.SumsAreTrueIff | sochdb-bench/src/h2o_main.rs:340-375 | a wrapping integer sum of a group is the true one iff that fits in 64 bits |
| Aggregation.TotalsBy | sochdb-bench/src/h2o_main.rs:352-376 | the three sums and the count per group are those of its own rows, and together those of the table |
| Aggregation.FoldIsRange | sochdb-bench/src/h2o_main.rs:402-411 | the extreme seeds give the true maximum and minimum of a nonempty group |
| Aggregation.RangeBy | sochdb-bench/src/h2o_main.rs:402-411 | per group the largest first and smallest second column of its rows |
| TopTwo.SortDescSorts | sochdb-bench/src/h2o_main.rs:421-422 | sorting gives a descending arrangement of exactly the values |
| TopTwo.TopAfter | sochdb-bench/src/h2o_main.rs:416-424 | the two largest after a value depend only on the two largest before it |
| TopTwo.FoldHolds | sochdb-bench/src/h2o_main.rs:413-424 | after every step a buffer has at most three of its group's values, with the same two largest |
| TopTwo.LargestTwo | sochdb-bench/src/h2o_main.rs:413-430 | each buffer contains its group's two largest values as a multiset; the row count is the sum of min(size, 2) |
| RateLimiter.Limiter.Check | examples/python/security_qa_triage.py:131-150 | prunes, accepts iff fewer than the maximum are inside the window, records only accepted times, returns what remains |
| RateLimiter.RecentCounts | examples/python/security_qa_triage.py:139-142 | pruning keeps exactly the times inside the window |
| RateLimiter.PruningIsInvisible | examples/python/security_qa_triage.py:138-142 | stored and all accepted times agree inside every later window |
| RateLimiter.DecisionsAgree | examples/python/security_qa_triage.py:131-150 | every request is accepted iff fewer than the maximum of all accepted ones are inside the window |
| RateLimiter.UsersAreApart | examples/python/security_qa_triage.py:131-150 | what is stored for a user depends on that user's requests alone |
| RateLimiter.AcceptsAsReference | examples/python/security_qa_triage.py:131-150 | over every run of all users the pruning limiter accepts exactly what the reference accepts |
| RateLimiter.WindowBound | examples/python/security_qa_triage.py:131-150 | over every run of all users any max + 1 successive requests the limiter accepts from a user span at least the window |
| Codecs.WordRoundTrip | sochdb-core/src/key.rs:42-57 | a little-endian word is read back |
| Codecs.BytesRoundTrip | sochdb-core/src/key.rs:42-57 | bytes are written back |
| Codecs.LittleEndian | sochdb-core/src/key.rs:42-57 | byte i of a word has weight 256 to the power i |
| Codecs.TemporalRoundTrip | sochdb-core/src/key.rs:42-57 | a temporal key is decoded from its bytes, whatever follows |
| Codecs.TemporalReads | sochdb-core/src/key.rs:49-57 | decoding fails iff fewer than 24 bytes, and encodes back to the bytes read |
| Codecs.TemporalLayout | sochdb-core/src/key.rs:42-48 | the timestamp is in bytes 0 to 7 and the edge in bytes 8 to 23 |
| Codecs.CausalRoundTrip | sochdb-core/src/key.rs:89-104 | a causal key is decoded from its bytes |
| Codecs.CausalReads | sochdb-core/src/key.rs:96-104 | decoding fails iff fewer than 32 bytes, and encodes back to the bytes read |
| Codecs.CausalLayout | sochdb-core/src/key.rs:89-95 | the parent is in bytes 0 to 15 and the child in bytes 16 to 31 |
| Codecs.KeysAreInjective | sochdb-core/src/key.rs:42-104 | both encodings are equal only on equal keys |
| Codecs.CompareIsTotalOrder | sochdb-core/src/key.rs:66-72 | comparison is a total order by time and then edge, equal only on equal keys |
| Columns.ToVecIsPrefix | sochdb-client/src/column_access.rs:80-94 | exactly the first min(count, len / 8) indices have values, and these are the list |
| Columns.ColumnRoundTrip | sochdb-client/src/column_access.rs:92-94 | decoding an encoded column cut at any byte gives the whole values |
| Columns.ColumnBytes | sochdb-client/src/column_access.rs:80-94 | encoding the decoded list gives back the bytes read |
| Columns.FoldColumnIsFold | sochdb-client/src/column_access.rs:97-109 | folding over the indices is folding the decoded list |
| IntColumns.Int64IsExact | sochdb-client/src/column_access.rs:88-88 | the two's complement layout loses nothing either way |
| IntColumns.TwosComplement | sochdb-client/src/column_access.rs:88-88 | the stored word is the value modulo 2^64 |
| IntColumns.IntColumnRoundTrip | sochdb-client/src/column_access.rs:80-94 | integer columns are decoded from their encoding, up to the last whole value |
| IntColumns.IntColumnBytes | sochdb-client/src/column_access.rs:80-94 | integer columns encode back to the bytes read |
| IntColumns.SumIsTotalIff | sochdb-client/src/column_access.rs:97-99 | the sum is the true total modulo 2^64, and equal to it iff that total fits in 64 bits |
| IntColumns.MinMaxAgree | sochdb-client/src/column_access.rs:102-109 | minimum and maximum are those of the decoded list, nothing iff it is empty |

## Left out

- JSON text and its parser: records are stored as values, so serialization of a record cannot fail; bytes that are no record are modelled as unreadable values.
- Storage engine, fsync and durability: one put or delete is a single step, and scans list keys in ascending byte order.
- Wall clock: times are parameters of the calls; a cleanup age whose milliseconds overflow 64 bits is not modelled, nor is the wrap-around of intent ids.
- Concurrent writers, savers or recoveries on one store: runs are sequential.
- AtomicRuns.CrashAtomicity: takes a status update of a write that is refused without a crash as the end of that writer; AtomicLimits.StillAtomicIff says exactly what happens otherwise.
- Checkpoints.CheckpointStore.SaveCheckpoint: takes counter overflow as an error, where a build with overflow checks panics and one without wraps to 0.
- Checkpoints.CheckpointStore.AppendEvent: takes counter overflow as an error in the same way.
- Batch.BatchWriter.ApplyBatch: the tables are an abstract engine; row contents, schemas and durations are not modelled.
- IntColumns.SumIsTotalIff: models the build without overflow checks; with them a partial overflow stops the program.
- Aggregation.TotalsBy: models f64 sums as exact and i64 sums as wrapping, as a build without overflow checks does; one record carries the columns that each query keeps a part of.
- TopTwo.LargestTwo: values are real numbers, so not-a-number, on which the sort panics, does not occur; buffers are values in a map, so in-place sorting is modelled by its result.
- HexState.DecodesIff: texts are byte strings; a slice inside a multi-byte character, which panics, is not modelled.
- groupby_q6 and groupby_q9, averages, the optimal batch size formula and other floating-point results: rounding is their point.
- CSV loading, report printing, query builders, the SQL layer, vector indexes, servers and the language bindings: outside this core or only easy members.
