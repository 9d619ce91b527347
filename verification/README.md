# ChakraDB: a verified model

This project models the parts of ChakraDB whose correctness is not visible from
any one function: the multi-version table with its two-phase compaction, the
write-ahead log with checkpoints and recovery, group commit, transactions, the
graph algorithms over CSR, zonemap pruning, and the exact arithmetic of decimals
and dates. Every theorem quantifies over all inputs, all runs or all reachable
states; conditions the code itself imposes appear as `requires` clauses.

`dafny verify dfyconfig.toml` checks everything.

## How it is laid out

| area | modules |
|---|---|
| shared | `Wrappers`, `Bags` (multiset sums), `Sorting`, `Values` |
| table | `Mvcc` (table as a value and its history), `Reads`, `Compaction`, `Protocol` (all interleavings), `LockedWrites` (inside a write), `TableSteps` (what each step achieves), `PartLookup`, `Bloom` |
| table, as code | `DeleteVectors`, `L0Buffers`, `Clocks`, `MergeLoops`, `Tables` |
| durability | `Storage` (scripts of I/O calls), `StoreCalls` (what its calls promise), `Replaying`, `Recovery`, `Checkpointing`, `Housekeeping` (what a checkpoint writes and removes), `CrashSafety`, `GroupCommit`, `Truncations` (inside a truncation), `Codec`, `WalBytes`, `Layouts`, `Checksums`, `Utf8Text`, `MemFiles` |
| transactions | `Txn` |
| graph | `Graph`, `Csr`, `Scc`, `Dijkstra`, `UnionFind`, `KCore` |
| SQL and values | `Predicates` (evaluation and filters), `Zonemap` (pruning), `Arithmetic`, `Decimals`, `Numerals` (decimal text), `Dates`, `DateText` |

The specification of the table is a plain history: at snapshot `s` apply every
operation stamped at most `s` (`Mvcc.At`). A table agrees with a history when,
from the garbage-collection floor up, the multiset of rows each snapshot sees is
exactly the history's state, each row once (`Mvcc.Inv`). `Protocol` is a step
system over one table in which writes, seals, pins and any number of merges
interleave; a merge takes many steps of its own (horizon, selection, id, start
stamp, one deletion-vector capture per source, install). There a write is one step;
`LockedWrites` takes it apart (lookup, stamp, tombstone, insert, under the lock) and
lets everything that needs no lock in between. The durability model gives each
operation as the list of I/O calls it makes; a crash cuts that list anywhere and
every file falls back to its last synced image. What callers were promised is a plain
map from keys to rows per table, computed from the calls alone. Group commit is a step
system over any number of threads; `Truncations` opens up its truncation step in the
same way.

## What was found in the code

Each is stated with the exact condition under which the code is right, and with
an input, or a whole family of inputs, on which it is not.

- `RaceExact`, `RaceReached`, `LateTombstone`, `LostDelete` (compaction): a merge reads
  its start stamp and captures its parts without the table lock. If it does both while
  a write holds its stamp but not yet its tombstone, and captures the part of the old
  version, the old version comes back at the install. This is the only interleaving
  inside a write that can make reads differ from the history, and it is reachable.
- `MissingTable`, `FailedCommitShows` (commit): a batch naming an unknown table fails
  and logs nothing, but is harmless only if every write before it deletes an absent key.
- `ColdCheckpointLosesAll` (checkpoint): checkpointing a store that was opened but
  not warmed replaces every table by an empty one; on a warmed store `CheckpointDone` holds.
- `MoveExact`, `ResetExact`, `TruncationExact` (group commit): a truncation and the
  committers that go on inside it lose acknowledged bytes in three ways and no other: a
  committer's sync ends while the file is empty and bytes beyond the truncation point
  were or are about to be called durable (`SyncWhileEmptied`); the new length is stored
  while the old watermark, read in the new log, covers bytes not yet durable
  (`FlushWhileStored`); or at the reset a leader at work has read a written length
  beyond what is left (`TruncateUnderSync`).
- `CheckExact`, `UntouchedPasses`, `PassedUnchanged`, `NanAbortsAndZeroPasses`
  (transactions): the conflict check compares rows with `f64` equality. A written key
  whose row holds a NaN always aborts the transaction, and a concurrent change of the
  sign of a zero goes unseen; the check means "unchanged" exactly for rows without either.
- `RescaleDown`, `RescaleUndoes`, `UndoCanFail` (decimals): adding the half unit
  can overflow `i128`; then rounding, and undoing a rescale, go wrong.
- `ParseRendered` (decimals): the least `i128` and scales above 38 do not come back.
- `ParseExact`, `SecondSign`, `SecondSignRead` (decimals): besides numerals the parser
  takes texts with a second sign, behind the first or behind the point: `--5` is five and
  `.-5` minus five hundredths.
- `PrecisionExact` (decimals): the least `i128` passes every precision check, because its
  absolute value wraps around; every other number passes exactly if it has the digits.
- `IntegersDivide` (arithmetic): dividing the least 64-bit integer by minus one stops the
  program; every other division is that towards zero, or NULL for zero.
- `AcceptedTrip` (dates): days 29 to 31 are accepted in every month.
- `DateTrip`, `TimestampTrip`, `ParseYmdExact` (dates): a rendered date or timestamp is read
  back exactly for the years 0 to 262143; years below zero, which the bounds allow, are never
  read. `TimeStrays`: a time can lie outside its day, by a signed fraction or a second sixty,
  but by less than a second (`TimeRange`), so that the checked arithmetic never fails.
- `PartExact`, `PruningExact` (zonemaps): pruning a part by `=`, `<`, `<=`, `>` or `>=` is
  right if and only if two things are not in it. One is a value equal to the literal
  under SQL and beyond it in the total order: integers beyond 2^53, or the two zeros
  (`CollidesExactly`, `LargeIntegersCollide`, `NegativeZeroCollides`). The other is a
  turn, where the comparison with a decimal literal changes between exact and floating
  point, at which the order steps back and leaves a row behind (`MixedRoutesLose`). A
  column has two turns at most, and `TurnsExact` computes them.
- `ProbeExact`, `MixedProbe` (Bloom filter): an integer probe of a decimal key column is
  rejected although the order calls the keys equal; probes of the key's own type never are.
- `ValueTrip`, `RecordTrip`, `FrameTrip`, `ReplayCut`, `LongTextLost` (codec): lengths are
  cut to 32 bits. A value decodes back exactly when its text is shorter than 4 GiB, a
  frame exactly when its payload is, and a log replays right, cut anywhere, exactly when
  every record fits field by field and encodes to less than 4 GiB; a row of two texts of
  3 GiB does only the first.

## Model

| member | source | states |
|---|---|---|
| `Values.KeyCmpEqual` | src/value.rs:251-275 | the key order is antisymmetric: equal in the order means the same key |
| `Zonemap.KeyOrderIsTotal` | src/value.rs:251-275 | on values of one type and scale, as a key column holds, the key order is `total_cmp` itself |
| `Predicates.KeyColumnOrder` | src/value.rs:251-275 | and so on the values of any one column |
| `Values.KeyLeTransitive` | src/value.rs:251-275 | the key order is transitive, so sorting and binary search by it make sense |
| `Values.FirstByteDecides` | src/value.rs:233-236 | texts compare by the first byte that differs, a proper prefix first |
| `Utf8Text.TextsByCodePoint` | src/value.rs:233-236 | which is the order of their code points |
| `Mvcc.CollapseInvisible` | src/part.rs:58-74 | collapsing per-row stamps changes no visibility test at or above the horizon, and stays between the old least and greatest stamp |
| `Mvcc.PartOfOk` | src/part.rs:118-164 | sorted versions become a legal part that holds exactly those versions |
| `Mvcc.LocateShows` | src/table.rs:555-582 | newest-tier-first lookup finds a key exactly when some tier shows it, and finds the visible row |
| `Mvcc.LocatedIsLive` | src/table.rs:584-595 | whatever a current lookup returns carries no tombstone yet, so a write under the lock never meets a conflict |
| `Mvcc.WriteRows` | src/table.rs:244-308 | a write is invisible below its stamp, and from its stamp on every snapshot sees the history with that operation added |
| `Mvcc.WriteKeepsInv` | src/table.rs:164-308 | every write keeps every snapshot's agreement with the history |
| `Mvcc.SealInvisible` | src/l0.rs:153-183 | sealing changes what no snapshot whatever sees |
| `Mvcc.SealKeepsInv` | src/table.rs:597-617 | sealing keeps the invariant |
| `Reads.FastPath` | src/part.rs:307-331 | the whole-batch fast path returns what testing every row would return |
| `Reads.RangeIsHalfOpen` | src/table.rs:333-357 | a key range holds its lower end and not its upper one |
| `Reads.SkipExact` | src/table.rs:338-347 | a part is skipped exactly when it is visible whole and all its keys are below the range or all at or above its end |
| `Reads.SkipIsSound` | src/table.rs:338-347 | a fully visible part outside the key range has no row in it |
| `Reads.RangeIsFilteredScan` | src/table.rs:338-357 | a key-range scan is the full scan filtered by the range |
| `Reads.ReadsAreHistory` | src/table.rs:310-420 | get, scan, row count and key-range scan all equal the history's state at every snapshot from the floor up |
| `Reads.OneVisibleVersion` | src/part.rs:231-250 | no snapshot sees two versions of one key, in whichever tiers they are |
| `Compaction.ReplayedOne` | src/compaction.rs:192-207 | replay reproduces a row's deletion if and only if a tombstone the capture missed is stamped after the merge began |
| `Compaction.LateTombstone` | src/compaction.rs:179-219 | if a tombstone lands after its stamp is out of date, each snapshot from the horizon up gets the row back from the install exactly when the part was merged and the stamp is not after the merge's start; otherwise the install stays invisible |
| `Compaction.LostDelete` | src/compaction.rs:192-207 | a one-row part on which that happens |
| `Compaction.ReplayedDeletion` | src/compaction.rs:107-207 | after replay each merged row carries the deletion its source row carries now |
| `Compaction.MergedShows` | src/compaction.rs:107-207 | the merged part shows every snapshot from the horizon up what its sources show now |
| `Compaction.InstallInvisible` | src/compaction.rs:179-219 | installing a plan leaves the rows of every snapshot from the horizon up unchanged |
| `TableSteps.StepChanges` | src/table.rs:164-308 | a successful call leaves the present rows as it promises and the clock one further; no other step changes them |
| `TableSteps.SealDrains` | src/table.rs:600-617 | a seal moves exactly the buffered versions into one new part in front |
| `TableSteps.BufferBounded` | src/table.rs:588-598 | the buffer stays below the seal threshold, and only a call that reaches it adds a part |
| `TableSteps.MergeReclaims` | src/compaction.rs:119-141 | a merge keeps each version some snapshot from the horizon up could see, as often as it was there, and no other |
| `TableSteps.InstallReplaces` | src/compaction.rs:179-219 | an install puts the merged part in the place of its sources, or does nothing if one is gone |
| `TableSteps.CollapseExact` | src/part.rs:58-74 | stamps collapse exactly when no snapshot from the horizon up can tell two of them apart |
| `TableSteps.FullyVisibleExact` | src/part.rs:307-313 | the test for reading a part whole holds exactly when the snapshot sees every row, if the greatest stamp it knows is one of a row |
| `TableSteps.PinThenRelease` | src/csn.rs:82-101 | releasing a pin undoes pinning |
| `Protocol.ExecuteOutcome` | src/table.rs:164-308 | insert, upsert, update and delete answer as the current state says they must, and a failed call changes nothing |
| `Protocol.ExecuteKeepsInv` | src/table.rs:164-308 | every call keeps the invariant with the history extended exactly when it succeeded |
| `Protocol.InstallUnseen` | src/compaction.rs:179-219 | in any good state, whatever happened since the captures, no snapshot from the horizon up sees the install; a stale plan changes nothing |
| `Protocol.LateDelete` | src/table.rs:452-475 | in any good state, a tombstone that lands after its stamp is out of date comes back at an install exactly when its part is a source, none is gone, and the stamp is not after the merge's start |
| `Protocol.StepKeepsGood` | src/table.rs:452-475 | every step of writers, sealer, readers and merges keeps the invariant of the step system |
| `Protocol.ReachableGood` | src/table.rs:428-475 | so every state of every run satisfies it |
| `Protocol.PinnedReadsStable` | src/csn.rs:73-109 | a pinned snapshot reads the same rows for its whole life, in every run |
| `Protocol.HorizonBelowPins` | src/csn.rs:82-109 | a horizon, once handed out, stays at or below every pin alive at any later time and every later horizon |
| `LockedWrites.MoveKeepsFine` | src/table.rs:247-308 | whatever needs no table lock may happen between the lookup, the stamp, the tombstone and the insert of any write: with the write completed the state stays a good one, unless the move is the race |
| `LockedWrites.CalmReads` | src/table.rs:310-420 | in every run without the race, whenever the lock is free every snapshot from the floor up reads what the history says |
| `LockedWrites.PinnedThroughWrites` | src/csn.rs:73-109 | and a pinned snapshot, also one pinned inside a write, reads the same rows whenever it can read |
| `LockedWrites.RaceExact` | src/table.rs:452-475 | a capture inside an insert, upsert, update or delete can lead to wrong reads if and only if it is the race: the write has its stamp and still has to strike a version in the captured part, the merge began at or after that stamp, and all its sources are there |
| `LockedWrites.RaceReached` | src/compaction.rs:107-131 | a run from the empty table that ends in the race, and in wrong reads |
| `DeleteVectors.BinarySearch` | src/delete_vector.rs:62-80 | finds the entry of an ordinal, or the only place it can be inserted |
| `DeleteVectors.DeleteVector.Mark` | src/delete_vector.rs:62-72 | the first tombstone of a row wins; entries stay sorted and the stamp bounds exact |
| `DeleteVectors.DeleteVector.DeletedAt` | src/delete_vector.rs:75-80 | the recorded stamp, or never |
| `DeleteVectors.DeleteVector.IsIrrelevantTo` | src/delete_vector.rs:92-95 | the shortcut holds exactly when no tombstone can hide a row from the snapshot |
| `DeleteVectors.DeleteVector.EntriesAfter` | src/delete_vector.rs:129-135 | exactly the tombstones stamped later, sorted, each once |
| `L0Buffers.L0Buffer.Lookup` | src/l0.rs:96-112 | the indexed fast path and the backward walk give the newest version the snapshot sees |
| `L0Buffers.L0Buffer.Insert` | src/l0.rs:82-93 | appends a version and keeps the newest-version index right |
| `L0Buffers.L0Buffer.MarkDeleted` | src/l0.rs:115-122 | tombstones one entry unless it has one |
| `L0Buffers.L0Buffer.Seal` | src/l0.rs:153-183 | drains the buffer into a legal part holding exactly its versions |
| `L0Buffers.Unzip` | src/l0.rs:168-177 | the one-pass split into rows, stamps and tombstones builds the part of those versions |
| `Clocks.CsnGenerator.Allocate` | src/csn.rs:49-51 | stamps grow by one |
| `Clocks.CsnGenerator.SetFloor` | src/csn.rs:63-65 | the clock only moves up |
| `Clocks.CsnGenerator.Pin` | src/csn.rs:82-91 | a new pin is at the clock, at or above every horizon handed out |
| `Clocks.CsnGenerator.Release` | src/csn.rs:93-101 | one pin fewer, the entry gone with the last |
| `Clocks.CsnGenerator.GcHorizon` | src/csn.rs:106-109 | the least live pin or the clock; no live pin lies below it, then or later |
| `PartLookup.SearchKey` | src/part.rs:253-266 | binary search finds the key exactly when it is there |
| `PartLookup.EqualKeyRun` | src/part.rs:270-280 | the widened range is all rows of that key and no other |
| `PartLookup.FirstVisible` | src/part.rs:234-249 | the first visible version of the run is what a linear scan of the part finds |
| `PartLookup.Lookup` | src/part.rs:213-250 | the four-stage funnel finds a row exactly when a linear scan finds a visible one, and the same one; its first three misses mean the key is absent |
| `Bloom.BloomFilter.Insert` | src/bloom.rs:70-76 | sets the key's bits, clears none and sets no other, so no earlier key is lost and every set bit is some key's |
| `Bloom.BloomFilter.MaybeContains` | src/bloom.rs:80-89 | never rejects a key that was inserted; accepts exactly when each of the probe's bits is a bit of some inserted key |
| `Bloom.BloomFilter.BuildValues` | src/bloom.rs:51-57 | a filter built from keys covers every one of their seeds |
| `Bloom.SetBitSets` | src/bloom.rs:72-75 | after setting a bit, the bits set are that one and those set before |
| `Bloom.ProbeExact` | src/bloom.rs:80-89 | all of a probe's bits are set exactly when each is a bit of some key |
| `Bloom.Sized` | src/bloom.rs:27-37 | ten bits a key, at least one word, rounded up to words |
| `Bloom.SeedsTell` | src/bloom.rs:133-152 | two integers, floats or booleans have one seed only if they are one value |
| `Bloom.SeedValues` | src/bloom.rs:133-152 | texts hash by FNV-1a, decimals fold both words and the scale |
| `Bloom.SameTypeProbe` | src/bloom.rs:133-152 | a probe that equals a key in the order and has its type and scale is never rejected |
| `Bloom.MixedProbe` | src/bloom.rs:51-89 | the filter built from the decimal key 5.0 rejects the integer 5, which the order calls equal |
| `MergeLoops.CollectAll` | src/compaction.rs:119-141 | the nested loops collect exactly the rows not reclaimable at the horizon, with their origins |
| `MergeLoops.BuildMapping` | src/compaction.rs:150-162 | the mapping sends each kept row's origin to its place in the output, and nothing else |
| `MergeLoops.CollectOnce` | src/compaction.rs:119-162 | no source row is kept twice, so the mapping is well defined |
| `MergeLoops.BuildPlan` | src/compaction.rs:107-172 | phase one computes the specified plan |
| `MergeLoops.ReplaySource` | src/compaction.rs:196-206 | one source's later tombstones land on the right output rows |
| `MergeLoops.ReplayAll` | src/compaction.rs:192-207 | the replay loops compute the specified deletion vector |
| `MergeLoops.InstallPlan` | src/compaction.rs:179-219 | phase two computes the specified part list, or leaves it alone when a source is gone |
| `Tables.TableObject.Insert` | src/table.rs:164-177 | runs the specified step on buffer, parts and clock, and keeps agreement with the history |
| `Tables.TableObject.Upsert` | src/table.rs:263-281 | the same, replacing a live version if there is one |
| `Tables.TableObject.Update` | src/table.rs:284-296 | the same, failing when the key is absent |
| `Tables.TableObject.Delete` | src/table.rs:299-308 | the same, a tombstone only |
| `Tables.TableObject.Read` | src/table.rs:310-316 | a point read at any snapshot from the floor up is the history's value |
| `Tables.TableObject.SealNow` | src/table.rs:423-426 | seals as specified and keeps agreement with the history |
| `Tables.TableObject.ForceCompact` | src/table.rs:442-475 | an undisturbed merge of all parts keeps the history and raises the floor to the horizon |
| `Tables.TableObject.Probe` | src/part.rs:213-250 | one part of the table, through its filter and the four-stage funnel, is answered as by a linear scan |
| `Tables.TableObject.Find` | src/table.rs:555-582 | walks the tiers newest first, each part through the funnel, and returns the specified location |
| `Replaying.ReplayFromBase` | src/table.rs:503-526 | replaying a tail on checkpointed parts rebuilds a table that agrees with the whole history |
| `Replaying.ReplayIdempotent` | src/storage.rs:184-230 | whatever subset of the tail's tombstones the part files already hold, replay gives the very same table |
| `Recovery.AppendLoads` | src/persist.rs:186-199 | appending tombstones the log accounts for, once or again, keeps a part file loadable |
| `Recovery.OpenOk` | src/storage.rs:73-181 | reopening whatever a crash leaves of a recoverable disk restores the store's invariant |
| `Recovery.LogCrash` | src/wal.rs:245-300 | until the sync the log is what it was; from the sync on the whole record is in it, all entries or none |
| `Recovery.PartsUpdated` | src/storage.rs:585-612 | after phase one of a checkpoint every part is on disk exactly as in memory, whether written whole or appended to |
| `Checkpointing.CheckpointCrash` | src/storage.rs:572-635 | a crash after any number of a checkpoint's I/O calls leaves a disk that recovers the same acknowledged log |
| `Checkpointing.CheckpointDone` | src/storage.rs:572-635 | a completed checkpoint leaves the store settled on the same log, emptied |
| `StoreCalls.WriteExact` | src/storage.rs:457-511 | a write call that fails does nothing; one that succeeds takes the next stamp, leaves its table with the row put in or the key gone, every other table as it was, and logs one record with that one entry |
| `StoreCalls.CommitExact` | src/storage.rs:515-552 | a commit applies its writes up to the first unknown table; if there is none, the puts and the deletes of keys then present are, in order and with consecutive stamps, the one record logged, or nothing is if there are none |
| `StoreCalls.BatchIsOverride` | src/storage.rs:515-552 | applied one after another, the writes leave the rows overridden by the last write of each key |
| `StoreCalls.LogGrows` | src/wal.rs:245-300 | logging appends exactly that record and touches no other file, and the log is then durable unless the watermark lay beyond it |
| `CrashSafety.OpPromised` | src/storage.rs:457-635 | every operation logs exactly the entries its caller was promised, in two I/O calls, and leaves the rows promised; maintenance leaves all rows |
| `CrashSafety.CommitCrash` | src/storage.rs:515-552 | a crash inside a commit recovers, before the sync, the rows there were, and from then on those overridden by all its writes |
| `CrashSafety.OpCrash` | src/storage.rs:457-635 | a crash inside any operation recovers the log as it was before the second I/O call, and with exactly the entries promised from then on |
| `CrashSafety.AlwaysReopens` | src/storage.rs:73-181 | from any state of a run, reopening succeeds wherever in an operation the power failed |
| `CrashSafety.AcknowledgedSurvives` | src/storage.rs:73-230 | in every run of writes, commits, compactions and checkpoints, with crashes anywhere, point reads and scans return exactly the rows promised by the calls that completed and those already synced when the power failed; what is promised is computed from the calls alone |
| `Housekeeping.KnownPartWork` | src/storage.rs:592-609 | a part already on disk costs a checkpoint nothing if no tombstone is newer than the last one, and otherwise one append of exactly the newer ones |
| `Housekeeping.DeadFilesGone` | src/storage.rs:617-628 | a completed checkpoint leaves no file of a part the catalog no longer names |
| `Housekeeping.OnlyDeadRemoved` | src/storage.rs:617-628 | and removes no other |
| `CrashSafety.MissingTable` | src/storage.rs:515-552 | a commit naming an unknown table logs nothing, and leaves the store alone if and only if each write before it deletes a key that is not there |
| `CrashSafety.FailedCommitShows` | src/storage.rs:515-552 | a put before a write to an unknown table can be read although the commit failed and nothing is in the log |
| `CrashSafety.ColdCheckpointLosesAll` | src/storage.rs:572-612 | a checkpoint of a store never warmed loses every table |
| `GroupCommit.StepKeepsGood` | src/durability.rs:96-156 | every step of every committer keeps the invariant, and written, synced and watermark only grow; a truncation keeps it when no leader has read past what it leaves |
| `GroupCommit.CommitsAreDurable` | src/wal.rs:272-300 | in every run, truncations included while no leader has read past what is left: the watermark never passes the synced bytes, and every Ok of a commit begun since the last truncation is backed by a completed sync, aborted syncs included |
| `GroupCommit.OneSyncAtATime` | src/durability.rs:96-156 | at most one sync leader, if no truncation finds one at work |
| `GroupCommit.NeverStuck` | src/durability.rs:96-117 | while anyone is inside a commit someone can move: no wake-up is lost |
| `GroupCommit.OneSyncServesAll` | src/wal.rs:277-300 | a leader takes in all that is written, and after its sync exactly the waiters it covers are acknowledged by their next test, without a sync of their own |
| `GroupCommit.SyncReachesItsStart` | src/wal.rs:284-290 | a sync makes durable what the file held when it began, whatever is appended meanwhile, and takes nothing back |
| `GroupCommit.FailureElectsNext` | src/durability.rs:150-156 | a failed sync fails its leader alone; the next waiter not yet covered leads |
| `GroupCommit.TruncationExact` | src/wal.rs:312-334 | taking the truncation as one step, a commit can afterwards be acknowledged without its bytes being synced if and only if the truncation found a leader that had read a written length beyond the new one, whatever else is in flight |
| `GroupCommit.TruncateUnderSync` | src/durability.rs:133-149 | a state in which that is so |
| `Truncations.MoveKeepsFine` | src/wal.rs:312-334 | between the truncation's own steps every committer's step, and each of the truncation's, keeps whatever was acknowledged durable or checkpointed, unless it is one of two dangerous ones |
| `Truncations.MoveExact` | src/wal.rs:312-334 | a move inside a truncation can have a committer trust bytes that a crash would lose if and only if it is one of the two: a sync that ends while the file is empty, or storing the new length, each with more called durable than is kept |
| `Truncations.ResetExact` | src/durability.rs:141-149 | at the reset the condition is that no leader at work has read a length beyond what is left, before the truncation or during it |
| `Truncations.CalmTruncation` | src/wal.rs:312-334 | a truncation that meets none of the three turns a good state into a good one, and nothing acknowledged before or during it is ever out of reach |
| `Truncations.SyncWhileEmptied` | src/wal.rs:322-326 | a state in which a committer's sync loses six acknowledged bytes |
| `Truncations.FlushWhileStored` | src/wal.rs:327-333 | a state in which storing the length lets a flush be acknowledged without a sync |
| `Codec.UnLeLe` | src/codec.rs:62-74 | a fixed-width integer decodes to itself |
| `Codec.LeUnLe` | src/codec.rs:217-232 | any bytes are the encoding of what they decode to |
| `Codec.ValueTrip` | src/codec.rs:84-112 | a value decodes back to itself, leaving exactly the bytes after it, if and only if it fits: a text shorter than 4 GiB, numbers within their types |
| `Codec.RowTrip` | src/codec.rs:113-122 | a row decodes back to itself, leaving exactly the bytes after it, if and only if its values fit and are fewer than 2^32 |
| `Codec.LongTextLost` | src/codec.rs:75-81 | a text of 4 GiB or more does not decode back |
| `Codec.FrameTrip` | src/codec.rs:337-344 | a framed payload unframes to itself, leaving what follows, if and only if it is shorter than 4 GiB; a longer one comes back as its first bytes or not at all |
| `Codec.FrameCut` | src/codec.rs:350-366 | a frame is rejected as truncated wherever it is cut short of its end, if and only if its payload is shorter than 4 GiB |
| `Codec.UnframePrefix` | src/codec.rs:350-366 | bytes beyond a frame's end do not matter to it |
| `Checksums.CrcDetects` | src/codec.rs:18-29 | any damage within four consecutive bytes changes the checksum |
| `Checksums.DamageRejected` | src/codec.rs:355-370 | so a frame damaged like that in its payload, or anyhow in its checksum, is rejected |
| `Checksums.CheckValue` | src/codec.rs:18-29 | the checksum of the digits one to nine is the published value of CRC-32 |
| `Layouts.LeDigit` | src/codec.rs:62-69 | integers are little-endian |
| `Layouts.ValueLayout` | src/codec.rs:84-112 | tag bytes 0 to 5 and where the content of each kind of value stands |
| `Layouts.RowLayout` | src/codec.rs:113-122 | a row is its count and then its values in order |
| `Layouts.RecordLayout` | src/wal.rs:100-133 | record codes 1 to 5, then table, stamp and content |
| `Layouts.OpLayout` | src/wal.rs:119-130 | an operation of a transaction: table, stamp, 1 for a put or 2 for a delete, and the row or key |
| `Utf8Text.Utf8Exact` | src/codec.rs:264-267 | the decoder takes exactly the UTF-8 encodings of sequences of scalar values |
| `Codec.DecValueMore` | src/codec.rs:247-263 | a value decodes the same whatever bytes follow it |
| `Codec.Encoder.Uint` | src/codec.rs:62-69 | appends the little-endian bytes |
| `Codec.Encoder.Value` | src/codec.rs:84-112 | appends the value's encoding and nothing else |
| `Codec.Encoder.Row` | src/codec.rs:114-120 | appends the row's encoding and nothing else |
| `Codec.Decoder.TakeNext` | src/codec.rs:208-215 | takes the next bytes or fails as truncated |
| `Codec.Decoder.Value` | src/codec.rs:247-263 | answers and moves the cursor as the value decoder specifies, errors included |
| `Codec.Decoder.Row` | src/codec.rs:264-271 | the same for rows |
| `WalBytes.RecordTrip` | src/wal.rs:100-173 | a log record decodes back to itself, consuming exactly its bytes, if and only if it fits field by field |
| `WalBytes.PrefixDiffers` | src/wal.rs:132-173 | no proper prefix of a record's encoding decodes to the record |
| `WalBytes.ReplayBytes` | src/wal.rs:352-379 | the cursor loop computes the specified replay |
| `WalBytes.WholeFits` | src/wal.rs:352-379 | the count of whole frames is the largest that ends within the cut |
| `WalBytes.ReplayCut` | src/wal.rs:352-379 | a log cut at any byte replays to exactly the records whose frames fit whole, with their byte count, and reports a torn tail exactly off a frame boundary, if and only if every record fits field by field and encodes to less than 4 GiB |
| `WalBytes.ValidPrefixReplays` | src/wal.rs:352-379 | for any bytes, the valid prefix replays to the same records with no torn tail, and a torn tail is reported exactly when bytes are left over |
| `MemFiles.MemFile.Pwrite` | src/io.rs:250-266 | overwrites and zero-fills the live image, never the durable one |
| `MemFiles.MemFile.Sync` | src/io.rs:268-285 | after a sync the live image is what survives, also when the copy is skipped |
| `MemFiles.MemFile.Truncate` | src/io.rs:300-305 | resizes the live image only |
| `MemFiles.MemFile.Crash` | src/io.rs:225-228 | the live image falls back to the last sync |
| `MemFiles.MemFile.Pread` | src/io.rs:237-248 | returns the bytes there are |
| `Txn.Transaction.Begin` | src/sql/txn.rs:62-72 | remembers the committed state of every table at the pinned snapshot |
| `Txn.Transaction.Materialize` | src/sql/txn.rs:75-94 | copies a table at the begin snapshot into the overlay once, whatever was committed since |
| `Txn.BulkLoadParts` | src/table.rs:212-222 | a bulk load makes parts of at most 131072 rows and no more of them than needed |
| `Txn.BulkLoadDisplays` | src/table.rs:190-224 | a bulk load into an empty table shows exactly the loaded rows |
| `Txn.Transaction.Read` | src/sql/txn.rs:197-199 | a point read is the transaction's own write of the key, else its value at begin |
| `Txn.Transaction.ReadAll` | src/sql/txn.rs:197-199 | a scan is the begin state overridden by the own writes, each row once |
| `Txn.Transaction.Write` | src/sql/txn.rs:212-242 | a statement answers from what the transaction sees, records exactly its write, and leaves the committed store alone |
| `Txn.WriteSeen` | src/sql/txn.rs:97-105 | after a recorded write the transaction sees that write applied, and other tables unchanged |
| `Txn.Transaction.Conflicts` | src/sql/txn.rs:119-134 | a conflict is reported exactly when some written key's latest row compares unequal to its row at begin, with the `==` of the source |
| `Txn.UntouchedPasses` | src/sql/txn.rs:119-134 | when nothing changed the check passes if and only if no written key's row held a NaN at begin |
| `Txn.PassedUnchanged` | src/sql/txn.rs:119-134 | when the check passes nothing changed if and only if no zero changed sign |
| `Txn.CheckExact` | src/sql/txn.rs:119-134 | the check means "unchanged" for every later state if and only if no written key's row held a NaN or a zero float at begin |
| `Txn.NanAbortsAndZeroPasses` | src/value.rs:91-101 | an untouched NaN row that aborts, and a changed sign that passes |
| `Txn.Transaction.Batch` | src/sql/txn.rs:136-154 | the batch, in whatever order, is the change-set |
| `Txn.CommitBatch` | src/storage.rs:515-552 | applies the writes one by one, stops at an unknown table, and yields the specified tables, clock and log entries |
| `Txn.BatchOverrides` | src/storage.rs:515-552 | applying a batch in order overrides the state by it, puts and deletes alike |
| `Txn.Transaction.Commit` | src/sql/txn.rs:112-156 | succeeds exactly when every written key still compares equal to its begin value; then the latest state is the old one overridden by the change-set, otherwise nothing happened; earlier snapshots see no difference |
| `Txn.CommitBoth` | src/sql/txn.rs:112-156 | of two transactions, once the first has committed a change of a key both wrote the second cannot commit; if they write different keys it commits as it would have alone, and the order makes no difference |
| `Csr.Group` | src/graph.rs:161-180 | the counting sort puts in each bucket exactly its values, in input order |
| `Csr.Dedup` | src/graph.rs:155-156 | dedup of a sorted vector keeps each element once |
| `Csr.FromEdges` | src/graph.rs:152-205 | the view is well formed, forward and reverse lists are each other's transpose, and every node lists exactly its edges |
| `Scc.FinishOrder` | src/graph.rs:412-441 | the first pass orders every node once, and whoever gets to a node through earlier ones is reached back from it |
| `Scc.Gather` | src/graph.rs:447-463 | one reverse search gathers exactly the free nodes that reach its root through free nodes |
| `Scc.StronglyConnectedComponents` | src/graph.rs:412-466 | the result partitions the nodes, and two share a component exactly when each reaches the other |
| `Scc.LaunderingCycles` | src/graph.rs:471-476 | exactly the components of two or more nodes: each list is one whole class of mutually reachable nodes, no node is listed twice, and every node that reaches another and back is listed |
| `Scc.CycleIffMutual` | src/graph.rs:468-476 | a node is in a reported cycle exactly when it and some other node reach each other |
| `Dijkstra.CostMeans` | src/graph.rs:539-541 | the cost of a walk is the left fold of its weights, a negative one counting as zero: of the very weights if none is negative |
| `Dijkstra.RelaxAll` | src/graph.rs:540-547 | relaxing a settled node's edges keeps the search invariant |
| `Dijkstra.WalkBound` | src/graph.rs:523-557 | no walk is cheaper than the distance found, unless an entry no dearer is still waiting |
| `Dijkstra.TreeWalk` | src/graph.rs:583-588 | each distance is the cost of a real walk along the predecessors |
| `Dijkstra.Distances` | src/graph.rs:523-557 | a node is in the result exactly when reachable, with the least left-folded cost over all walks |
| `Dijkstra.WalkBack` | src/graph.rs:583-589 | the predecessor walk ends, zero-weight edges included, and gives the tree path |
| `Dijkstra.WeightedShortestPath` | src/graph.rs:561-595 | a real path with the reported cost, none cheaper; nothing exactly when an id is unknown or the target unreachable |
| `UnionFind.Find` | src/graph.rs:351-357 | path halving keeps the forest and every root, and returns the root |
| `UnionFind.RootIsTop` | src/graph.rs:351-357 | the root is where the parent links lead, and no other fixed point is met on the way |
| `UnionFind.Union` | src/graph.rs:359-365 | joining an edge's ends keeps the forest sound and merges exactly their classes |
| `UnionFind.RootsAreComponents` | src/graph.rs:358-365 | after all edges, equal roots mean weakly connected and conversely |
| `UnionFind.Relabel` | src/graph.rs:367-375 | each root gets one fresh small label |
| `UnionFind.ConnectedComponents` | src/graph.rs:348-376 | labels are alike exactly for weakly connected nodes and dense from zero |
| `KCore.CoreNumberUnique` | src/graph.rs:715-717 | the core number is well defined |
| `KCore.PeelNext` | src/graph.rs:740-748 | peeling the least node fixes its core number for good |
| `KCore.Detach` | src/graph.rs:749-756 | dropping a peeled node keeps every remaining degree equal to the number of remaining neighbours |
| `KCore.FirstLeast` | src/graph.rs:742-745 | picks an unpeeled node of least remaining degree |
| `KCore.CoreNumbers` | src/graph.rs:718-759 | every node gets the largest k for which it lies in a subgraph of minimum undirected degree k |
| `Predicates.Connectives` | src/sql/expr.rs:304-321 | OR is TRUE exactly when a side is, FALSE exactly when both are, and unknown otherwise; AND is its dual; NOT swaps TRUE and FALSE alone |
| `Predicates.DeMorgan` | src/sql/expr.rs:189-192 | NOT over OR is AND over NOT, and the other way round |
| `Predicates.NullTest` | src/sql/expr.rs:109 | IS NULL always answers, and tells unknown from known |
| `Predicates.Comparisons` | src/sql/expr.rs:289-302 | the six comparisons are unknown together; otherwise exactly one of less, equal, greater holds, the other three negate them, and swapped operands mirror |
| `Predicates.Incomparable` | src/value.rs:232-243 | unknown exactly for NULL, a text with a number, and a NaN where numbers meet in floating point |
| `Predicates.ComparesExactly` | src/value.rs:232-243 | integers up to 2^53, texts, booleans and aligned decimals compare as the exact values they are |
| `Predicates.TypesInOrder` | src/value.rs:248-275 | NULL sorts before everything and a text after everything else |
| `Predicates.PatternsCompare` | src/value.rs:270-273 | comparing floating-point patterns by rank compares the numbers they stand for, the two zeros as one, and nothing with a NaN |
| `Predicates.FilterKeeps` | src/sql/exec.rs:804-810 | a filter keeps every occurrence of the rows its predicate is TRUE for and no other |
| `Predicates.FilterAll` | src/sql/exec.rs:804-810 | and so it does over all the segments of a scan |
| `Predicates.FilterConnectives` | src/sql/exec.rs:804-810 | filtering by AND is filtering twice; by OR it keeps what either side keeps |
| `Predicates.ExcludesComplete` | src/sql/expr.rs:79-105 | a part not excluded has room for a row that satisfies the predicate, if each comparison is of a column of its own and compares as the order does |
| `Predicates.PruningDecides` | src/sql/expr.rs:79-105 | so there a part is dropped if and only if no row its bounds allow satisfies the predicate |
| `Zonemap.SqlFollowsTotal` | src/value.rs:232-275 | SQL comparison never contradicts the total order: it agrees with it or says equal |
| `Zonemap.LowerValue` | src/value.rs:251-275 | a smaller column value compares no higher against any literal, both exactly or both in floating point |
| `Zonemap.RangeSound` | src/sql/expr.rs:167-177 | an excluded range holds a matching value only if SQL calls it equal to the literal and the order puts it beyond, or the order against the literal steps back at a turn within the range |
| `Zonemap.OneRouteExact` | src/value.rs:321-341 | from the two bounds one can tell exactly whether every value between them is compared with a decimal literal in the same way |
| `Zonemap.TurnsExact` | src/value.rs:321-341 | the two values computed from the literal's and the column's scale are exactly those after which the comparison changes between exact and floating point |
| `Zonemap.OneRouteSteady` | src/value.rs:321-341 | a part compared in one way throughout has no turn |
| `Zonemap.PartExact` | src/sql/expr.rs:167-177 | for each comparison and any two bounds, pruning an excluded part is right if and only if no value of the part is equal to the literal under SQL and beyond it in the order, and at no turn within it does the order step back and leave a row of the part behind |
| `Zonemap.FlipSound` | src/sql/expr.rs:155-163 | swapping the operands and flipping the test is the same comparison |
| `Zonemap.ExcludesSound` | src/sql/expr.rs:79-105 | on typed columns, floats included, with covering bounds, if each comparison that excludes the part meets the condition of `PartExact`, an excluded part has no row for which the predicate is TRUE, whatever the nesting, NULLs and operand order |
| `Zonemap.SafeIsSound` | src/sql/expr.rs:79-105 | a test on type, bounds and literal of each comparison is enough for that |
| `Zonemap.ColumnBounds` | src/part.rs:148-150 | the bounds cover every non-null value, are values of the column, and are missing exactly when there is none |
| `Zonemap.PartBounds` | src/part.rs:148-150 | the bounds of all columns cover every row, as the pruning theorem asks |
| `Zonemap.Prune` | src/sql/exec.rs:412-423 | drops exactly the whole parts the predicate excludes |
| `Zonemap.PruningKeepsRows` | src/sql/exec.rs:412-423 | if the parts the predicate excludes are excluded rightly, pruning leaves the filtered rows as they were, in order |
| `Zonemap.CollidesExactly` | src/value.rs:232-275 | SQL calls two values equal that the order keeps apart exactly for different integers with one double and for the two zeros met as floats |
| `Zonemap.SafeNeverCollides` | src/value.rs:232-275 | a comparison that passes the test never meets such a pair |
| `Zonemap.PruningExact` | src/sql/expr.rs:167-177 | for each comparison, pruning is right for every part the column can have, bounds compared one way or two, exactly when no value of the column equal to the literal under SQL lies beyond it in the order (on either side for `=`, above for `<=`, below for `>=`) and at none of its turns does the order step back and leave a row behind |
| `Zonemap.LargeIntegersCollide` | src/value.rs:232-263 | beyond 2^53 `=`, `<=` and `>=` each prune a row SQL would return |
| `Zonemap.NegativeZeroCollides` | src/value.rs:232-275 | so they do around a negative zero, as a literal or in a float column |
| `Zonemap.MixedRoutesLose` | src/value.rs:321-341 | a turn at which a row is lost: its part's bound aligns with a decimal literal and the row overflows into floating point |
| `Decimals.RescaleDown` | src/value.rs:299-310 | rounds to the nearest unit, ties away from zero, exactly when adding the half unit does not overflow |
| `Decimals.RescaleUndoes` | src/value.rs:299-310 | rescaling down undoes rescaling up, exactly when the half unit still fits |
| `Decimals.UndoCanFail` | src/value.rs:299-310 | 17 rescaled by 37 places does not come back |
| `Decimals.AlignedCmpExact` | src/value.rs:323-341 | whenever no shift overflows the comparison is the exact rational order |
| `Decimals.ParseRendered` | src/value.rs:345-405 | rendering then parsing gives the decimal back exactly for scales up to 38 and mantissas other than the least |
| `Numerals.ParseNumeral` | src/value.rs:345-378 | white space around, any sign, digits with or without a point, either part empty: read exactly when there are at most 38 decimals and the digits are at most `i128::MAX`, as the sum of the digits' powers of ten |
| `Numerals.ParseExact` | src/value.rs:345-378 | a text is read if and only if it has that form, a second sign before its first digit allowed, and fits |
| `Numerals.SecondSign` | src/value.rs:345-378 | what is read and is no numeral has a second sign, behind another or behind the point |
| `Numerals.SecondSignRead` | src/value.rs:345-378 | `--5` and `.-5` are read |
| `Numerals.RenderedForm` | src/value.rs:387-405 | a decimal is written as its canonical numeral: no needless sign, leading zero or point, and all its decimals |
| `Arithmetic.IntegersWrap` | src/sql/expr.rs:202-206 | sums, differences and products of integers are right modulo 2^64, and outright exactly when they fit |
| `Arithmetic.IntegersDivide` | src/sql/expr.rs:207-220 | division by zero is NULL; otherwise quotient and remainder are those towards zero, except that the one quotient that does not fit stops the program |
| `Arithmetic.DecimalsExact` | src/sql/expr.rs:226-262 | whatever the exact path returns is exactly the sum, difference or product, and it is taken exactly when nothing on the way overflows |
| `Arithmetic.PathTaken` | src/sql/expr.rs:196-287 | two numbers, one of them no integer, take the exact path if nothing on the way overflows and floating point otherwise, division always |
| `Arithmetic.NullsAndOrder` | src/sql/expr.rs:196-262 | NULL in, NULL out; summands and factors can be swapped |
| `Arithmetic.PrecisionExact` | src/value.rs:315-318 | a mantissa is accepted with p digits exactly when it has no more, or is the least `i128` |
| `Arithmetic.StoredIsNearest` | src/value.rs:170-176 | what a DECIMAL(p, s) column stores is the number itself if the scale does not shrink, else the nearest, ties away from zero, unless the half unit overflows; with at most p digits |
| `Arithmetic.StoredExact` | src/value.rs:170-176 | and it stores a number exactly when it can be moved to that scale and then has at most p digits, or is the least `i128` |
| `Dates.CivilTrip` | src/value.rs:416-437 | every valid date survives the trip through its day number |
| `Dates.DaysTrip` | src/value.rs:416-437 | every day number converts to a valid date with that day number |
| `Dates.NextDayNextNumber` | src/value.rs:416-423 | the next calendar day is the next number, over months, years and eras |
| `Dates.NextNumberNextDay` | src/value.rs:426-437 | and the next number is the next calendar day |
| `Dates.EpochDay` | src/value.rs:415-437 | numbers count from 1 January 1970 |
| `Dates.AcceptedTrip` | src/value.rs:453-466 | an accepted date comes back exactly when its month has that day |
| `Dates.MicrosFit` | src/value.rs:469-481 | the year bound keeps the microsecond arithmetic inside 64 bits |
| `DateText.ParseYmdExact` | src/value.rs:439-464 | a text is a date exactly when it is three integers with hyphens between that are an accepted year, month and day; the year is then never negative |
| `DateText.DateTrip` | src/value.rs:439-512 | a rendered date is read back exactly for the years 0 to 262143, and otherwise not read at all |
| `DateText.TimeTrip` | src/value.rs:485-506 | a rendered time of day is read back, with and without a fraction |
| `DateText.TimestampTrip` | src/value.rs:467-533 | a rendered timestamp is read back exactly for the same years |
| `DateText.TimeRange` | src/value.rs:485-506 | what is read as a time lies less than a second outside the day |
| `DateText.NeverOverflows` | src/value.rs:467-481 | so the checked arithmetic fails on no date and time that were read |
| `DateText.TimeStrays` | src/value.rs:485-506 | `00:00:00.-5` lies before the day and `23:59:60` is its end |

## Left out

- Async durability in the recovery theorem: it may lose acknowledged writes by design (src/durability.rs:22-25).
- `LockedWrites`: the store's log record of a write is not part of it, and its readers read only while the lock is free.
- Snapshots below the garbage-collection floor: stamp collapse rewrites what they would see.
- Checkpoints of a store that is not warmed or that has a writer in between: the recovery theorem runs operations one after the other on a warmed store; `ColdCheckpointLosesAll` shows the first is needed.
- Torn bytes in recovery: files are lists of frames there, synced or not; byte-level cuts are the subject of `WalBytes` alone, because `Wal::open` resumes at the file length.
- `Storage` and `Checkpointing` give the store's operations as values and lists of I/O calls, not as objects updated in place: a crash has to be able to stop between any two calls. The tables, filters, buffers, vectors, clock and files under them are objects.
- A failed sync inside a truncation, which returns before the reset; and appends lost because a truncation point was read before they came.
- `GroupCommit` is a step system over threads, one step per critical section or atomic access, since the blocking of the condition variable has no sequential form.
- Synthetic row ids, bulk load with caller-guaranteed keys other than into an empty overlay, and DDL inside transactions.
- Atomic visibility of multi-key commits to concurrent readers: each write of a commit has its own stamp.
- Key columns of mixed types: `Values.KeyCmp` is `total_cmp` on one type and one scale (`Zonemap.KeyOrderIsTotal`); across types it is a fixed total order that no theorem depends on.
- Zonemap.PruningExact: rounding to `f64` is a parameter that keeps order at each decimal scale, is exact up to 2^53 and yields zero only for zero (`Predicates.RoundingExists`: this can be met); across scales nothing is assumed, so whether a turn steps back is a question to that parameter.
- Txn.CommitBatch: the in-memory default of `commit_batch` (src/sql/backend.rs:58-70) skips a delete from an unknown table where the durable one stops; only the durable one is modelled.
- Tables.TableObject.Probe: in the table object a part is a value whose tombstones are a map; the sorted vector behind it is proved against that map in `DeleteVectors`, not held by the table.
- Dijkstra.Distances: costs are reals with an addition that is monotone and never decreases, weights clamped at zero; the overflow of `f64` to infinity is not modelled, and the search carries the predecessor array that the distance-only function does not keep.
- KCore.CoreNumbers and the transaction change-set keep their arrays and nested maps as sequences and one flat map.
- Column data of part files, the manifest's and part files' own byte encodings, and schemas: a frame is its decoded content there.
- Injected I/O errors, the POSIX backend, directory locks and backups.
- SQL parsing and planning, floating-point arithmetic in expressions, DataFusion, Arrow, PageRank and the other scores, the remaining graph traversals, CDC, metrics, statistics and backpressure: they would add members without adding hard properties.
