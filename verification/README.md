# Badger in Dafny

A model of Badger, an embedded multi-version key-value store, and proofs of what it is built to keep: serializable
transactions, snapshots that compaction and garbage collection cannot change, lookups and iterators that agree with one
simple definition of what is visible, and logs that can be replayed.

Check everything with `dafny verify dfyconfig.toml`.

## How it fits together

An entry is a user key, a version, and a value or a pointer with its bits; entries are ordered by user key, newer
versions first (`Entries.dfy`). Almost every claim comes down to one function, `Entries.Best`: the newest version of a
user key at or below a timestamp, among the entries of one or several places.

| file | what it models |
|---|---|
| `Watermark.dfy` | the processor of begin and done marks: heap, pending counts, waiters |
| `Txn.dfy`, `Serializability.dfy`, `Progress.dfy`, `Oracle.dfy` | the timestamp oracle and transactions as a state machine; its invariant, serializability and snapshots; that nothing waits for ever; the oracle's methods as code over fields |
| `Compaction.dfy`, `Splits.dfy` | the compaction loop against a declarative rule for what is dropped; sub-compactions |
| `Levels.dfy`, `LevelChanges.dfy` | point lookups over memtables and levels; replacing and deleting tables |
| `LevelZero.dfy` | the order of level 0; compactions within it and from it |
| `BaseLevel.dfy` | the choice of the base level |
| `Interleaving.dfy`, `LookupProgress.dfy`, `PassedLevels.dfy` | lookups running beside writes, flushes and compactions; that all of these can be finished; compactions past a level that is not empty |
| `CompactStatus.dfy` | which compactions may run side by side |
| `MergeIterator.dfy`, `ConcatIterator.dfy`, `TxnIterator.dfy` | iterators, from the merge tree up to what a transaction sees |
| `PickTables.dfy`, `PickedIterator.dfy` | which tables an iterator opens, and that it misses nothing |
| `Blocks.dfy`, `Table.dfy`, `BlockBytes.dfy`, `Bloom.dfy` | tables on disk: prefix-compressed blocks, moves within and across blocks, the bytes of a block, filters |
| `Skiplist.dfy`, `Arena.dfy` | the memtable's skiplist, link step by link step, and its arena |
| `Codec.dfy`, `Keys.dfy` | varints, entry headers, value structs; keys with their version |
| `LogFile.dfy`, `Wal.dfy` | log entries, and crash replay of the write-ahead log |
| `ValueLog.dfy` | rewriting a value log file |
| `Manifest.dfy`, `ManifestFile.dfy` | changes to the state the manifest keeps; the file that rebuilds it, over any number of reopens |
| `Trie.dfy` | the subscription trie |
| `Arithmetic.dfy`, `Sequences.dfy`, `Wrappers.dfy` | division; facts about sequences; a value that may be missing |

Objects whose methods change fields are classes with those fields; each method is proved against a specification
function, and what the program promises is proved of that function. Protocols with several goroutines are state
machines: one step is what happens atomically, and a run is any sequence of enabled steps.

User keys are integers in the modules about the tree and the iterators, and byte strings in `Keys`, `Blocks`, `Table`,
`PickTables` and `Txn`: only the order of keys matters in the former, and `Keys.RankPreservesOrder` numbers any finite
set of byte strings in its own order.

## What the proofs found

Where the code does not meet the wider claim, there is an input, and a lemma or a contract that says exactly when it does.

- A level-0 to level-0 compaction leaves large, new and busy tables out but looks for overlap from level 1 on, so it can
  drop a tombstone that hides an older version in a table left out (`LevelZero.TombstoneOverLeftOutTable`; exactly when:
  `ZeroToZeroIff`, and for any compaction `Compactions.PreservedIff`).
- The base level can lie below a level that is not empty, for one when the last level is no bigger than the base size,
  and compactions from level 0 then pass over that level (`BaseLevels.PastFullLevel`; exactly when:
  `NothingPassedIff`). The overlap check does not look at levels passed over, so a deleted version there can show again
  (`PassedLevels.PassedOverRevives`; exactly when: `PassingIff`), and newer versions may end up below older ones
  (`OrderKeptIff`).
- A compaction within level 0 sorts it by smallest key, so the order of its tables is no longer their age
  (`SortLosesAge`; exactly when it is: `SortKeepsAgeIff`). Lookups do not depend on it (`OrderDoesNotMatter`), and the
  run that is taken from the front is older than the rest all the same (`LevelZero.LeftIsNewer`).
- Rewriting a value log file puts old versions back on top, so newer places no longer hold only newer versions, and a
  compaction may drop the tombstone that hides one (`PutBackRevives`; exactly when: `PutBackIff`).
- Rewind of a reverse iterator with a prefix starts at the prefix itself, so it yields at most the key equal to the
  prefix and none of the longer ones (`RewindMissesKeys`; exactly when that is the forward iteration reversed:
  `RewindReversedIff`). Seeking from above the prefix is not safe either (`SeekBackwardIff`).
- Removing a compaction within one level leaves its `nextRange` registered when it differs from `thisRange`
  (`RangeLeftBehind`; exactly when: `RemoveUndoesAdd`).
- A change set that fails half-way changes the manifest in memory but not in the file (`CreatedTwice`; exactly when the
  tables agree all the same, and when the counts do: `FailedChanges`).
- Opening a manifest does not bring the counts in memory in line with the file's (`CountsStartOver`); tables and index
  are, over any run (`AlwaysInSync`).
- The size of a manifest is cut to 32 bits before lengths are compared with it, so one of 4 GiB or more need not replay
  (`FourGigabytes`; exactly when: `TruncatedReplay`, `AppendKeepsSync`, `RewriteSyncs`).
- A table at level 256 or above leaves the index by level wrong because levels are kept in a byte (`LevelBeyondByte`;
  exactly when: `ChangeKeepsConsistent`, `ConsistentIff`).
- Truncating the manifest can make replay fail rather than stop early: a torn change set whose stated length exceeds the
  whole file is an error (`TornAndTooLong`; exactly when: `TornAppend`, `TruncatedReplay`).
- Damage can make replay of the write-ahead log fail where comments say a bad entry ends the log: a number of the header
  that exceeds 64 bits is an error, and a pair of lengths that wraps around 32 bits makes the program panic
  (`LongNumberFails`, `LengthsWrap`, `OneBadNumber`; exactly when: `FailsIff`, `ReplayIsAtomic`). What was delivered
  before is right either way.
- An entry whose key differs from its block's first key in 65532 bytes or more can be written but not read back, since
  the end of the key is computed in 16 bits (`LongRest`; exactly when: `EntryAt`); keys of that size are refused before they get there.
- A filter whose number of bits is a multiple of 2^32 cannot be built, but no filter that can be built denies a key
  (`TooManyBits`; exactly when: `NewFilter`, `NoFalseNegatives`).
- The arena's counter has 32 bits and is checked after it wrapped around, so near 2^32 bytes a node too large for the
  buffer can pass (`NodeTooLarge`; exactly when: `PutNode`).
- A commit that fails after some of its entries reached the memtable is marked done with these in place, where a comment
  says the tree is not touched (`HalfWritten`). If none was written, the runs go on as if it had not been
  (`FailCommitKeeps`; exactly when that is: `NothingWrittenIff`).
- Refusing a value that is too long for an in-memory database panics if its slice has less than a kilobyte
  (`ShortValueTooLong`; exactly when: `Modify`).
- The version of an empty user key is lost when it is parsed back (`KeyRoundTrip`); empty keys are refused by `modify`.

## Model

| member | source | states |
|---|---|---|
| Watermarks.NeverPassesUnfinished | y/watermark.go:137-174 | for every disciplined log of marks the watermark, after any number of marks processed, stays at or below every index that still has an open begin anywhere in the log (strictly below when begins are strictly increasing) |
| Watermarks.NeverDecreases | y/watermark.go:157-175 | processing more marks never lowers the watermark, and it never exceeds the last index begun |
| Watermarks.FatalCheckNeverFires | y/watermark.go:152-155 | the check that would kill the process is never met: no mark arrives below the watermark |
| Watermarks.CatchesUp | y/watermark.go:160-172 | once every begin has its done and everything is processed, the heap is empty and the watermark is the last index begun |
| Watermarks.RunReflects | y/watermark.go:127-174 | the processor's state at any moment is what the whole log says: pending counts are begins minus dones, and the least pending index is unfinished |
| Watermarks.PopFinished | y/watermark.go:157-172 | the loop over the heap removes exactly the finished indices before the first unfinished one, as draining the least index of the pending map does |
| Watermarks.WaterMark.ProcessOne | y/watermark.go:137-200 | one mark: the new mark and pending map are those of the model step, and exactly the waiters at or below the new watermark are woken, whichever of the two notify loops runs; false exactly when the fatal check fires |
| Watermarks.WaterMark.NotifyByIndex | y/watermark.go:184-192 | one lookup per index passed wakes the same waiters as one pass over all of them |
| Watermarks.WaterMark.NotifyByWaiter | y/watermark.go:193-199 | one pass over the waiters wakes exactly those at or below the mark |
| Watermarks.WaterMark.ProcessWaiter | y/watermark.go:206-218 | a waiter is woken at once if the mark is already there; otherwise its channel, and nothing else, is appended to those of its index |
| Watermarks.ProcessAll | y/watermark.go:202-229 | over any disciplined log the processor never dies and computes the model's state |
| Serializability.Serializable | txn.go:521-607 | over every run and interleaving, commits included that fail with nothing written: commit timestamps increase; running the committed transactions one at a time in that order gives every Get of every one of them the result it saw and the writes it made; when nothing is in flight the database is what that serial run leaves |
| Serializability.FailCommitKeeps | txn.go:594-607 | a request that fails before any of its entries reaches the memtable leaves all else as if it had never been: no other commit has read from it |
| Serializability.NothingWrittenIff | txn.go:594-607 | nothing of a commit in flight is in the store if and only if none of its entries was written |
| Serializability.HalfWritten | db.go:789-829 | a commit that fails after one of two entries: neither all nor nothing of it can be read |
| Serializability.ReadsOneSnapshot | txn.go:78-95 | every running transaction, update or read-only, has read exactly the commits up to its read timestamp, and will read no others |
| Serializability.SnapshotOfBegin | txn.go:78-95 | whatever happens after a transaction began, its snapshot has exactly the commits that were there when it began, less those that failed since, and all that were acknowledged by then; if nothing was in flight it is the whole history of that moment, and every read its own writes do not answer is one of these commits run one at a time |
| Serializability.BeginsAfterAll | txn.go:78-95 | a new transaction's read timestamp is at or above every commit there is and below every one there will be |
| Serializability.SnapshotIsReplay | txn.go:78-95 | a read at a timestamp whose commits are all written sees those commits run one at a time, whatever else is in flight |
| Serializability.WaitEndsWhenDone | txn.go:78-95 | readTs hands out r only when every commit up to r has been written |
| Serializability.NoConflictMeansCurrent | txn.go:128-188 | a transaction that passes the conflict check has read what it would read at the end of the history, for any fingerprint function |
| Serializability.CleanupNeverLosesConflicts | txn.go:197-228 | every commit after the read timestamp of a live transaction is still in the committed list with all its fingerprints |
| Serializability.CleanupCleans | txn.go:197-228 | after each commit of any run what is remembered is that commit and exactly those before it that the read watermark has not passed |
| Serializability.OracleAssertionsHold | txn.go:197-207 | the assertion in cleanupCommittedTransactions holds in every run, and the discard timestamp never exceeds a live transaction's read timestamp |
| Serializability.StepKeeps | txn.go:161-187 | every step of every goroutine keeps the invariant linking store, history, committed list, marks and transactions |
| Serializability.ReachesInv | txn.go:57-72 | so every run keeps it |
| Progress.WaitingEnds | txn.go:78-95 | no transaction waits for ever: from any reachable state what is in flight can be written and the marks processed, and then every transaction waiting for its read timestamp can go on |
| Progress.BeginIff | txn.go:78-95 | a transaction can begin at any time |
| Progress.CommitIff | txn.go:128-188 | a commit gets its timestamp exactly if the transaction is running, has written something and no commit after its read timestamp wrote what it read |
| Progress.FailIff | txn.go:594-607 | a request can fail without a trace exactly if nothing of it was written |
| Progress.ReadMarkCatchesUp | txn.go:119-125 | once all transactions are done reading and their marks processed, the read watermark is at the last read timestamp handed out |
| Progress.ConflictIsReal | txn.go:128-151 | a commit is refused only if the transaction read from the database a key with the fingerprint of one that another transaction wrote, which got its timestamp after the read timestamp |
| Progress.LookupIsNewest | db.go:754-781 | a lookup finds the newest version at or below the timestamp, and nothing only if there is none |
| Oracles.OracleObject.ReadTs | txn.go:78-95 | the read timestamp is the one before the next to be handed out, and its begin mark is sent: the step that runs take |
| Oracles.TxnObject.Modify | txn.go:346-396 | recorded with its fingerprint, counted and sized, or refused without any change, exactly under the source's conditions, written out: read-only, discarded, empty key, reserved prefix, key longer than 65000 bytes or value too long, banned, too big for one batch; the refusal of a long value panics exactly when its slice has less than a kilobyte |
| Oracles.ShortValueTooLong | txn.go:346-372 | a value at which it does |
| Oracles.TxnObject.CheckSize | txn.go:335-344 | count and size grow only if both stay below the limits of a batch |
| Oracles.TxnObject.Get | txn.go:434-487 | refused for an empty key, a discarded transaction or a banned key; else the value of its own write first, then that of the database, nothing for a deletion; only the second adds a read fingerprint, and only in an update transaction |
| Oracles.OracleObject.CheckConflict | txn.go:128-151 | the nested loop finds a conflict exactly if some committed entry after the read timestamp has a fingerprint that was read |
| Oracles.OracleObject.CleanupCommittedTransactions | txn.go:197-228 | the in-place filter keeps exactly the commits after the largest timestamp no reader is at |
| Oracles.OracleObject.NewCommit | txn.go:153-188 | refused without any change on a conflict; otherwise the new timestamp, marks, cleanup and committed entry of the model's step |
| Oracles.OracleObject.CommitAndSend | txn.go:521-607 | a commit refused by the write channel is marked done at once and still remembered for conflicts |
| Keys.CompareKeysIs | y/y.go:132-137 | comparing encoded keys puts user keys in ascending order and the versions of one key from the newest down; equal only for equal key and version |
| Keys.KeyRoundTrip | y/y.go:113-146 | user key and version can be read back; the version of an empty key cannot |
| Keys.SameKeyIs | y/y.go:149-154 | SameKey holds exactly for versions of one user key |
| Keys.BigEndianOrder | y/y.go:113-118 | the byte order of fixed-width big-endian numbers is the order of the numbers |
| Keys.RankPreservesOrder | y/y.go:132-137 | the user keys of any database can be numbered in their own order, which is why other modules use integers for user keys |
| Compactions.CompactionPreservesSnapshots | levels.go:655-822 | for every user key and every read timestamp at or above discardTs, the result (value or not found) over newer places, output and lower levels equals that over newer places, input and lower levels, for any number of versions to keep and any delete, discard, merge and expiry settings |
| Compactions.PreservedIff | levels.go:783-798 | without the premise on newer places: the read changes if and only if the newest version it finds in the input is counted, deleted or expired and nothing below overlaps (the guard of the branch that drops it) while a place left out of the compaction holds an older live version |
| Compactions.PutBackIff | value.go:235-243 | after a rewrite of a value log file has put old versions back on top: a compaction changes a read if and only if nothing else above has the key, the version put back is alive and the newer one in the input is a deletion that the guard drops |
| Compactions.PutBackRevives | value.go:235-243 | an input where it does: the value of a version under a tombstone is moved, the tombstone is compacted away with the old copy, the new copy shows |
| Compactions.KeptBest | levels.go:766-800 | what the filter leaves for one read: the same newest version, or nothing at all when that version is a tombstone with nothing below |
| Compactions.KeptNothing | levels.go:783-798 | which of the two it is can be told from that version alone |
| Compactions.KeptMembers | levels.go:714-819 | an entry is kept exactly if it is not dropped by the declarative rule |
| Compactions.KeptIff | levels.go:759-800 | when an entry is kept, in terms of its own bits and of the versions above it, counted as a set |
| Compactions.VersionsKept | levels.go:759-800 | an entry stays as long as every version of its key at or above it is alive and has no discardEarlier bit, and fewer than NumVersionsToKeep newer ones are at or below discardTs and no merge entries |
| Compactions.NoMoreKept | levels.go:759-800 | everything older than the NumVersionsToKeep-th version counted is gone |
| Compactions.BothKept | levels.go:759-800 | two versions of one key, of which both are kept |
| Compactions.KeptSorted | levels.go:801-819 | the output is in key order |
| Compactions.Subcompaction.AddKeys | levels.go:701-822 | the loop with lastKey, skipKey and numVersions writes exactly the kept entries of a run that ends between two user keys, whatever the capacity and overlap heuristics say; before the end of the range it stops only for one of them |
| Compactions.Subcompaction.Arrive | levels.go:714-757 | at an entry of a new key the table ends exactly if the range does, or the table is full, or this is a multiple of 5000 keys and the range too wide; within a key never |
| Compactions.Subcompaction.Count | levels.go:759-800 | the version counter and the decision to keep, to skip the rest, or to drop, agree with the declarative rule |
| Compactions.Subcompaction.Run | levels.go:824-874 | the tables written together hold exactly the kept entries of the range; none is empty and no user key is in two of them |
| Splits.AddSplits | levels.go:1060-1100 | the ranges form a chain from the left end; there are at most five, and each but the last ends after all versions of the greatest user key of every third table, or of as many more as five ranges take |
| Splits.SplittingIsTransparent | levels.go:1060-1100 | for any such chain each user key with all its versions is in exactly one range, and the outputs of the sub-compactions together are the output of one unsplit run |
| Splits.SplitsPreserveSnapshots | levels.go:650-660 | with a discard timestamp, a clock and an overlap result of its own in every sub-compaction, reads at or above all the discard timestamps are unchanged |
| Levels.DbGet | db.go:754-781 | despite early exit, binary search by table range and filter skips: the entry with the greatest version at or below the asked one over all memtables and levels; of two with the same version the one in the place searched first |
| Levels.LevelsGet | levels.go:1611-1646 | the loop over the levels with its early exit gives the maximum over all of them and what the memtables gave |
| Levels.LevelHandler.Get | level_handler.go:266-294 | the maximum over all tables of one level; of two with the same version, at level 0, the one nearer the back |
| Levels.LevelHandler.GetTableForKey | level_handler.go:230-263 | all tables from the back at level 0, whose age order `LevelZero` is about; elsewhere the first table that does not end below the key, or none |
| Levels.TableGet | level_handler.go:271-288 | skipping on the filter loses nothing, and the seek finds the newest version at or below the one asked |
| Levels.ExactWins | db.go:766-778 | a version equal to the one asked ends the search without loss |
| Levels.Search | level_handler.go:251-253 | binary search: the least index where a monotone predicate holds |
| LevelChanges.BetweenLevels | levels.go:1187-1236 | a compaction between two levels leaves the next level sorted, its tables disjoint and no user key in two of them; the tables replaced are exactly those that share user-key range with the tables moved down |
| LevelChanges.OverlappingTables | level_handler.go:331-342 | the half-open interval found is exactly the tables with a key in the range of user keys |
| LevelChanges.GetKeyRange | compaction.go:92-113 | the range has every version of every key of the tables and no wider a hull of user keys than they have |
| LevelChanges.ReplaceTables | level_handler.go:104-138 | the tables afterwards are the old ones without the deleted, with the added, ordered by smallest key |
| LevelChanges.DeleteTables | level_handler.go:77-100 | exactly the tables named are gone, the rest in order |
| LevelChanges.SpliceKeepsShape | util.go:29-57 | replacing exactly the overlapping run by separate tables within its range keeps the level valid |
| LevelChanges.WrittenTablesHaveShape | levels.go:725-757 | the tables the compaction loop writes form a valid level |
| LevelChanges.SortedIs | level_handler.go:127-133 | sorting has one possible outcome when the smallest keys differ |
| LevelZero.FillTablesL0ToL0 | levels.go:1119-1185 | selects exactly the tables that are less than twice the file size, at least ten seconds old and in no compaction, in order, and only if there are four and the caller is worker 0 |
| LevelZero.CheckOverlap | levels.go:627-641 | true exactly if some table at the level given or below has user-key range in common with the tables |
| LevelZero.ZeroToZeroIff | levels.go:1119-1185 | for a compaction of any selected tables of level 0 into level 0: a read changes if and only if the guard drops the deletion it finds there while a memtable or a table left out holds an older live version |
| LevelZero.TombstoneOverLeftOutTable | levels.go:1119-1185 | an input where it does, and that the selection above picks: five tables, the first of them too big to be selected |
| LevelZero.SortKeepsAgeIff | level_handler.go:104-138 | sorting level 0 by smallest key keeps older tables in front if and only if of any two tables the one with an older version of some key has the smaller smallest key |
| LevelZero.SortLosesAge | level_handler.go:104-138 | two tables, in order of age, that it turns around |
| LevelZero.OrderDoesNotMatter | level_handler.go:266-294 | a lookup finds the same whatever the order of the tables, since a version in two tables is the same entry |
| LevelZero.FillTablesL0ToLbase | levels.go:1187-1237 | takes the longest run from the front in which every table overlaps the hull of those before it |
| LevelZero.LeftIsNewer | levels.go:1187-1237 | what that leaves in level 0 is newer, key by key, than what it takes, although the order is no longer that of age |
| LevelZero.SortKeeps | level_handler.go:104-138 | sorting gives the shape that LeftIsNewer needs, tables sorted by key and then newer ones by age |
| LevelZero.FlushKeeps | level_handler.go:183-197 | a flush keeps that shape |
| LevelZero.DropKeeps | level_handler.go:77-100 | so does taking away any of its tables |
| BaseLevels.LevelTargets | levels.go:371-438 | the loops over the levels give the target sizes (the share of the last level's size, or the base size), the file sizes (a multiple more per level below the one chosen by size) and the base level of the specification |
| BaseLevels.ShareIs | levels.go:376-395 | a level's share is the size of the last one divided by the multiplier once for each level in between |
| BaseLevels.ChosenIs | levels.go:376-395 | the level chosen by size is the deepest whose share is at most the base size |
| BaseLevels.BaseIs | levels.go:376-438 | the base level in full: the one chosen, brought down over empty levels but not to the last, one further when it is empty and the next below its target, and never level 0 |
| BaseLevels.NothingPassedIff | levels.go:371-438 | every level above the base level is empty if and only if those above the level chosen by size are, and that one is empty itself, is next to the last or later, or is followed by a level that is not empty |
| BaseLevels.PastFullLevel | levels.go:371-438 | sizes for which the base level lies below a level that is not empty |
| PassedLevels.ChoiceIsSafeIff | levels.go:371-438 | the same for the levels of a state of `Interleavings`: nothing is passed over exactly under that condition |
| PassedLevels.PassingIff | levels.go:627-822 | a compaction from level 0 past levels that are not empty, with nothing else running: a read changes if and only if it finds in the input a deletion that the guard drops while a level passed over holds an older live version |
| PassedLevels.OrderKeptIff | levels.go:1434-1500 | higher levels go on holding only newer versions if and only if no key that is moved down is at a level passed over |
| PassedLevels.PassedOverRevives | levels.go:371-438 | a state and the base level chosen for it where a deleted version shows again |
| Interleavings.EveryLookupIsRight | levels.go:1611-1646 | over every interleaving of lookups, which begin and end at any time, with writes, memtable rotation, flushes (level 0 first, then drop) and any number of concurrent compactions that pass over empty levels only (install below first, then delete above), a finished lookup answers with the newest version ever written at or below its timestamp, or not found if that is deleted, expired or absent |
| LookupProgress.LookupBegins | levels.go:1611-1646 | at any moment a lookup of any key at any timestamp that is not to be discarded can begin |
| LookupProgress.LookupEnds | levels.go:1611-1646 | and every lookup can be finished, whatever is under way |
| LookupProgress.RaiseToOldest | levels.go:655-660 | the discard timestamp can be raised to that of the oldest lookup, and no further |
| LookupProgress.FlushEnds | db.go:1102-1133 | the oldest immutable memtable can always be flushed and dropped |
| LookupProgress.CompactionEnds | levels.go:1434-1500 | when none is running, a compaction of any tables that may be moved can start and run to its end: they are gone from their level, and no level but the next has changed |
| LookupProgress.OverlapBelow | levels.go:627-641 | the filter is told that nothing overlaps if the levels below are empty, and that something does if one of them has a key of the input |
| LookupProgress.SpanIs | compaction.go:92-113 | the range of tables ends at their smallest and biggest user keys |
| LookupProgress.TouchesIff | level_handler.go:331-342 | a table overlaps a range exactly if it ends neither before nor after it |
| Interleavings.StepKeeps | levels.go:1472-1479 | every step keeps the invariant: places above are newer except for what a running compaction is about to delete, nothing visible is lost, every reader has or is still ahead of what it wants |
| Interleavings.CloseKeeps | levels.go:1611-1646 | a lookup that ends leaves the state, so that the discard timestamp may pass it |
| Interleavings.ReachesInv | db.go:714-738 | so every run keeps it |
| Interleavings.FoundInstall | levels.go:1472-1475 | installing the output in the next level keeps every visible version reachable from any level a reader may be at |
| Interleavings.FoundFinish | levels.go:1476-1479 | deleting the input from its level does too, once the output is installed |
| Interleavings.FlushAddKeeps | db.go:1102-1133 | adding the flushed memtable to level 0 while it is still in the list of immutable memtables keeps the invariant |
| Interleavings.FlushDropKeeps | db.go:1102-1133 | dropping it from the list afterwards does too |
| Interleavings.VisitOk | levels.go:1619-1643 | a reader that moves one level further has found what it wants or still has it ahead |
| Interleavings.LeftIsNewer | levels.go:1187-1236 | what a compaction leaves in its level is newer, key by key, than what it takes (for level 0 see `LevelZero.LeftIsNewer`) |
| Interleavings.OneFromZero | levels.go:1187-1236 | two compactions from level 0 to the base level cannot run at once |
| Interleavings.NotOver | compaction.go:175-202 | no compaction starts or ends at a level that another one passes over, when those are empty at the start |
| CompactStatuses.AddTracks | compaction.go:175-202 | registering through compareAndAdd keeps: no two running compactions share a table, ranges registered at a level are pairwise disjoint |
| CompactStatuses.RemoveTracks | compaction.go:204-238 | removing a running compaction keeps it, its ranges are always found, and exactly they go away |
| CompactStatuses.ZeroTracks | levels.go:1151-1179 | registering a level-0 to level-0 compaction of free tables keeps it |
| CompactStatuses.RemoveUndoesAdd | compaction.go:204-238 | removing restores the ranges if and only if the compaction is between two levels or its two ranges are equal; within one level a different nextRange stays registered |
| CompactStatuses.RangeLeftBehind | compaction.go:204-238 | a compaction where one does |
| CompactStatuses.CompactStatus.CompareAndAdd | compaction.go:175-202 | accepted exactly if neither range overlaps one at its level; then ranges and tables are added, the size to its level, and nothing else changes |
| CompactStatuses.CompactStatus.Delete | compaction.go:204-238 | a running compaction is taken away: its ranges, its tables, its size, and nothing else; they are always found |
| CompactStatuses.CompactStatus.AddZeroToZero | levels.go:1151-1179 | the infinite range and the tables are registered |
| CompactStatuses.CompactStatus.OverlapsAt | compaction.go:128-135 | the loop finds an overlap exactly if a registered range overlaps |
| CompactStatuses.CompactStatus.Remove | compaction.go:137-149 | exactly the equal ranges are filtered out, and whether there was one is reported |
| CompactStatuses.OverlapIsShared | compaction.go:61-87 | non-empty ranges overlap exactly if they share a key |
| CompactStatuses.InfiniteAndEmpty | compaction.go:61-87 | an infinite range overlaps every one that is not empty and the other way round; an empty one overlaps everything and only empty ones overlap it |
| CompactStatuses.ExtendIsHull | compaction.go:42-59 | extending gives the smallest range that contains both |
| MergeIterators.NewMergeIterator | table/merge_iterator.go:198-220 | the tree over any number of ordered inputs yields their ordered union in the chosen direction, each key once, with the entry of the earliest input that has it; nil exactly for no inputs |
| MergeIterators.Next | table/merge_iterator.go:141-150 | one step drops exactly the first entry of what is left, at every node of the tree |
| MergeIterators.Rewind | table/merge_iterator.go:157-162 | everything is ahead again |
| MergeIterators.Seek | table/merge_iterator.go:165-170 | what is ahead is everything from the first key at or past the target in the direction of the iteration |
| MergeIterators.MergeIterator.Fix | table/merge_iterator.go:87-120 | the small pointer ends at the input to yield next, and of two equal heads the right one is passed over; what is still to come is unchanged |
| MergeIterators.MergeIterator.MoveOn | table/merge_iterator.go:141-150 | the loop comparing with the current key passes over exactly one entry of the union |
| MergeIterators.MergeMembers | table/merge_iterator.go:87-120 | a merge has the entries of the left input and those of the right whose key the left lacks |
| MergeIterators.MergeFrom | table/merge_iterator.go:165-170 | seeking in both inputs is seeking in the merge |
| MergeIterators.UnionJoins | table/merge_iterator.go:198-220 | merging the unions of two halves is the union of all inputs, the earliest input winning |
| MergeIterators.UnionIsUnique | table/merge_iterator.go:198-220 | there is one such union |
| MergeIterators.ReverseIsFlipped | table/merge_iterator.go:122-127 | over the same inputs backwards the tree yields the same entries backwards |
| ConcatIterators.ConcatIterator.Next | table/iterator.go:517-538 | one entry further, over to the next table when one is used up |
| ConcatIterators.ConcatIterator.Seek | table/iterator.go:493-515 | the binary search over the tables, by their biggest key or, backwards, their smallest, and the seek in the table found land on the first entry of the level at or past the key, in either direction |
| ConcatIterators.ConcatIterator.Rewind | table/iterator.go:466-476 | all entries of the level are ahead |
| ConcatIterators.ListsJoin | table/iterator.go:435-451 | going through the tables backwards, each backwards, is the level backwards |
| TxnIterators.IterationIsSnapshot | iterator.go:607-694 | iterating from Rewind until the iterator is not valid yields, in key order or its reverse, exactly what Get returns for each key covered: the newest version at or below readTs (and above SinceTs), deleted and expired ones left out, own pending writes winning; with a prefix forward iteration covers the keys that have it, and reverse iteration only the key equal to it |
| Entries.VisibleIsAlive | iterator.go:594-597 | what is visible at a timestamp is the newest version there, and it is neither deleted nor past its expiry |
| Entries.NewestDecides | iterator.go:594-597 | the newest version decides alone: visible if it is alive, and nothing is if it is not |
| Entries.ExpiredIsGone | iterator.go:594-597 | an entry whose time is up is not visible |
| TxnIterators.BackwardIsReverse | iterator.go:651-690 | reverse iteration yields exactly the reverse of forward iteration |
| TxnIterators.TxnIterator.Iterate | iterator.go:523-588 | the loop of a caller receives the items of the specification, with any prefetch size, and each is recorded as read in an update transaction |
| TxnIterators.TxnIterator.ParseItem | iterator.go:607-694 | one step of the parser changes neither what is held nor what is still to come |
| TxnIterators.TxnIterator.Fill | iterator.go:651-690 | looking ahead for a newer version in reverse yields the newest version of the key or nothing if it is deleted |
| TxnIterators.TxnIterator.NextItem | iterator.go:570-588 | the next item becomes current and one more is read ahead, as long as the prefix goes on |
| TxnIterators.TxnIterator.Prefetch | iterator.go:726-744 | reading ahead, up to the end of the prefix, changes nothing of what the caller sees; as many items are held as asked for, and fewer only at the end |
| TxnIterators.TxnIterator.SeekItem | iterator.go:749-785 | positioned at the items of the stream from the key on, from the prefix on when there is no key, or all of them when there is neither; only a key is recorded as read |
| TxnIterators.SeekIsSuffix | iterator.go:749-778 | without a prefix, a seek yields the items of the rewound iteration that are at or past the key |
| TxnIterators.RewindReversedIff | iterator.go:717-785 | rewinding in reverse yields the forward iteration reversed if and only if no key is shown that goes on after the prefix |
| TxnIterators.RewindMissesKeys | iterator.go:717-785 | two keys of which the reverse iteration yields one |
| TxnIterators.SeekBackward | iterator.go:717-785 | with a prefix, a seek in reverse yields what is shown of the prefix from the key down, or nothing if a key above the prefix is shown first |
| TxnIterators.SeekBackwardIff | iterator.go:717-785 | from a key at or above the prefix that is the forward iteration reversed, if and only if that is empty or no key in between is shown |
| TxnIterators.SeekForward | iterator.go:717-785 | with a prefix, a seek forward yields what is shown of the prefix from the key on, or nothing if any entry from the key on comes before the prefix |
| TxnIterators.RewindShows | iterator.go:607-694 | from Rewind, with or without AllVersions: exactly what is shown of the keys covered, in order |
| TxnIterators.ForwardShows | iterator.go:625-650 | forward, an entry is shown exactly if it is the newest in view of its key and alive, or any in view with AllVersions |
| TxnIterators.BackwardShows | iterator.go:651-690 | the same backward |
| TxnIterators.PendingWins | txn.go:260-333 | pending writes at the read timestamp, put first in the merge, win over the database |
| TxnIterators.UnionBest | iterator.go:459-491 | reading the newest version from the merged stream is reading it from its sources |
| PickedTables.PickTables | iterator.go:356-415 | the two binary searches, the early stop and the filters pick exactly the tables that picking each for itself would, in order |
| PickedTables.NothingMissed | iterator.go:332-352 | no table that has a wanted key (prefix or key, newer than SinceTs) is passed over |
| PickedTables.PickedIff | iterator.go:332-353 | exactly the tables that are new enough and leave room for a key with the prefix between their smallest and their biggest, and for a single key are not denied by their filter |
| PickedTables.RangeReaches | iterator.go:323-330 | the two comparisons with the prefix say whether any key between two others can have it |
| PickedTables.PrefixMonotone | iterator.go:323-330 | comparing with a prefix is monotone in the order of keys |
| PickedIterators.PickedIsAll | iterator.go:459-491 | iterating from Rewind over pending writes, memtables and the tables picked yields what iterating over all tables yields |
| PickedIterators.PickedIsSnapshot | iterator.go:459-491 | so each item is what Get returns from the whole database, and nothing that Get returns for a covered key is missing |
| Blocks.BuildTable | table/builder.go:336-349 | the blocks built from any entries, broken wherever the size check says, decode to exactly these entries in order |
| Blocks.Builder.AddHelper | table/builder.go:209-248 | the shared prefix and the rest give the key back |
| Blocks.BlockIterator.SetIdx | table/iterator.go:53-104 | the key at any index is right after any sequence of jumps, despite the prevOverlap shortcut |
| Blocks.BlockIterator.Seek | table/iterator.go:124-144 | lands on the first entry at or above the key from the start index on, or past the end |
| Blocks.LtTotal | y/y.go:132-137 | encoded keys are totally ordered |
| TableIterators.TableIterator.SeekFrom | table/iterator.go:256-295 | lands on the first entry of the table at or above the target, looking into the next block when the first one has none |
| TableIterators.TableIterator.SeekForPrev | table/iterator.go:303-309 | lands on the last entry at or below the target, or fails if there is none |
| TableIterators.TableIterator.Next | table/iterator.go:311-340 | exactly one entry further, across blocks |
| TableIterators.TableIterator.Prev | table/iterator.go:342-370 | exactly one entry back, across blocks, also from past the end |
| TableIterators.TableIterator.SeekToFirst | table/iterator.go:203-220 | at the first entry, or an error for an empty table |
| TableIterators.TableIterator.SeekToLast | table/iterator.go:222-239 | at the last entry, or an error for an empty table |
| TableIterators.TableIterator.FindBlock | table/iterator.go:268-276 | the first block whose base key is above the target |
| BlockBytes.ReadBlock | table/table.go:573-607 | stepping backwards through the footer finds the entries, offsets and checksum that were written; the length error exactly if the checksum length exceeds the block; a checksum mismatch is refused when verifying |
| BlockBytes.BlockWriter.Append | table/builder.go:227-243 | header, rest of the key and value follow each other, with the offset they start at |
| BlockBytes.BlockWriter.Finish | table/builder.go:262-274 | offsets, their number, the checksum of all that, and its length follow; an empty block is left alone |
| BlockBytes.EntryAt | table/iterator.go:53-104 | the slot is read back if and only if header and rest of the key together fit 16 bits; otherwise the slice is out of range |
| BlockBytes.LongRest | table/iterator.go:53-104 | an entry that can be written and is not read back |
| BlockBytes.EntrySpan | table/iterator.go:70-78 | consecutive offsets delimit exactly one entry's bytes |
| Blooms.NoFalseNegatives | y/bloom.go:18-91 | a key that was added is never denied, for any keys, bits per key and number of probes; the only other outcome is the division by zero when the number of bits is 0 in 32 bits |
| Blooms.NewFilter | y/bloom.go:57-91 | the filter finds every key added; construction fails exactly when there are keys and the number of bits is 0 in 32 bits |
| Blooms.TooManyBits | y/bloom.go:57-91 | 2^26 keys for which it fails |
| Blooms.MayContain | y/bloom.go:18-38 | true exactly if all probed bits are set; false for short filters, true for reserved numbers of probes |
| Blooms.SetOne | y/bloom.go:82-86 | setting a bit sets that bit and loses none |
| Blooms.ProbeIs | y/bloom.go:26-36 | probe j is at h plus j times the rotated hash, in 32 bits |
| Blooms.DeltaIsRotation | y/bloom.go:26-36 | the increment is the hash rotated by 17 bits |
| Skiplists.Skiplist.Put | skl/skl.go:273-335 | a whole insert is a map update of the ordered contents, for any height drawn, and leaves every level sorted and a sub-list of the level below, for the one writer the memtable has |
| Skiplists.Skiplist.CasNext | skl/skl.go:318-323 | a single link step succeeds exactly if the successor is still the one found, keeps every level sorted and a sub-list of the level below, and changes the contents only at the base level |
| Skiplists.Skiplist.StoreNext | skl/skl.go:318-319 | preparing a tower slot that nothing leads to yet changes nothing readers see |
| Skiplists.Skiplist.NewNode | skl/skl.go:96-105 | a new node changes nothing readers see |
| Skiplists.Skiplist.SetValue | skl/skl.go:136-140 | overwriting a value is a map update |
| Skiplists.Skiplist.LinkAll | skl/skl.go:305-334 | linking from the base level up ends with the key inserted |
| Skiplists.Skiplist.FindNear | skl/skl.go:175-241 | in all four modes the node of the specification, and whether it has the very key |
| Skiplists.NearMeans | skl/skl.go:169-174 | that node is the nearest one that qualifies: the rightmost below (or at) the key, the leftmost above (or at) it, or none if there is none |
| Skiplists.Skiplist.FindSpliceForLevel | skl/skl.go:243-266 | two neighbours around the key, or the node that has it |
| Skiplists.Skiplist.FindLast | skl/skl.go:344-361 | the last node of the base level, or none |
| Skiplists.Skiplist.Get | skl/skl.go:365-380 | the newest version of the user key at or below the one asked |
| Skiplists.UniIterator.Seek | skl/skl.go:493-499 | what is ahead is everything from the key on, in either direction |
| Skiplists.UniIterator.Next | skl/skl.go:475-481 | one entry further in either direction |
| Skiplists.InsertedIsUpdate | skl/skl.go:273-335 | the insertion into the ordered contents is a map update and keeps the order |
| Arenas.Arena.PutNode | skl/arena.go:46-61 | an aligned block in no other block's bytes if the 32-bit counter does not wrap around; the assertion sees what is left of the counter, so a node too large passes it exactly when that is within the buffer |
| Arenas.NodeTooLarge | skl/arena.go:46-61 | a buffer and a counter where one does |
| Arenas.Arena.PutKey | skl/arena.go:78-92 | bytes no other allocation has, or the program stops: exactly when the key goes beyond the buffer or 2^32 |
| Arenas.Arena.PutVal | skl/arena.go:67-77 | bytes no other allocation has, or the program stops exactly when the value goes beyond the buffer; past 2^32 bytes the counter is left behind |
| Codec.HeaderRoundTrip | structs.go:74-96 | a header is read back from its bytes whatever follows, with its length |
| Codec.NothingDecoded | structs.go:85-96 | nothing is decoded exactly if one of the three numbers cannot be read where it would be |
| Codec.HeaderFits | structs.go:74-81 | an encoded header never needs more than 22 bytes |
| Codec.EncodeHeader | structs.go:74-81 | the buffer holds exactly the encoded header and the rest is untouched |
| Codec.VarintRoundTrip | structs.go:85-96 | any 64-bit number is read back from its varint, whatever follows |
| Codec.VarintIsDigits | structs.go:74-81 | a varint has the number's digits to the base 128, the least first, all but the last with the high bit |
| Codec.ReadUvarint | structs.go:85-96 | the decoding loop computes the value, the length, or which of the two ways it is malformed |
| Codec.ValueRoundTrip | y/iterator.go:43-58 | a ValueStruct is read back from its bytes |
| Codec.EncodedSize | y/iterator.go:36-40 | the size reserved is the size written |
| Codec.SizeVarint | y/iterator.go:24-33 | counting shifts gives the length of the varint |
| Wal.ReplayIsAtomic | memtable.go:433-530 | for any log of whole transactions and lone entries, cut after any number of entries and followed by any bytes where no entry can be read, iterate delivers in order exactly the entries of the complete transactions before the damage; it returns where they end if and only if no number of the header there exceeds 64 bits and its two lengths do not wrap around 32 bits: the former is an error, the latter a panic |
| Wal.OneBadNumber | memtable.go:433-530 | a log synced whole that thirteen bytes behind it make fail |
| Wal.CorruptEntryEnds | memtable.go:433-530 | an entry with a wrong checksum ends the log without an error: the complete transactions before it are delivered, and nothing else |
| Wal.CutAt | memtable.go:433-530 | a cut at any byte is a cut after some number of entries followed by a torn one that cannot be read |
| Wal.ReplayAgain | memtable.go:201-213 | replay of the file truncated there, whatever the damage was, delivers the same and succeeds |
| Wal.ReplayGivesWhole | memtable.go:225-247 | replay into an empty memtable gives the contents and largest version that the complete transactions alone put there; all of them for an undamaged log |
| Wal.ReplayRebuilds | memtable.go:170-247 | what Put put into the memtable is what replaying the delivered entries puts there |
| Wal.Iterate | memtable.go:433-530 | the loop computes the specified scan: delivered entries, end offset, or the error |
| Wal.Take | memtable.go:478-526 | the branches on transaction bits and timestamps do what the specification step does |
| Wal.MemTable.Put | memtable.go:170-199 | log first, then skiplist; the finish marker only goes to the log |
| Wal.MemTable.UpdateSkipList | memtable.go:201-213 | the contents are those of the scan, and the file is truncated unless the scan failed |
| Wal.FormatRoundTrip | memtable.go:497-504 | the commit timestamp written as decimal text is parsed back |
| Wal.ParseIff | memtable.go:497-504 | what is parsed are decimal digits, at least one, that come to less than 2^64 |
| LogFiles.ReadWhole | value.go:109-160 | an entry written is read back whatever follows it |
| LogFiles.LongKeyEnds | value.go:116-118 | an entry with a key of more than 65536 bytes is taken for the end of the log |
| LogFiles.ReadChecked | value.go:109-160 | which bytes are read as an entry, whose four last bytes are the checksum of all before them |
| LogFiles.GotHasChecksum | value.go:150-155 | an entry that is read is followed by the checksum of its bytes |
| LogFiles.CorruptIsDamage | value.go:150-155 | an entry written whole whose checksum bytes are not the checksum of what precedes them is not read |
| LogFiles.ReadTorn | value.go:109-160 | an entry cut at any byte ends the log |
| LogFiles.FailsIff | structs.go:100-125 | which bytes are read with an error, and which lengths make the slice panic |
| LogFiles.LongNumberFails | value.go:109-160 | thirteen bytes that are an error for any checksum |
| LogFiles.LengthsWrap | value.go:124-148 | nine bytes whose lengths add up to 0 in 32 bits and make the slice panic |
| LogFiles.ReadZeros | memtable.go:533-535 | zeroed space is not an entry for any checksum |
| ValueLogs.ValueLog.Rewrite | value.go:162-357 | after a rewrite every version that is not deleted and whose time is not up reads the same value, from elsewhere; versions that did not need moving are untouched; unless it is done the file stays in place and every version reads the same, and that is only because the file is already to be deleted, an entry is too big for any batch, or a write is refused or fails; other files only grow |
| ValueLogs.ValueLog.WriteRest | value.go:308-329 | the batch-halving loop ends with all written, with batch size zero because an entry is too big for any batch, or with the error of a write; in the latter two every version still has its value |
| ValueLogs.ValueLog.Examine | value.go:180-299 | one entry: passed over, or put into the batch, which stays within its limits and is written first only when it would not; the progress invariant holds |
| ValueLogs.ValueLog.BatchSet | db.go:983-990 | refused as a whole if too big, or written entry by entry in order, each value readable at its new place; a write that fails leaves the entries before it written |
| ValueLogs.FlushKeeps | value.go:235-243 | writing a batch keeps the progress invariant |
| ValueLogs.PassOver | value.go:186-213 | an entry that is dead, discarded or pointed to elsewhere needs nothing; any other one is a live version of this file |
| ValueLogs.ProgressIs | value.go:162-300 | at any moment of a rewrite every version has the value it had |
| ValueLogs.ProgressEnds | value.go:333-346 | at the end nothing alive needs the file, so removing it loses nothing |
| ManifestFiles.AlwaysInSync | manifest.go:100-230 | over any sequence of change sets, rewrites, failures that put everything back, appends torn off at any byte and reopens, replaying the file gives the tables in memory, and for levels below 256 the index by level |
| ManifestFiles.NothingLost | manifest.go:100-230 | at any moment of such a run the tables are what all change sets added so far, one after the other, make of an empty manifest |
| ManifestFiles.StepKeeps | manifest.go:197-230 | each of these steps keeps file and memory in step and changes the tables as its change set says and no further |
| ManifestFiles.OpenOrCreate | manifest.go:126-187 | opening fails exactly if replay does or there is no file to read; otherwise the file is cut where replay stopped, memory is a fresh copy of the replayed tables with counts and an index of its own, and the two are in step with no premise on what came before |
| ManifestFiles.OpenSyncs | manifest.go:148-187 | what is left of the file after truncation replays to the tables of that copy |
| ManifestFiles.TornAppend | manifest.go:386-412 | a file in step with the first bytes of a change set behind it replays as without them, unless the length is there and more than the file's size |
| ManifestFiles.TruncateKeeps | manifest.go:165-170 | truncating at the offset replay gives leaves what replay gives, exactly as long as no length exceeds the new size in 32 bits |
| ManifestFiles.CountsStartOver | manifest.go:108-113 | after a reopen the counts in memory are behind those of a file that has recorded a deletion |
| ManifestFiles.ManifestFile.AddChanges | manifest.go:197-230 | after every successful change set replaying the file gives the tables in memory if it did before, or in any case after a rewrite, and likewise the counts and, for levels below 256, the index; a failing one leaves the file alone and memory as far as it got, and the two agree on the tables if and only if the changes before the failing one put every table back |
| ManifestFiles.AddKeepsSync | manifest.go:197-230 | the same of the state a change set leaves |
| ManifestFiles.TruncatedReplay | manifest.go:353-427 | a file cut anywhere after its header replays, if it replays, to the state after all change sets still whole, and reports where they end; exactly when it fails is stated too: a change set that cannot be applied, or a length above the size in 32 bits |
| ManifestFiles.FourGigabytes | manifest.go:398-404 | a whole file of 2^32 bytes that does not replay |
| ManifestFiles.ReplayManifestFile | manifest.go:353-427 | the loop computes the specified replay |
| ManifestFiles.AppendKeepsSync | manifest.go:197-230 | appending a change set that was applied keeps the tables of file and memory in step, if and only if no length in the file exceeds its size in 32 bits |
| ManifestFiles.AppendKeepsCounts | manifest.go:197-230 | and the counts, if they were |
| ManifestFiles.AppendKeepsStep | manifest.go:197-230 | and the index by level too, for levels below 256 |
| ManifestFiles.RewriteSyncs | manifest.go:241-305 | a rewritten file is in step with memory, tables and counts, if and only if it has less than 2^32 bytes |
| ManifestFiles.RewriteSteps | manifest.go:241-305 | index by level included, whatever the file held before |
| ManifestFiles.InStepIndex | manifest.go:353-472 | then every level of the index rebuilt from the file has the tables it has in memory |
| Manifests.Rebuilt | manifest.go:100-106 | applying the creations of any listing of the tables rebuilds the tables, each counted once |
| ManifestFiles.FailedChanges | manifest.go:204-208 | after a failing change set file and memory agree on the tables if and only if every table that the changes before the failing one are about ends as it was, and on the counts if and only if there are no such changes |
| Manifests.SetIs | manifest.go:429-472 | a change set is applied in full if and only if no change is an unknown operation or creates a table that is there by then; the last change about a table decides what it is, whatever the counts and the index are |
| Manifests.FailsCleanly | manifest.go:465-472 | a failing change set leaves the tables alone if and only if the changes before the failing one put every table back |
| Manifests.Manifest.Clone | manifest.go:108-113 | the copy always succeeds, with the same tables, each counted once, and an index that says what the tables say |
| ManifestFiles.CreatedTwice | manifest.go:204-208 | a change set after which they do not |
| Manifests.ChangeKeepsConsistent | manifest.go:429-461 | a change that is applied keeps the index by level saying exactly what the tables say if and only if it does not create a table at level 256 or above |
| Manifests.ConsistentIff | manifest.go:465-472 | the same for every prefix of a change set that is applied |
| Manifests.SetKeepsConsistent | manifest.go:465-472 | a change set, applied or failing, keeps the index right for levels below 256 |
| Manifests.LevelBeyondByte | manifest.go:437-455 | a table created at level 256 and deleted again stays in the index |
| Manifests.Manifest.ApplyManifestChange | manifest.go:429-461 | creating a known table or an unknown operation is refused without a change; deleting an unknown table is accepted and counted |
| Manifests.Manifest.ApplyChangeSet | manifest.go:465-472 | stops at the first refused change, keeping those before it |
| Manifests.Manifest.AsChanges | manifest.go:100-106 | one creation for every table, in any order |
| ManifestFiles.ReadTornFrame | manifest.go:377-400 | a torn change set ends the replay, unless its length exceeds the whole file, which is an error |
| ManifestFiles.SetHasChecksum | manifest.go:386-421 | a change set that is read has its length and its checksum, and is what its bytes say |
| ManifestFiles.WrongChecksumIsBad | manifest.go:386-421 | with another checksum, or bytes that are no change set, replay fails rather than ends |
| ManifestFiles.WrongHeaderFails | manifest.go:353-372 | a file without the magic text, the external magic and the version is refused |
| ManifestFiles.TornAndTooLong | manifest.go:377-400 | a file where it does |
| Tries.GetIsLive | trie/trie.go:178-206 | a lookup gives exactly the ids of the live patterns (bytes and wildcards) that match a prefix of the key |
| Tries.AddLive | trie/trie.go:119-171 | adding makes exactly one more pattern and id live |
| Tries.RemoveLive | trie/trie.go:119-171 | removing takes exactly that one away |
| Tries.RemoveEmptyKeepsGet | trie/trie.go:208-223 | removing empty nodes never changes a lookup |
| Tries.RemoveEmptyPrunes | trie/trie.go:208-223 | no empty node is left |
| Tries.AddPruned | trie/trie.go:119-171 | adding leaves no empty node where there was none |
| Tries.Trie.Lookup | trie/trie.go:173-175 | after any adds and deletes, exactly the ids with a live matching pattern |

## Left out

Premises of the main results:

- Serializable: update transactions in non-managed mode that read through Get, with conflict detection on and no TTL; iterators record only the keys they return or seek to, so phantoms are not part of it.
- Serializable: the marks that Open puts on both watermarks are taken as already processed; batches are written in commit order, as the single write goroutine does.
- Progress.WaitingEnds: there is a way for the wait to end; that its steps are taken is up to the scheduler. Likewise for LookupEnds, FlushEnds and CompactionEnds.
- Serializable: a request that fails after it was sent has written all of its entries, and counts as committed whatever the caller is told, or none; one that fails in between is not a step (`HalfWritten` shows why).
- Oracles.TxnObject.Modify: managed mode, with its duplicate writes, is left out; whether a namespace is banned is a parameter.
- EveryLookupIsRight: a compaction starts only when the levels it passes over are empty. The choice of the base level does not ensure that (`BaseLevels.NothingPassedIff`); `PassedLevels` says what a compaction past other levels does on its own, not what several of them do at once.
- EveryLookupIsRight: compactions are between two different levels and each version of a key is written once; compactions within a level are left out because the old top table and its replacements coexist for a moment, and because those within level 0 can lose a deletion (`ZeroToZeroIff`). A rewrite of the value log writes versions again (`PutBackIff`).
- CompactionPreservesSnapshots: that newer places hold only newer versions is a premise here; `Interleavings` proves what it needs of it for the runs it is about, and `PreservedIff` does without. `now` never decreases.
- SplittingIsTransparent: all sub-compactions share one discard timestamp, `now` and overlap result; SplitsPreserveSnapshots is about one of each for every range.
- Compactions.Subcompaction.AddKeys: dropping keys by prefix, discard statistics and the stale-key mark of an entry are left out; table size and overlap with the level after next are arbitrary functions.
- CompactStatuses.CompactStatus.Delete: for compactions within one level other than level 0 only RemoveUndoesAdd speaks of it.
- ValueLogs.ValueLog.Rewrite: no compaction or other writer runs meanwhile and the clock stands still; offsets are indices of entries; the LSM tree is a map from exact versions to what is stored, so that a version put back replaces the old one. Which writes fail is a parameter.
- Wal.ReplayIsAtomic: entries are those Put writes; transactions are not interleaved in the log, since a batch is written under one lock.
- ManifestFiles.ManifestFile.AddChanges: writing the file does not fail; the rewrite's rename is one step; serialisation is any function that can be inverted for the change sets concerned. Files stay below 4 GiB where AppendKeepsSync does not say more.
- ManifestFiles.AlwaysInSync: a failing change set that does not put everything back is not a step of these runs.
- TxnIterators.IterationIsSnapshot: one version per key; with AllVersions, ForwardShows and BackwardShows say what is shown. Keys are integers, so a prefix is the interval of keys that have it, the key equal to the prefix first.
- Skiplists.Skiplist.Put: one writer, since write requests are served by one goroutine only (db.go:832); a failed compare-and-swap and the retry after it need a second one. The contracts of the single link steps do not assume it.
- Skiplists.Skiplist.LinkAll: the retry after a failed compare-and-swap is left out likewise.
- Skiplists.UniIterator.Next: modelled over a list that does not change while it moves.
- BlockBytes.EntryAt: header and offsets are stored as they are in memory, taken to be little-endian.
- Blooms.NewFilter: the number of probes is a parameter, since the program computes it in floating point; the hash function is left out, any 32-bit hashes do.
- Tries.Trie.Lookup: nodes are values, so updating them in place and sharing them is not captured; parsing of the ignore string is left out.
- MergeIterators.NewMergeIterator: leaves are lists of entries; closing iterators is left out.

Not modelled:

- Managed mode, banned namespaces, DropAll and DropPrefix, streams, backup, the stream writer, merge operator and sequences.
- Files, memory mapping, fsync and directory locks: a file is a sequence of bytes or records.
- Encryption, compression and the insides of checksums; the key registry.
- Ristretto caches, allocators and reference counts of tables and blocks: they do not change what is read.
- Choosing compactions: scores and the file-size heuristics of fillTables. The proofs hold for any choice of the source's shape that passes over empty levels only.
- Channels, goroutine scheduling and throttles, except for the order of marks and the atomic steps.
- Metrics, the histogram, the rate monitor, PageBuffer and the command-line tools.
