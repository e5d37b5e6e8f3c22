# Verification of the key-value store, tasks and set intersection

A Dafny model, with proofs, of the hard core of three components:

* **The embedded log-structured store** (`common/rusty_leveldb_sgx`). Versioned reads: the database
  iterator as a cursor over a snapshot (`Scan`, `DbIter`, `DbIterProofs`, `Versions`), the merging
  iterator under it (`MergingIter`, `MergingRuns`), compaction, the files it takes and the snapshots it
  must respect (`Compaction`, `CompactionInputs`, `LeftBehind`, `EarlyStops`, `Snapshots`), lookups through
  memtable and tables (`Keys`, `Lookups`, `Gets`). Formats: blocks with prefix compression
  (`BlockFormat`, `BlockBuilder`, `BlockIter`), separators (`Comparators`), Bloom filters and filter
  blocks (`Filter`, `FilterBlock`), the log and what is read from a cut or damaged one (`Log`,
  `LogProofs`, `LogStages`, `LogDamage`). Durability: write batches, recovery, restarts and crashes
  (`WriteBatch`, `Recovery`, `Durability`). The LRU cache over linked nodes (`Cache`).
* **The task state machine** (`types/src/task_state.rs`): what holds of a task over every run of
  sessions, and who may do what to it (`Tasks`, `TaskProofs`, `TaskRights`).
* **Ordered set intersection** (`function/src/ordered_set_intersect.rs`): `Intersect`.

`Order`, `Codec` and `Layouts` hold byte strings, comparators, integer encodings and what they look like. Code that updates state in
place is a class or a method with loops, proved against functions on values; the laws are lemmas about
those functions. `dafny verify dfyconfig.toml` checks the project.

Inputs from outside are parameters: the user comparator (any total order), the checksum and hash
functions (any function), the memtable's size estimate, the decision to start a new output file, and
whether the manifest must be saved.

Where the code and what its documentation says differ, the model follows the code:

* The memtable's iterator passes over deletion markers when it goes back (`memtable.rs:96-115`), so a
  database iterator over it can show a deleted key, or the same key twice. `DbIterProofs` gives such
  runs and says exactly when every run shows the snapshot.
* The merging iterator loses a child that ends before the key when it turns back
  (`merging_iter.rs:89-92`) and keeps its direction over a seek (`merging_iter.rs:165-170`).
  Past the end it starts over with its first child only (`merging_iter.rs:143-157`).
  `Merging.MergingIter.Prev` says exactly when going back lands right, `MergingRuns.RunsMergeExactly`
  exactly when every run does; `Merging.LostChild` and `Merging.StaleDirection` are runs that do not.
* A compaction can take a file without its neighbour that holds older versions of the same user key
  (`version_set.rs:355-364`, `version_set.rs:393`). Then a deletion can be dropped while the put it hid
  stays. `Compaction.CompactionPreservesReads` says exactly when that happens, `LeftBehind` where, and
  `LeftBehind.DeletedKeyReturns` is a run in which it does.
* A lookup in the tables ends at the deletion of any key (`version.rs:96-99`); `Gets` says exactly when
  the answer is right and gives an input for which it is not.
* `SnapshotList::oldest` (`snapshot.rs:80-97`) compares handles, not sequence numbers. `Snapshots` has
  the exact condition under which live snapshots are protected, and a run that breaks it.
* Once a snapshot has been taken, `SnapshotList::empty` is never true again (`snapshot.rs:107-109`).
* `find_shortest_sep` (`cmp.rs:44-94`) does not always return the shortest separator, and the internal
  separator can reach its second key; `Comparators` says exactly when, with an input for each.
* A log cut by a crash and then reused (`db_impl.rs:285-294`) is read back with the cut record glued to
  the next one. `LogStages.CutLogReusable` says exactly when it can be reused, and `LogProofs.CutLogGlues`
  is a record that is glued.
* The filter reader (`filter_block.rs:149-164`) fails for a range without a filter and for the range
  right after the last; `FilterBlocks.ReaderAnswers` gives its answer everywhere, and
  `FilterBlocks.NextRangeFails` is a block and an offset that fail.
* The compaction loop (`db_impl.rs:803-805`) finishes an output before a key if none is open, which
  fails an assertion; `Compaction.DoCompactionWork` says exactly when, `EarlyStops.StopPanics` with what.
* Inserting a key that is still cached breaks the cache (`cache.rs:206-217`); `Cache.Cache.Insert` says
  exactly when it stays good and when it fails, and `Cache.FailsToEvict` is a run that fails.
* The order accepted for descending inputs is spelled "desending" (`ordered_set_intersect.rs:74`).

## Model

| member | source | states |
|---|---|---|
| `Versions.ViewIsSnapshot` | common/rusty_leveldb_sgx/src/db_iter.rs:77-109 | The snapshot view lists, in strictly ascending user-key order, exactly the keys whose newest entry at or below the snapshot is a put, each with that entry's value |
| `Scan.MemtableIterator.Prev` | common/rusty_leveldb_sgx/src/memtable.rs:96-115 | Going back lands on the last put before, past any deletions |
| `Scan.LandsOnShown` | common/rusty_leveldb_sgx/src/memtable.rs:96-115 | A backward scan that passes over deletions lands on a shown entry, or finds none, exactly if the nearest other key with a visible put is not deleted |
| `DbIter.DBIterator.FindNextUserEntry` | common/rusty_leveldb_sgx/src/db_iter.rs:77-109 | Scanning forward stops at the first shown entry from its target on; after turning round behind the deletion of another key the target is the entry left |
| `DbIter.DBIterator.FindPrevUserEntry` | common/rusty_leveldb_sgx/src/db_iter.rs:114-165 | Scanning backward saves key and value of the last entry offered by what the inner iterator stops at, or becomes invalid if there is none |
| `DbIter.DBIterator.Advance` | common/rusty_leveldb_sgx/src/db_iter.rs:169-196 | Goes to the next shown entry in either direction mode, over an exact inner iterator or one that passes over deletions going back, where it may stay |
| `DbIter.DBIterator.Current` | common/rusty_leveldb_sgx/src/db_iter.rs:197-213 | Returns key and value of the entry it stands at, whichever direction the inner iterator has |
| `DbIter.DBIterator.Prev` | common/rusty_leveldb_sgx/src/db_iter.rs:214-244 | Goes to the last entry offered before, in either direction mode and over either kind of inner iterator; returns false exactly if it was not valid or, going forward, the inner iterator shows no smaller key before it |
| `DbIter.DBIterator.Seek` | common/rusty_leveldb_sgx/src/db_iter.rs:248-263 | Goes to the first shown entry at or above the target |
| `DbIter.DBIterator.SeekToFirst` | common/rusty_leveldb_sgx/src/db_iter.rs:264-276 | Goes to the first shown entry, invalid if there is none |
| `DbIter.Replay` | common/rusty_leveldb_sgx/src/db_iter.rs:169-276 | Every sequence of seek, seek_to_first, advance and prev shows what the same run on the stream shows, for both kinds of inner iterator |
| `DbIterProofs.SeekAgrees` | common/rusty_leveldb_sgx/src/db_iter.rs:248-276 | Seeks agree with a plain cursor over the snapshot view, whatever was before |
| `DbIterProofs.AdvanceAgrees` | common/rusty_leveldb_sgx/src/db_iter.rs:169-196 | Advance moves from view position i to i+1 exactly unless it follows a step back over the deletion of another key by an inner iterator that passes over deletions |
| `DbIterProofs.PrevAgrees` | common/rusty_leveldb_sgx/src/db_iter.rs:214-244 | Prev moves from view position i to i-1 exactly unless such an inner iterator meets a deleted key with a visible put next |
| `DbIterProofs.ExactRunsAgree` | common/rusty_leveldb_sgx/src/db_iter.rs:77-276 | Over an exact inner iterator, every run with any direction switches shows what a plain cursor over the snapshot view shows |
| `DbIterProofs.RunsAgreeExactlyIfClean` | common/rusty_leveldb_sgx/src/memtable.rs:96-115 | Over a memtable, every run does so exactly if no shown key has a deleted key with a visible put next before it, and none but the last has the deletion of another key right before it |
| `DbIterProofs.ShowsSnapshot` | common/rusty_leveldb_sgx/src/db_iter.rs:77-276 | The same of the iterator run through its methods |
| `DbIterProofs.DeletedKeyShown` | common/rusty_leveldb_sgx/src/memtable.rs:96-115 | Put, delete, put another key, seek it and go back: the deleted key is shown |
| `DbIterProofs.SameKeyShownTwice` | common/rusty_leveldb_sgx/src/memtable.rs:96-115 | Back over the deletion of a smaller key and on again: the same key is shown twice |
| `Merging.Find` | common/rusty_leveldb_sgx/src/merging_iter.rs:109-139 | The child found stands at the smallest, or largest, entry of all that stand anywhere |
| `Merging.MergingIter.Seek` | common/rusty_leveldb_sgx/src/merging_iter.rs:165-170 | Goes to the first entry of all children at or after the target, or is invalid if there is none |
| `Merging.MergingIter.SeekToFirst` | common/rusty_leveldb_sgx/src/merging_iter.rs:41-50 | Goes to the first entry of all children |
| `Merging.MergingIter.Advance` | common/rusty_leveldb_sgx/src/merging_iter.rs:143-157 | Goes to the next entry of all children, from either direction and also if children were lost going back |
| `Merging.MergingIter.UpdateDirection` | common/rusty_leveldb_sgx/src/merging_iter.rs:55-100 | Puts the other children at or after the current key, or where going back is to start |
| `Merging.TurnedStands` | common/rusty_leveldb_sgx/src/merging_iter.rs:82-95 | After the switch to going back, a child stands at its last entry before the current key exactly if it has an entry at or after it, or none before it |
| `Merging.SwitchLands` | common/rusty_leveldb_sgx/src/merging_iter.rs:82-95 | Going back right after the switch lands right exactly if every child with the entry to land on is the current one or has an entry at or after the key |
| `Merging.MergingIter.Prev` | common/rusty_leveldb_sgx/src/merging_iter.rs:184-197 | Lands on the last entry before: after a switch exactly if the child with that entry is the current one or has an entry at or after the key; already going back, exactly if that child stands there and no other stands ahead, or after it at an entry it passes over |
| `Merging.LandsExactly` | common/rusty_leveldb_sgx/src/merging_iter.rs:184-197 | Stepping the current child back and taking the largest lands right exactly under that condition |
| `Merging.FirstInMerged` | common/rusty_leveldb_sgx/src/merging_iter.rs:165-170 | Seeking goes where a cursor over the merged list goes |
| `Merging.NextInMerged` | common/rusty_leveldb_sgx/src/merging_iter.rs:143-157 | Advancing goes to the next entry of the merged list |
| `Merging.PrevInMerged` | common/rusty_leveldb_sgx/src/merging_iter.rs:184-197 | The last entry before is the one before in the merged list |
| `Merging.LostChild` | common/rusty_leveldb_sgx/src/merging_iter.rs:89-92 | A run that loses the entry of a child that ends before the key |
| `Merging.StaleDirection` | common/rusty_leveldb_sgx/src/merging_iter.rs:165-170 | A run in which going back after a seek goes on, because the seek did not reset the direction |
| `MergingRuns.Run` | common/rusty_leveldb_sgx/src/merging_iter.rs:142-197 | Every run of seek, seek_to_first, advance and prev shows what the same run of the value-level iterator shows |
| `MergingRuns.RunsMergeExactly` | common/rusty_leveldb_sgx/src/merging_iter.rs:55-197 | Over children that pass over nothing, every run shows what a cursor over the merged list shows, exactly if no child but the first has entries |
| `MergingRuns.SoloMoves` | common/rusty_leveldb_sgx/src/merging_iter.rs:55-197 | If only the first child has entries, each call is that call on the first child, passing over deletions or not; so a database iterator over it is one over that child |
| `MergingRuns.TurnLoses` | common/rusty_leveldb_sgx/src/merging_iter.rs:89-92 | Whenever two children have entries, turning back after the end of one of them goes wrong |
| `MergingRuns.StaysOut` | common/rusty_leveldb_sgx/src/merging_iter.rs:143-157 | Whenever the first child is empty and another is not, advancing past the end does not start over |
| `MergingRuns.ForwardRuns` | common/rusty_leveldb_sgx/src/merging_iter.rs:109-170 | Over any children, every run that does not go back, or on past the end, shows what a cursor over the merged list shows |
| `Compaction.CompactionPreservesReads` | common/rusty_leveldb_sgx/src/db_impl.rs:794-866 | Readings of all user keys at all snapshots from the smallest on are the same before and after, whatever else the database holds, exactly if no deletion marker that is dropped hid a put that is not among the inputs |
| `Compaction.HiddenPutRead` | common/rusty_leveldb_sgx/src/db_impl.rs:794-866 | Such a put is read afterwards, where nothing was read before |
| `Compaction.KeptSorted` | common/rusty_leveldb_sgx/src/db_impl.rs:794-866 | What a compaction keeps is a strictly sorted subsequence of its input |
| `Compaction.KeptExactly` | common/rusty_leveldb_sgx/src/db_impl.rs:799-843 | An entry of the input survives exactly if its number is not 0 and it is above the smallest snapshot, or is the newest version of its key that is not and no deletion of a key absent from the deeper levels |
| `Compaction.BaseLevelIsSound` | common/rusty_leveldb_sgx/src/version_set.rs:107-126 | A key outside every file range of the deeper levels has no entry there |
| `Compaction.SearchFiles` | common/rusty_leveldb_sgx/src/version_set.rs:110-124 | The remembered index only passes files that end before every key still to be asked, and the level's answer is exact |
| `Compaction.DeeperLevels.IsBaseLevelFor` | common/rusty_leveldb_sgx/src/version_set.rs:107-126 | With its cross-call indices, for keys asked in ascending order, answers true exactly when no file of a deeper level covers the key |
| `Compaction.Omit` | common/rusty_leveldb_sgx/src/db_impl.rs:806-843 | The incremental decision (last sequence number seen for the current user key) equals the definition of a dropped entry over the whole input |
| `Compaction.CompactEntries` | common/rusty_leveldb_sgx/src/db_impl.rs:798-866 | Every entry is either dropped or written to the files in input order; fails exactly when an entry asks to finish an output although none is open |
| `Compaction.DoCompactionWork` | common/rusty_leveldb_sgx/src/db_impl.rs:775-870 | The files written contain exactly the kept entries, each closed at the first entry that makes it full; each file's range covers its keys, and ranges are disjoint and ascending also when the last key read was dropped |
| `Compaction.InstalledFilesPreserveReads` | common/rusty_leveldb_sgx/src/db_impl.rs:886-904 | Installing the output files changes no read at or above the smallest snapshot exactly if no dropped deletion marker hid a put in the upper levels or in a file that stays in the two levels compacted; deeper levels cannot hold one |
| `Compaction.MaximumDropsEverything` | common/rusty_leveldb_sgx/src/db_impl.rs:794-843 | With a smallest snapshot at or above the largest sequence number, even the first version of a key is dropped |
| `CompactionInputs.OverlappingInputs` | common/rusty_leveldb_sgx/src/version.rs:287-352 | Terminates and returns exactly the files that overlap the range; in level 0 the range is widened to the least one that no file it meets sticks out of |
| `CompactionInputs.GetRange` | common/rusty_leveldb_sgx/src/version_set.rs:956-978 | The least and greatest bounds of some files |
| `CompactionInputs.Truncated` | common/rusty_leveldb_sgx/src/version_set.rs:355-364 | Cuts the inputs after the file with which they exceed the maximum file size |
| `CompactionInputs.SetupOtherInputs` | common/rusty_leveldb_sgx/src/version_set.rs:373-424 | Takes in the next level exactly the files that overlap the inputs; adds files of the own level exactly if that makes more inputs, stays below 25 maximum file sizes and brings in no further file of the next level |
| `CompactionInputs.CompactRange` | common/rusty_leveldb_sgx/src/version_set.rs:338-371 | Finds none exactly if no file of the level overlaps the range; otherwise the inputs are exactly the overlapping files up to the one with which they exceed the maximum file size, completed by the same rule |
| `CompactionInputs.PickCompaction` | common/rusty_leveldb_sgx/src/version_set.rs:295-335 | Takes the first file that ends behind the point reached last time, or the first of all if there is none, in level 0 with the files of its least closed range, completed by the same rule |
| `CompactionInputs.FinishSetup` | common/rusty_leveldb_sgx/src/version_set.rs:434-455 | The files kept for early stops are exactly those two levels down that overlap all inputs, and the point reached is where the inputs of the level end |
| `CompactionInputs.MovesOn` | common/rusty_leveldb_sgx/src/version_set.rs:299-317 | The next compaction of the level starts from a file that ends behind all inputs of this one, as long as there is such a file |
| `CompactionInputs.MeetsExactly` | common/rusty_leveldb_sgx/src/version.rs:287-352 | A file meets a range, open to any side, exactly if some key lies in both |
| `CompactionInputs.TotalSizeAdds` | common/rusty_leveldb_sgx/src/version_set.rs:406-412 | The size of some files is the sum of theirs |
| `LeftBehind.OlderLeftBehind` | common/rusty_leveldb_sgx/src/version_set.rs:373-424 | An older version of a key that is read can stay behind only where two neighbouring files share a user key and only the first is taken; never in level 0 |
| `LeftBehind.ExposedAtSharedKey` | common/rusty_leveldb_sgx/src/version_set.rs:373-424 | Only there can a compaction expose a put |
| `LeftBehind.VersionReadsKept` | common/rusty_leveldb_sgx/src/db_impl.rs:886-904 | For inputs so chosen, no read at or above the smallest snapshot changes exactly if no dropped deletion marker hid a put in what stays |
| `LeftBehind.InstalledInOrder` | common/rusty_leveldb_sgx/src/version_set.rs:787-848 | Whatever was taken, the files of both levels are ascending and disjoint afterwards, as installing them asserts |
| `LeftBehind.OrderKept` | common/rusty_leveldb_sgx/src/version_set.rs:787-848 | Versions stay newer the higher their level exactly if no version kept goes below an older one that stays, which takes a shared user key |
| `LeftBehind.CleanCompaction` | common/rusty_leveldb_sgx/src/db_impl.rs:775-904 | If no file is taken without the next one it shares a user key with, levels stay in order and no read at or above the smallest snapshot changes |
| `LeftBehind.DeletedKeyReturns` | common/rusty_leveldb_sgx/src/version_set.rs:355-364 | Put and deletion of a key, written to a file each while a snapshot needs both: after a restart, a manual compaction drops the deletion and the put is read again |
| `LeftBehind.OlderVersionAbove` | common/rusty_leveldb_sgx/src/version_set.rs:355-364 | Two puts of a key written so: a manual compaction moves the newer one below the older |
| `EarlyStops.StopTracker.ShouldStopBefore` | common/rusty_leveldb_sgx/src/version_set.rs:142-167 | Index, flag and byte count change, and the answer is, as in the value-level step |
| `EarlyStops.AskAll` | common/rusty_leveldb_sgx/src/version_set.rs:142-167 | Asked before each key of the input, gives the answers that the compaction loop takes |
| `EarlyStops.StopsBySum` | common/rusty_leveldb_sgx/src/version_set.rs:142-167 | It stops before a key exactly if that is not the first and the files that end before it, from those passed at the first key or the last stop on, together exceed ten times the maximum file size |
| `EarlyStops.NeverStopsWithout` | common/rusty_leveldb_sgx/src/version_set.rs:142-167 | Without files two levels down it never stops |
| `EarlyStops.StopPanics` | common/rusty_leveldb_sgx/src/db_impl.rs:803-805 | A deletion, a put, and between them a large file two levels down, with which the compaction finishes an output although none is open, and fails |
| `Snapshots.SnapshotList.NewSnapshot` | common/rusty_leveldb_sgx/src/snapshot.rs:57-78 | Adds a live snapshot under a fresh handle and leaves the others |
| `Snapshots.SnapshotList.Oldest` | common/rusty_leveldb_sgx/src/snapshot.rs:80-97 | Returns the least live handle, not a sequence number, or 0 without one |
| `Snapshots.SnapshotList.Empty` | common/rusty_leveldb_sgx/src/snapshot.rs:107-111 | True exactly until the first snapshot is taken, however many are released |
| `Snapshots.SnapshotList.SmallestForCompaction` | common/rusty_leveldb_sgx/src/db_impl.rs:683-688 | The last sequence number if no snapshot was ever taken, otherwise the least live handle |
| `Snapshots.LatestProtected` | common/rusty_leveldb_sgx/src/db_impl.rs:794-866 | A reader at or above the last sequence number notices a compaction with a greater smallest one exactly if it exposes a put |
| `Snapshots.ProtectedSnapshots` | common/rusty_leveldb_sgx/src/db_impl.rs:794-866 | A snapshot is safe from every compaction that exposes no put, in a database with a given last sequence number, exactly when it is 0, at or above the smallest sequence number passed in, or at or above the last one |
| `Snapshots.LiveSnapshotsProtected` | common/rusty_leveldb_sgx/src/snapshot.rs:80-97 | All live snapshots are protected so exactly when the least live handle exceeds none of their sequence numbers other than 0 and the last |
| `Snapshots.ReleasedSnapshotExposed` | common/rusty_leveldb_sgx/src/snapshot.rs:57-97 | Two snapshots at 1, the first released, one more write: the compaction then started does not protect the second |
| `BlockFormat.ReadEntry` | common/rusty_leveldb_sgx/src/block.rs:136-151 | Wherever an entry stands in a block, its header reads back and points at its key suffix, value and successor |
| `BlockFormat.ReadRestart` | common/rusty_leveldb_sgx/src/block.rs:123-126 | Restart point j reads back as the offset of the entry it was set at |
| `BlockFormat.ReadRestartCount` | common/rusty_leveldb_sgx/src/block.rs:102-104 | The number of restarts reads back from the trailer |
| `BlockBuilding.BlockBuilder.constructor` | common/rusty_leveldb_sgx/src/block_builder.rs:24-36 | Starts as an empty, regular layout with one restart |
| `BlockBuilding.BlockBuilder.SizeEstimate` | common/rusty_leveldb_sgx/src/block_builder.rs:46-48 | Is exactly the length of the finished block |
| `BlockBuilding.BlockBuilder.Add` | common/rusty_leveldb_sgx/src/block_builder.rs:58-103 | Appends one entry, sharing the longest common prefix except at restarts, which come every interval entries; keys stay strictly ascending |
| `BlockBuilding.BlockBuilder.Finish` | common/rusty_leveldb_sgx/src/block_builder.rs:105-122 | Gives the bytes of the layout built |
| `BlockIteration.BlockIter.Advance` | common/rusty_leveldb_sgx/src/block.rs:186-207 | Moves to the next entry and rebuilds its full key, false past the end |
| `BlockIteration.BlockIter.Current` | common/rusty_leveldb_sgx/src/block.rs:288-303 | Returns the key and value of the entry it stands at |
| `BlockIteration.BlockIter.Prev` | common/rusty_leveldb_sgx/src/block.rs:216-250 | From entry i > 0 moves to entry i-1, from the first becomes invalid; the branch its comment doubts is not reached |
| `BlockIteration.BlockIter.RestartBefore` | common/rusty_leveldb_sgx/src/block.rs:216-240 | Finds a restart strictly before the current entry, whatever restart index the operations left; it never runs out of restarts |
| `BlockIteration.BlockIter.SeekToRestartPoint` | common/rusty_leveldb_sgx/src/block.rs:108-120 | Positions at the entry of a restart with nothing assumed of the previous key |
| `BlockIteration.BlockIter.SeekToLast` | common/rusty_leveldb_sgx/src/block.rs:166-182 | Moves to the last entry of a non-empty block |
| `BlockIteration.BlockIter.SearchRestarts` | common/rusty_leveldb_sgx/src/block.rs:252-273 | The binary search ends at the last restart whose key is below the target, or at the first restart |
| `BlockIteration.BlockIter.FollowRestarts` | common/rusty_leveldb_sgx/src/block.rs:199-206 | The restart index moves up to the last restart before the current entry, and stays if it is there |
| `BlockIteration.BlockIter.Seek` | common/rusty_leveldb_sgx/src/block.rs:252-286 | For every total order, lands on the first entry with key at or above the target, or becomes invalid if there is none |
| `BlockIteration.BlockIter.Reset` | common/rusty_leveldb_sgx/src/block.rs:209-214 | Returns to the state before the first entry |
| `BlockIteration.BuildAndRead` | common/rusty_leveldb_sgx/src/block.rs:46-62 | Reading everything from a finished block gives exactly the key/value list given to the builder |
| `Codec.VarRoundTrip` | common/rusty_leveldb_sgx/src/block_builder.rs:85-95 | A varint decodes to its value and length whatever follows it |
| `Codec.Fixed32RoundTrip` | common/rusty_leveldb_sgx/src/block_builder.rs:105-122 | 32-bit fixed integers decode to their value |
| `Layouts.FixedByte` | common/rusty_leveldb_sgx/src/block_builder.rs:105-122 | Fixed-width integers are little-endian: byte i is n / 256^i mod 256 |
| `Layouts.FixedIsDecoded` | common/rusty_leveldb_sgx/src/block.rs:122-126 | The other half of the round trip: every byte string is the encoding of what it decodes to |
| `Layouts.VarByte` | common/rusty_leveldb_sgx/src/block_builder.rs:85-95 | Byte i of a varint is n / 128^i mod 128, with the top bit set in all but the last |
| `Layouts.VarLength` | common/rusty_leveldb_sgx/src/block_builder.rs:85-95 | A varint has exactly the bytes that the number needs at seven bits each |
| `Layouts.VarReadsUpTo` | common/rusty_leveldb_sgx/src/block.rs:136-151 | Reading a varint takes the bytes up to the first without top bit |
| `Layouts.TagBytes` | common/rusty_leveldb_sgx/src/key_types.rs:54-75 | An internal key is the user key, a byte that is 1 for a value and 0 for a deletion, and seven bytes of sequence number, lowest first |
| `Layouts.ShortMemtableKey` | common/rusty_leveldb_sgx/src/key_types.rs:109-137 | The bytes of a memtable key of short key and value |
| `Layouts.KeyExample` | common/rusty_leveldb_sgx/src/key_types.rs:244-253 | The memtable key spelled out in the tests |
| `Layouts.BatchHeader` | common/rusty_leveldb_sgx/src/write_batch.rs:73-88 | A batch starts with the sequence number, 8 bytes, and the number of operations, 4 bytes, lowest first |
| `Layouts.OperationsAt` | common/rusty_leveldb_sgx/src/write_batch.rs:40-63 | Operation i stands behind those before it, with 1 for a put and 0 for a deletion |
| `Log.UnmaskUndoesMask` | common/rusty_leveldb_sgx/src/log.rs:209-216 | Unmasking undoes masking for every 32-bit checksum |
| `Log.LogWriter.constructor` | common/rusty_leveldb_sgx/src/log.rs:36-46 | A new writer starts at block offset 0 |
| `Log.LogWriter.WithOff` | common/rusty_leveldb_sgx/src/log.rs:48-52 | A writer on an existing log starts at its length modulo the block size |
| `Log.LogWriter.EmitRecord` | common/rusty_leveldb_sgx/src/log.rs:96-113 | Appends one physical record and counts its bytes |
| `Log.LogWriter.AddRecord` | common/rusty_leveldb_sgx/src/log.rs:54-94 | Terminates and appends exactly the fragments of the record, also where an iteration emits a zero-length fragment; the count returned is that of the last fragment |
| `Log.LogReader.ReadFragment` | common/rusty_leveldb_sgx/src/log.rs:146-190 | Reads one physical record as the value-level reader does, skipping block padding; `LogDamage` says what that reader makes of intact, damaged and torn records |
| `Log.LogReader.Read` | common/rusty_leveldb_sgx/src/log.rs:144-197 | Collects fragments up to the one that completes a record, as the value-level reader does; `LogProofs`, `LogStages` and `LogDamage` say what that gives for whole logs |
| `LogDamage.MaskRotates` | common/rusty_leveldb_sgx/src/log.rs:199-207 | Masking rotates right by 15 bits and adds 0xa282ead8; unmasking subtracts it and rotates left |
| `LogDamage.RecordTypes` | common/rusty_leveldb_sgx/src/log.rs:54-94 | The types written for a non-empty record are Full alone, or First, any number of Middle, and Last |
| `LogDamage.FewestFragments` | common/rusty_leveldb_sgx/src/log.rs:54-94 | From the start of a block a record takes one physical record for each block it fills with data and one for the rest, and no padding |
| `LogDamage.PieceExact` | common/rusty_leveldb_sgx/src/log.rs:146-190 | With checksums on, and for every stored checksum, type and data: a physical record is returned with exactly that type and data if the checksum is the masked one of the two, and is refused as corrupt otherwise |
| `LogDamage.DamagedPiece` | common/rusty_leveldb_sgx/src/log.rs:146-190 | A physical record whose type or data is not what was written, and has another checksum, is refused as corrupt, wherever in the log it stands |
| `LogDamage.DamagedLogReads` | common/rusty_leveldb_sgx/src/log.rs:144-197 | A log with a physical record of wrong checksum in it, in any fragment of any record, reads back exactly the records before that one and ends in a corruption error, whatever follows |
| `LogDamage.TornPieceExact` | common/rusty_leveldb_sgx/src/log.rs:146-190 | A physical record cut inside its data is refused as corrupt, except exactly if the data left has the same checksum; then it is returned filled up with zeros |
| `LogDamage.TornLogReads` | common/rusty_leveldb_sgx/src/log.rs:144-197 | A log cut inside the data of a fragment reads back exactly the records before it and ends in a corruption error, unless the checksum is the same |
| `LogDamage.StopsExactly` | common/rusty_leveldb_sgx/src/log.rs:144-197 | Reading ends exactly when no bytes are left behind the padding, overflows exactly when the offset is beyond the block size, and is corrupt only with checksums on |
| `LogDamage.DamagedLogReplays` | common/rusty_leveldb_sgx/src/db_impl.rs:254-283 | Recovery from a damaged log replays exactly the batches before the damage |
| `LogProofs.LogRoundTrip` | common/rusty_leveldb_sgx/src/log.rs:144-197 | For every block size above 7 whose fragments fit 16 bits and all non-empty records, reading returns exactly the records written and then end of file, with or without checksums |
| `LogProofs.CutLogReads` | common/rusty_leveldb_sgx/src/log.rs:144-197 | A log cut at any physical-record boundary reads back as exactly its complete records and then end of file |
| `LogProofs.ReopenedLogContinues` | common/rusty_leveldb_sgx/src/log.rs:48-94 | Writing a prefix, reopening at the current length and writing the rest gives the bytes of one uninterrupted writer |
| `LogProofs.CutLogContinued` | common/rusty_leveldb_sgx/src/db_impl.rs:285-294 | A log cut inside a record and then written on reads back with the cut record's bytes glued to the next record; the next record is read back exactly when none of the old bytes were left |
| `LogProofs.CutLogGlues` | common/rusty_leveldb_sgx/src/db_impl.rs:285-294 | A record of 40000 bytes cut after its first fragment leaves 32761 bytes that are glued to the next record |
| `LogStages.StageGrows` | common/rusty_leveldb_sgx/src/log.rs:54-94 | A log that can be written on can still be after a record is added |
| `LogStages.StageReads` | common/rusty_leveldb_sgx/src/log.rs:144-197 | Such a log reads back as exactly its records |
| `LogStages.CutReads` | common/rusty_leveldb_sgx/src/log.rs:144-197 | Any such log cut inside its last record reads back as the records before |
| `LogStages.CutGlues` | common/rusty_leveldb_sgx/src/db_impl.rs:285-294 | A record added to it then is read back with the bytes left of the cut record in front |
| `LogStages.CutLogReusable` | common/rusty_leveldb_sgx/src/db_impl.rs:285-294 | A cut log can be written on exactly if no byte of the cut record was left |
| `WriteBatches.WriteBatch.Put` | common/rusty_leveldb_sgx/src/write_batch.rs:40-49 | Adds a put and counts it |
| `WriteBatches.WriteBatch.Delete` | common/rusty_leveldb_sgx/src/write_batch.rs:53-62 | Adds a deletion and counts it |
| `WriteBatches.WriteBatch.Count` | common/rusty_leveldb_sgx/src/write_batch.rs:78-80 | Is the number of operations added |
| `WriteBatches.WriteBatch.Encode` | common/rusty_leveldb_sgx/src/write_batch.rs:107-110 | Gives the logged form: first sequence number, count, operations |
| `WriteBatches.Next` | common/rusty_leveldb_sgx/src/write_batch.rs:121-144 | Decoding at an operation's offset gives that operation and the offset behind it |
| `WriteBatches.WriteBatch.InsertIntoMemtable` | common/rusty_leveldb_sgx/src/write_batch.rs:97-105 | Adds the operations in order under consecutive sequence numbers |
| `WriteBatches.LogAndReplay` | common/rusty_leveldb_sgx/src/write_batch.rs:97-110 | A batch that is logged and decoded again adds what it adds directly |
| `Recovery.RecoverLogFile` | common/rusty_leveldb_sgx/src/db_impl.rs:231-302 | Every entry of every batch of at least 12 bytes ends up once and in order in the tables written or the memtable kept, shorter records are skipped, and the sequence number returned is the greatest logged. A table is written after exactly the batches with which the memtable, since the last one written, became too big; the log is reused exactly if it is the last one, reuse is on and it never did; a memtable left otherwise is written too; the manifest is to be saved exactly if a table was to be written |
| `Recovery.ReplayRecord` | common/rusty_leveldb_sgx/src/db_impl.rs:261-283 | One record adds its batch once to the memtable, which is written to a table at that record exactly if it is too big then, or nothing if it is shorter than 12 bytes |
| `Recovery.Recover` | common/rusty_leveldb_sgx/src/db_impl.rs:188-223 | The same conservation over all live logs, oldest first; the last log is kept exactly if reuse is on and its memtable never became too big, and the manifest is to be saved exactly if asked for or some log was written out |
| `Recovery.SequencesBelowMax` | common/rusty_leveldb_sgx/src/db_impl.rs:271-274 | No recovered entry is above the sequence number returned |
| `Durability.Db.MakeRoom` | common/rusty_leveldb_sgx/src/db_impl.rs:562-587 | Retiring a full memtable moves exactly its entries to a new table and starts an empty log; nothing is lost, and a memtable that is not full, or is empty, stays |
| `Durability.Db.Write` | common/rusty_leveldb_sgx/src/db_impl.rs:396-412 | Retires the memtable first if it is full, and then appends the batch |
| `Durability.Db.Append` | common/rusty_leveldb_sgx/src/db_impl.rs:396-412 | Adds a batch to log and memtable alike, under the numbers following the last in use |
| `Durability.Db.RecoverFrom` | common/rusty_leveldb_sgx/src/db_impl.rs:116-142 | Opening from logs that replay to a prefix of the batches stores exactly the tables' entries and that prefix, with the last sequence number logged or saved; the last log is used on exactly if reuse is on and its memtable never became too big; the database stays good for later writes exactly unless it is used on and cannot be |
| `Durability.Db.Reopen` | common/rusty_leveldb_sgx/src/db_impl.rs:116-142 | A clean restart changes neither the contents nor the last sequence number, with or without log reuse |
| `Durability.Db.Crash` | common/rusty_leveldb_sgx/src/db_impl.rs:252-301 | A crash between the fragments of a batch being logged, then a restart with or without log reuse, loses that batch as a whole and nothing else; the database stays good exactly unless the log is used on with bytes of the record left |
| `Durability.Happen` | common/rusty_leveldb_sgx/src/db_impl.rs:396-412 | One event appends exactly its operations, or, after a crash with log reuse, says that the log is spoiled and leaves the contents |
| `Durability.Session` | common/rusty_leveldb_sgx/src/db_impl.rs:396-412 | Over every run of writes, rotations, restarts and crashes, the database stores exactly the operations written completely, once and in order, numbered from 1 without gaps, up to a crash after which a log with bytes of the cut record is used on |
| `Gets.TableAnswers` | common/rusty_leveldb_sgx/src/version.rs:84-99 | What a table returns tells of the key what its entries at or below the snapshot say |
| `Gets.GetFromTables` | common/rusty_leveldb_sgx/src/version.rs:63-104 | Gives the answer of the first table that knows the key exactly if that is nothing or no deletion of another key is met before |
| `Gets.StrayDeletionHides` | common/rusty_leveldb_sgx/src/version.rs:96-99 | Two tables for which the deletion of a greater key hides an older put |
| `Gets.GetInternal` | common/rusty_leveldb_sgx/src/db_impl.rs:424-468 | Gives the answer of the first of memtable and tables that knows the key exactly if that is the memtable, or it is nothing, or no deletion of another key is met before |
| `Gets.ReadsLastOp` | common/rusty_leveldb_sgx/src/db_impl.rs:424-468 | Reading numbered operations at a snapshot gives what the last operation on the key up to it says |
| `Gets.FirstLayerReadsLastOp` | common/rusty_leveldb_sgx/src/db_impl.rs:424-468 | The first of memtable and tables, newest first, that knows a key says what the last operation on it up to the snapshot says |
| `Gets.GetAfterSession` | common/rusty_leveldb_sgx/src/db_impl.rs:424-468 | A get after a session, asking the memtable by its encoded keys, returns that exactly if the memtable has a version of the key at or below the snapshot, or the answer is nothing, or no table returns the deletion of another key before |
| `Tasks.Task.AssignInputFile` | types/src/task_state.rs:166-181 | Assigns exactly if the user is an owner of the file, the task declares that file name with exactly the owners of the file, and nothing is assigned to it yet; otherwise fails and changes nothing |
| `Tasks.Task.AssignOutputFile` | types/src/task_state.rs:183-198 | Assigns exactly if the user is an owner of the file, the task declares that file name with exactly the owners of the file, and nothing is assigned to it yet; otherwise fails and changes nothing |
| `Tasks.Task.ApproveBy` | types/src/task_state.rs:210-219 | Adds the user to the approvals and to nothing else, exactly if the user is a participant |
| `Tasks.Task.UpdateOutputCmac` | types/src/task_state.rs:276-282 | Sets the cmac of that output only, exactly if the output is assigned and has none yet |
| `Tasks.Task.StageForRunningBy` | types/src/task_state.rs:231-254 | Hands out exactly the assigned inputs and outputs, to the creator only |
| `Tasks.Task.SetResult` | types/src/task_state.rs:284-287 | Replaces the result and nothing else |
| `Tasks.Task.Do` | types/src/task_state.rs:166-287 | Each operation offered in a stage has the effect, or refusal, that the run theorems are about |
| `TaskRights.AssignedByOwners` | types/src/task_state.rs:166-198 | Over every run from creation: each file the task holds was given by a user among its owners, which are the owners the task was created with for that name; each file given is still held, an output up to its cmac |
| `TaskRights.ForbiddenChangesNothing` | types/src/task_state.rs:166-287 | A session with an operation its user has no right to, or that its stage does not offer, leaves the stored task as it was, whatever else the session does |
| `TaskRights.PermittedDone` | types/src/task_state.rs:166-287 | Any other operation, in a task that can be restored to its stage, is carried out, with exactly its effect |
| `TaskRights.CreatedExactly` | types/src/task_state.rs:102-155 | A task is created exactly if arguments, inputs and outputs are those the function names, and then with nothing assigned, nobody having approved, and as participants the creator, every declared owner and, for a private function, its owner |
| `TaskRights.RestoredExactly` | types/src/task_state.rs:308-449 | To which stages a stored task can be restored: the one of its status, or a later one whose conditions its contents meet already |
| `TaskRights.StatusExactly` | types/src/task_state.rs:308-449 | The status a session leaves, from what is assigned and approved |
| `TaskRights.ApprovalsAdd` | types/src/task_state.rs:210-219 | Who has approved after some approvals |
| `TaskRights.StagedByCreator` | types/src/task_state.rs:231-254 | Over every run, files are handed out to the creator only |
| `TaskProofs.RunSession` | types/src/task_state.rs:352-449 | Restoring, operating through the task object and saving does what the run theorems assume of a session |
| `TaskProofs.RunKeeps` | types/src/task_state.rs:308-449 | The invariant behind the next rows holds after every run of sessions from a created task |
| `TaskProofs.StatusNeverFalls` | types/src/task_state.rs:308-449 | Over any run the status never moves backwards |
| `TaskProofs.RunChanges` | types/src/task_state.rs:166-287 | Over any run creator, function, participants and ownership never change; from DataAssigned on inputs never change and an output changes only by its cmac going from none to some once |
| `TaskProofs.ApprovedByEveryone` | types/src/task_state.rs:56-75 | In every reachable state from Approved on, exactly the declared files are assigned, and unless the creator is alone, the creator, each owner of an assigned file and a private function's owner approved these files |
| `TaskProofs.StagedAsApproved` | types/src/task_state.rs:231-254 | What is staged is what each saved approval saw, under the names declared at creation |
| `TaskProofs.ResultWaits` | types/src/task_state.rs:268-287 | The result stays NotReady until Finished |
| `Cache.LruList.Insert` | common/rusty_leveldb_sgx/src/cache.rs:35-69 | Links a new node at the front; forward, backward and tail links stay consistent |
| `Cache.LruList.RemoveLast` | common/rusty_leveldb_sgx/src/cache.rs:71-90 | Unlinks and returns the last key |
| `Cache.LruList.ReinsertFront` | common/rusty_leveldb_sgx/src/cache.rs:113-143 | Moves the node of a handle to the front |
| `Cache.Cache.Insert` | common/rusty_leveldb_sgx/src/cache.rs:206-217 | Evicts the last key of a full cache, failing exactly if it has no value, and puts the new one first; a good cache never fails and stays good exactly if the key was not, or no longer, cached then |
| `Cache.FailsToEvict` | common/rusty_leveldb_sgx/src/cache.rs:207-210 | A key inserted twice, then two others into a cache for two: the last insertion fails its assertion |
| `Cache.Cache.Get` | common/rusty_leveldb_sgx/src/cache.rs:221-229 | Returns the cached value and makes its key the most recent; misses change nothing |
| `Cache.RecencyIsByLastUse` | common/rusty_leveldb_sgx/src/cache.rs:206-229 | Over every run of inserts of absent keys and gets, the list is ordered by last use, so that each eviction removes the least recently used key |
| `Cache.RunHistory` | common/rusty_leveldb_sgx/src/cache.rs:206-229 | The linked cache, run through a history of inserts of absent keys and gets, lists its keys in that order |
| `Keys.InternalKeyRoundTrip` | common/rusty_leveldb_sgx/src/key_types.rs:184-191 | Internal keys parse back to type, sequence number and user key |
| `Keys.MemtableKeyRoundTrip` | common/rusty_leveldb_sgx/src/key_types.rs:109-155 | Memtable keys parse back to their lengths, offsets and tag |
| `Keys.LookupKeyRoundTrip` | common/rusty_leveldb_sgx/src/key_types.rs:50-90 | Lookup keys parse back to user key and tag, with an empty value at their end |
| `Keys.InternalKeysCompare` | common/rusty_leveldb_sgx/src/key_types.rs:195-210 | Internal keys compare by user key ascending, then sequence number descending |
| `Keys.MemtableKeysCompare` | common/rusty_leveldb_sgx/src/key_types.rs:158-181 | Memtable and lookup keys compare in the same order |
| `Lookups.FirstIsNewest` | common/rusty_leveldb_sgx/src/key_types.rs:158-181 | In a sorted list the first element at or above the lookup key, if of the same user key, is its newest version at or below the snapshot; otherwise there is none |
| `Lookups.MemTableGet` | common/rusty_leveldb_sgx/src/memtable.rs:50-68 | Answers found, deleted or absent as the newest version at or below the snapshot says |
| `Lookups.LayeredGet` | common/rusty_leveldb_sgx/src/db_impl.rs:424-468 | Asking memtable, immutable memtable and tables in turn and taking the first answer reads as from their union, if newer stores hold newer versions |
| `Comparators.DefaultOrderIsTotal` | common/rusty_leveldb_sgx/src/cmp.rs:35-38 | Byte-wise comparison is a total order |
| `Comparators.FindShortestSep` | common/rusty_leveldb_sgx/src/cmp.rs:44-94 | The separator is above the first key, and below the second except for a second key that is the first with a zero byte appended. It is the first key cut after its first byte, from where they differ, that can be raised; else with its last byte below 0xff raised, if that stays below; else with a zero byte appended; its length is stated for every case |
| `Comparators.ShortestExactly` | common/rusty_leveldb_sgx/src/cmp.rs:44-94 | Exactly when the separator is the shortest string between its keys, as the trait documents |
| `Comparators.LongSeparator` | common/rusty_leveldb_sgx/src/cmp.rs:44-94 | Two keys for which it is not the shortest |
| `Comparators.FindShortSucc` | common/rusty_leveldb_sgx/src/cmp.rs:96-108 | The successor is above its argument and no shorter string is; it is the key cut after its first byte below 0xff with that raised, or with a 0xff appended if there is none |
| `Comparators.InternalShortestSep` | common/rusty_leveldb_sgx/src/cmp.rs:124-140 | On internal keys, separates the user keys and takes the maximal sequence number for a shortened key and the first key's otherwise |
| `Comparators.InternalSeparatorExact` | common/rusty_leveldb_sgx/src/cmp.rs:124-140 | The internal separator is at or above its first key always, and below the second except exactly when that user key is the first with a zero byte appended and seq(a) <= seq(b) |
| `Comparators.SeparateVersions` | common/rusty_leveldb_sgx/src/cmp.rs:124-140 | The same of the bytes returned for two encoded versions |
| `Comparators.SeparatorReachesSecondKey` | common/rusty_leveldb_sgx/src/cmp.rs:124-140 | A concrete pair for which no separator stays below the second key |
| `Comparators.InternalShortSucc` | common/rusty_leveldb_sgx/src/cmp.rs:142-146 | The internal successor is above every version of the key, and is a shortest successor of the user key under the same sequence number |
| `Filter.ProbeCount` | common/rusty_leveldb_sgx/src/filter.rs:76-86 | 69 hundredths of the bits per key, rounded down, but at least 1 and at most 30 |
| `Filter.CreateFilter` | common/rusty_leveldb_sgx/src/filter.rs:128-157 | Bit p of the filter is set exactly if p is (h + i*d) mod 2^32 mod the number of bits, for a key with hash h, d its rotation, and i below the probe count; the buffer has the least number of bytes that holds the bits asked for, and at least 8, with the probe count at the end |
| `Filter.KeyMayMatch` | common/rusty_leveldb_sgx/src/filter.rs:158-181 | True for an empty filter and for a probe count above 30; otherwise true exactly if every bit (h + i*d) mod 2^32 mod the number of bits is set |
| `Filter.SetBit` | common/rusty_leveldb_sgx/src/filter.rs:148-153 | Setting bit p adds 2^(p mod 8) to byte p / 8 unless it is set, and changes no other bit |
| `Filter.DeltaRotates` | common/rusty_leveldb_sgx/src/filter.rs:134-135 | The step between probes is the hash rotated right by 17 bits: bit i of it is bit (i + 17) mod 32 of the hash, and it is the only number of which that holds |
| `Filter.HashStep` | common/rusty_leveldb_sgx/src/filter.rs:136-142 | Adding the step once more with wrap-around gives the next probe's hash, so the loop of additions is the closed form h + i*d modulo 2^32 |
| `Filter.NoFalseNegatives` | common/rusty_leveldb_sgx/src/filter.rs:128-181 | Every key of a filter matches, for a reader with any bits per key |
| `Filter.MatchesExactly` | common/rusty_leveldb_sgx/src/filter.rs:128-181 | A key matches exactly when each of its positions is probed by some key of the filter |
| `Filter.CreateInternalFilter` | common/rusty_leveldb_sgx/src/filter.rs:204-213 | The wrapper's filter is that of the user keys |
| `Filter.InternalKeyMayMatch` | common/rusty_leveldb_sgx/src/filter.rs:215-217 | The wrapper asks about the user key |
| `Filter.TagsIgnored` | common/rusty_leveldb_sgx/src/filter.rs:199-218 | Every version of an added user key matches, under any tag |
| `Filter.AppendPiece` | common/rusty_leveldb_sgx/src/filter.rs:222-232 | Appending a key and its offset appends one piece and leaves the others |
| `FilterBlocks.FilterBlockBuilder.AddKey` | common/rusty_leveldb_sgx/src/filter_block.rs:59-62 | Adds a pending key |
| `FilterBlocks.FilterBlockBuilder.StartBlock` | common/rusty_leveldb_sgx/src/filter_block.rs:64-71 | Makes the filters of all ranges before the block's |
| `FilterBlocks.FilterBlockBuilder.GenerateFilter` | common/rusty_leveldb_sgx/src/filter_block.rs:73-84 | Makes one filter of the pending keys, an empty one if they have no byte |
| `FilterBlocks.FilterBlockBuilder.Finish` | common/rusty_leveldb_sgx/src/filter_block.rs:86-107 | Makes the last filter and lays out filters, offsets and trailer |
| `FilterBlocks.ReaderAnswers` | common/rusty_leveldb_sgx/src/filter_block.rs:124-164 | For any key and offset: the policy's answer on the range's filter; a failure exactly where that filter is empty or at the range right after the last; "maybe" beyond |
| `FilterBlocks.EveryKeyReachesItsFilter` | common/rusty_leveldb_sgx/src/filter_block.rs:59-107 | Over every run of blocks in order, sharing or skipping ranges, each key is in its range's filter if the range has a non-empty key, and otherwise that range has no filter |
| `FilterBlocks.OnlyItsKeys` | common/rusty_leveldb_sgx/src/filter_block.rs:59-107 | And nothing else does: a key in the filter of a range is one of that range, or empty |
| `FilterBlocks.IndexExactly` | common/rusty_leveldb_sgx/src/filter_block.rs:16-19 | The filter of an offset is that of the 2 KiB range it lies in |
| `FilterBlocks.BloomFinds` | common/rusty_leveldb_sgx/src/filter.rs:124-182 | A Bloom policy is one that finds its keys and makes non-empty filters |
| `FilterBlocks.BuildFilterBlock` | common/rusty_leveldb_sgx/src/filter_block.rs:59-107 | Building from a table's blocks stores the filters of exactly these groups |
| `FilterBlocks.BuiltBlockFindsKeys` | common/rusty_leveldb_sgx/src/filter_block.rs:149-164 | Asked at its block's offset, every key is answered "maybe" if its range has a non-empty key, and the reader fails otherwise |
| `FilterBlocks.NextRangeFails` | common/rusty_leveldb_sgx/src/filter_block.rs:151-160 | One block with one key: asked about the range right after it, the reader fails |
| `Intersect.ParseInput` | function/src/ordered_set_intersect.rs:97-116 | Accepts exactly the inputs whose lines all decode and are in order, and returns them |
| `Intersect.IntersectOrdered` | function/src/ordered_set_intersect.rs:118-158 | In either order, with repetitions, marks in both lists exactly their multiset intersection, and of equal items the first ones |
| `Intersect.Run` | function/src/ordered_set_intersect.rs:61-94 | Reports an invalid order or input exactly then, and otherwise both markings and the size of the intersection |

## Left out

- DbIter.Replay: runs over one inner iterator, exact or passing over deletions. A merging iterator is such an iterator on every run exactly if only its first child has entries, and on runs that only go on for any children (`MergingRuns`); other runs are not composed with it.
- Table and concatenating iterators: children of the merging iterator are cursors over sorted entries.
- Skip list: a memtable is the entries added to it, in order of insertion or sorted.
- Trivial moves, seek compactions and compaction scores: a compaction is of a range of keys or of the next file due.
- Tables, table cache and version bookkeeping: a table is its entries with its key range, and returns its first entry at or after a lookup key, of whatever key; where that is of another key, it may also return nothing.
- Sequence numbers above 2^56 - 1 and lengths of 2^32 or more where a format stores 32 bits: excluded by requires where the code would truncate.
- Comparators.InternalShortestSep: stated for the default user comparator and a non-empty first user key, because the default comparator subtracts from the length of that key.
- Bloom hash: any 32-bit hash function; the probe count is computed over exact arithmetic instead of f32.
- Filter.CreateFilter: requires a non-zero bit count after truncation to 32 bits, where the code would divide by zero.
- CRC-32C: any function; masking is modelled on 32-bit words.
- LogProofs.CutLogReads: cuts at physical-record boundaries; cuts inside the data of a physical record are in `LogDamage`, cuts inside a header are not modelled beyond the value-level reader.
- Manifest, file numbers and deletion of obsolete files: a saved manifest is the last sequence number and the set of live logs.
- I/O errors, and the compaction failure path at `db_impl.rs:689-693`.
- BlockIteration.BlockIter.SeekToLast: requires a non-empty block, because the code asserts a valid entry.
- `BlockBuilder::reset`, `LRUList::remove` and `Cache::remove`: outside the invariants stated.
- Cache.RunHistory: inserts absent keys only; for others `Cache.Cache.Insert` says when the cache stays good.
- `record_read_sample`, compaction statistics, info logging and lock files: no effect on results.
- Task storage, access control of the services and the worker: sessions restore, operate and save a task as `task_state.rs` does.
- Hex decoding and line reading in the intersection function: a line is its decoded bytes or an error.
- Attestation, RPC, protected file system, command line, machine-learning and cryptographic functions: easier members or calls into other libraries.
