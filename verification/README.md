# MySQLight in Dafny

MySQLight is a small relational engine written in Go. This project models its
core, layer by layer, and proves what each layer is for.

Every class, method and loop of the model follows one of the engine's: the
B+ tree over slotted pages, the pager, the buffer pool, the write-ahead log and
its recovery, the lock and transaction managers, foreign keys and secondary
indexes under DML, the plan rewrites and the iterators that carry plans out,
LIKE, and the row and catalog formats. `dafny verify dfyconfig.toml` checks the
whole project.

**B+ tree** (`Keys`, `Nodes`, `Levels`, `Trees`, `Growth`, `Search`,
`LeafMoves`, `Balance`, `Shrink`, `Pager`, `Routing`, `BTree`, `Scans`,
`TreeTheorems`, `Limits`). A tree is seen as a stack of strings: the root alone on top, each
page replaced by what it holds on the next level, and the in-order string of
entries and separators at the bottom. Splits, merges, borrows and rotations are
local rewrites of one string. From this follow uniform depth, order, separator
bounds, the leaf chain, and the partition of all pages into the tree and the
free list, through every insert and delete. The nodes keep their byte sizes, so
the fit tests, the cap on entries and the clamps of the midpoint loops are part
of the model. Inserts, lookups and scans are proved for keys of any lengths, and
deletes too unless they leave a leaf less than half full.

**Page bytes** (`Bytes`, `LeafLayout`, `InternalLayout`, `SlottedPage`). The
4096-byte arrays, changed in place, refine the nodes above.

**Pool, log and recovery** (`BufferPool`, `PoolTheorems`, `Recovery`,
`WalCodec`). The pool keeps a cache that agrees with the disk and logs before it
writes; recovery redoes and undoes. The theorems are about all runs and all
crash points.

**Locks and transactions** (`LockManager`, `Serializability`, `Deadlock`,
`Transactions`). The lock table is a protocol of atomic steps, and its runs are
serializable in the order of lock release. The deadlock search is exact.

**DML** (`Relations`, `Cascades`, `Updates`, `Outcomes`, `Dml`, `DmlTheorems`). Tables and
indexes are maps; the cascades are mutually recursive over an acyclic schema.
A delete is characterised by what it must remove and by the absence of any
change without cause, and these two determine the result. An update is
characterised on its own table and on those that refer to it, with the
conditions for success and for what a failure breaks.

**Queries and formats** (`Planner`, `Pruning`, `Ambiguity`, `Operators`,
`Expressions`, `Like`, `Wire`, `RowCodec`, `CatalogCodec`, `Catalog`). The engine gives logical plans no
meaning: executor/executor.go builds the operators from the statement, and
planner/planner.go never puts a filter directly above a join. The rewrites are
judged by a meaning of the model's own, in which a plan fails if one of its nodes
fails on any row it could see, even one that a join with an empty side would
never ask for. `Operators` runs trees of iterators as objects and relates them to
that meaning; `Expressions` says what comparison, logic and arithmetic come to on
64-bit integers and NULL.

Every lemma carries `{:induction false}`: no proof rests on automatic induction.

Some promises turn out not to hold as they stand. Each has a concrete input or
run that shows it, and the condition under which the promise does hold:

- An entry within the cap of 1362 bytes can be refused after a split
  (`Limits.RefusedBelowTheCap`), although a comment in storage/btree.go:171-173
  calls that refusal unreachable. `BTrees.BTree.Insert` says exactly when; a
  bound of 1021 bytes excludes it (`LeafMoves.PendingEntryFits`) and cannot be
  raised (`Limits.BoundIsTight`).
- Replacing a separator makes no fit test (`Limits.ReplacementOverflows`); the
  replaced node fits exactly under the condition of `Nodes.ReplaceInternalKey`.
  A forced rotation can take a sibling's only key
  (`Limits.ForcedDonorWithOneKey`), but not when all keys have one length
  (`Balance.ChooseForInternal`).
- Freeing a page twice closes the free list to a cycle, freeing page 0 loses the
  header, and only that breaks it (`Pagers.Pager.FreePage`).
- A rollback after a dirty page was evicted restores what is on disk, not what
  was there at the beginning (`PoolTheorems.EvictedWriteStays`; exactly when:
  `PoolTheorems.BeginPlayRollback`).
- A second recovery, after aborts were logged, can bring undone updates back
  (`Recovery.RerunResurrects`; exactly when: `Recovery.RerunAfterAborts`).
- A transaction that queued for an upgrade still holds the lock after releasing
  it (`Locks.UpgradeComesBack`; exactly when: `Locks.ReleaseLetsGo`).
- A torn log record of 1 to 20 bytes is an error and a longer one is not
  (`WalCodec.ReadFileExact`).
- An UPDATE that fails can leave a dangling reference
  (`DmlTheorems.FailedUpdateDangles`) or lose the row it was to change
  (`DmlTheorems.CollidingUpdateLosesRow`). `Dml.Executor.ExecuteUpdate` says
  when the first cannot happen, when it must, and when the second does.
- A row whose indexed reference was set to NULL by ON DELETE SET NULL cannot be
  deleted any more (`DmlTheorems.NulledChildStays`; whatever is deleted had a key
  for every index: `DmlTheorems.DeletedHadKeys`).
- Integers are compared as floats, so that 2^53 and 2^53 + 1 are equal
  (`Expressions.BigIntegersMeet`; exactly when: `Expressions.ComparesRight`).
- Predicate pushdown changes the result when a filter moves right and looks up a
  name that the left side has (`Ambiguity.AmbiguousNameBreaksPushdown`,
  `Ambiguity.PushRightNeedsDistinctNames`). It fails where the original does not
  when a filter that moves left looks up a name of the right side only
  (`Ambiguity.PushLeftNeedsItsNames`), or when a moved filter meets a row the
  original never showed it (`Ambiguity.EmptySideHidesError`);
  `Planner.PushdownPreserves` has the exact condition.
- A nested-loop join that was drained stays empty when opened again
  (`Operators.ReopenedJoinIsEmpty`, and for every left-deep tree `Operators.DrainAgain`), so
  a join whose right side is a join loses rows (`Operators.NestedJoinLosesRow`;
  exactly when: `Operators.RunJoin`). No SELECT builds such a join.
- An index created for a table that does not exist is left over when the table
  is created and dropped (`Catalogs.LeftoverIndex`); the lists stay right
  exactly under the condition of `Catalogs.Catalog.CreateIndex`.

## Model

| member | source | states |
|---|---|---|
| `Keys.Compare` | storage/btree.go:305-335 | `bytes.Compare` on keys: the sign is that of the lexicographic order, which is proved to be a total order |
| `Keys.LtTotal` | storage/btree.go:305-335 | Of two keys exactly one of smaller, equal, larger holds |
| `Keys.LtTransitive` | storage/btree.go:305-335 | The key order is transitive |
| `Search.BinarySearchKeys` | storage/btree.go:305-335 | On ascending keys the search returns the only split point: on a leaf the first key not below, on an internal node the child after the last separator that is at most the key |
| `Search.EntriesHold` | storage/btree.go:189-207 | The entry at the split point decides: an ordered run of entries maps the key exactly when that entry carries it, and then to its value |
| `Search.LeafMidpoint` | storage/btree.go:338-412 | Where a full leaf is cut: both halves are non-empty, the left stays below half the bytes and would not with one entry more; the index clamps never fire |
| `Search.InternalMidpoint` | storage/btree.go:416-494 | Which separator of an overfull node moves up: both halves keep a separator and no index clamp fires, for every key up to the entry cap |
| `LeafMoves.PendingEntryFits` | storage/btree.go:140-178 | After a leaf split the pending entry fits either half, if no entry including its slot exceeds 1021 bytes |
| `Limits.BoundIsTight` | storage/btree.go:140-178 | A full leaf with entries of at most 1022 bytes that is cut behind its first entry, and a further entry of 1022 bytes that the right half has no room for either: the bound of 1021 cannot be raised |
| `Limits.RefusedBelowTheCap` | storage/btree.go:122-184 | The run that shows it: four inserts into a new tree and a fifth, well below the cap, which the tree answers with too large |
| `Limits.ForcedDonorWithOneKey` | storage/btree.go:719-911 | Nodes in key order, with keys of different lengths, on which the policy picks the forced rotation from a sibling with a single key, which is left with none: the reason rebalancing is stated for keys of one length |
| `Limits.ReplacementOverflows` | storage/btree_node.go:240-254 | A parent in key order that fits its page, and a separator within the cap whose unchecked replacement keeps the order and overflows the page |
| `Nodes.RebuildLeaf` | storage/btree_node.go:276-289 | A rebuilt leaf has all its slack in one gap and fits whenever its live bytes do |
| `Nodes.InsertLeafEntry` | storage/btree_node.go:135-152 | An entry that passes the gap test keeps slots and data disjoint and inside the page |
| `Nodes.DeleteLeafEntry` | storage/btree_node.go:155-159 | Deleting keeps the page well formed and lowers the live bytes by exactly the entry and its slot |
| `Nodes.InsertInternalEntry` | storage/btree_node.go:182-202 | A separator that passes the fit test keeps the node inside its page |
| `Nodes.DeleteInternalEntry` | storage/btree_node.go:205-233 | Removing a separator and a child keeps the node well formed and lowers the live bytes by exactly the separator and its slot |
| `Nodes.ReplaceInternalKey` | storage/btree_node.go:240-254 | The replaced node fits its page exactly when the new key's extra bytes do: the code makes no such test |
| `Pagers.Pager.AllocatePage` | storage/pager.go:125-157 | Takes the head of the free list, or a new page at the end; the page was not in use, is in use now, and no other page changes its state |
| `Pagers.Pager.FreePage` | storage/pager.go:162-172 | Any page below the count becomes the head of the free list; the file stays sound if and only if the page was in use. Freeing a page twice leaves no list at all, only a cycle; freeing page 0 loses the header and the whole list |
| `Pagers.Pager.WritePage` | storage/pager.go:105-119 | Any page below the count is overwritten and nothing else; the file stays sound if and only if the page was in use, or was free and keeps its bytes |
| `BTrees.BTree.constructor` | storage/btree.go:91-109 | A new tree satisfies every invariant and stands for the empty map |
| `BTrees.BTree.FindLeafRecursive` | storage/btree.go:286-301 | The descent ends at the one leaf whose bounds admit the key, and the path lists the pages above it |
| `BTrees.BTree.SplitLeaf` | storage/btree.go:338-412 | Cuts a leaf: the in-order sequence gains only a separator, the leaf chain and all page counts stay right, and the parent takes the median |
| `BTrees.BTree.SplitInternal` | storage/btree.go:416-494 | Splices a separator into a full node and cuts it: every level above is finished, every level below untouched |
| `BTrees.BTree.PushUp` | storage/btree.go:498-551 | Hands a separator to the parent, splitting upwards or growing a new root: the levels chain again from the root down and no page is lost |
| `BTrees.BTree.MakeRoom` | storage/btree.go:140-178 | Compacts or splits the target leaf and says which leaf takes the entry; the contents do not change |
| `BTrees.BTree.Insert` | storage/btree.go:122-184 | Adds exactly one mapping, or reports duplicate exactly when the key is present and fits the cap, or too large, contents unchanged, if and only if the entry exceeds the cap, or the key is absent and the entry fits neither the leaf it is routed to, compacted, nor the half of it the key belongs to; never when all entries are within 1021 bytes |
| `Routing.HalfIs` | storage/btree.go:338-412 | The half of a leaf that a key belongs to once it is cut, determined by the entries and the key alone: any cut behind the last entry that keeps the left part below half the bytes is the cut |
| `BTrees.BTree.Get` | storage/btree.go:189-207 | Agrees with the finite map the tree stands for |
| `BTrees.BTree.Delete` | storage/btree.go:214-238 | Removes exactly the key; reports deleted exactly when it was there; every invariant of the tree holds again after all borrowing, merging, rotating and root collapse. Keys may have any lengths as long as the leaf stays half full, and one length where it does not |
| `BTrees.BTree.RebalanceLeaf` | storage/btree.go:557-711 | An underfull leaf borrows or merges: the tree is valid again, the sequence of entries is unchanged, pages stay partitioned |
| `BTrees.BTree.RebalanceInternal` | storage/btree.go:719-911 | An underfull node rotates or merges, recursing along the path and collapsing an empty root: the levels below it, the in-order sequence among them, are kept, and the levels chain from the root again |
| `BTrees.BTree.RotateFromLeft` | storage/btree.go:719-911 | Moves the left sibling's last key and child through the parent: children and keys keep their order, all three pages fit |
| `BTrees.BTree.RotateFromRight` | storage/btree.go:719-911 | Moves the right sibling's first key and child through the parent: children and keys keep their order, all three pages fit |
| `BTrees.BTree.MergeNodes` | storage/btree.go:719-911 | Joins two nodes around their separator and frees one page; all that may be wrong afterwards is the parent's fill |
| `BTrees.BTree.BorrowFromLeft` | storage/btree.go:557-711 | Moves one entry between neighbouring leaves and replaces the separator; the entry sequence is unchanged |
| `BTrees.BTree.BorrowFromRight` | storage/btree.go:557-711 | Moves one entry between neighbouring leaves and replaces the separator; the entry sequence is unchanged |
| `BTrees.BTree.MergeLeaves` | storage/btree.go:557-711 | Joins two leaves, bridges the sibling chain over the freed page and keeps the entry sequence |
| `Balance.ChooseForLeaf` | storage/btree.go:557-711 | The policy for leaves: merges exactly when no sibling can lend and the merge fits; a donor, even a forced one, keeps an entry. Where both siblings can lend, or both are forced to, the fuller one does, the left one on a tie |
| `Balance.ChooseForInternal` | storage/btree.go:719-911 | The policy for internal nodes, for keys of any lengths: merges exactly when no sibling can lend and the merge fits; of two that can lend, or are forced to, the fuller one does, on a tie the left one, and the right one if forced. Where all keys have one length a donor keeps a key |
| `Balance.LeafTestsAre` | storage/btree.go:557-620 | A sibling can lend exactly if without the entry it is still half a page, and a merge fits exactly if the joined leaf does |
| `Balance.NodeTestsAre` | storage/btree.go:754-800 | The same for internal nodes, which are joined around their separator |
| `TreeTheorems.ChildRange` | storage/btree.go:286-335 | Every entry below child i of any node lies between separators i-1 (inclusive) and i (exclusive) |
| `TreeTheorems.PagesPartitioned` | storage/pager.go:125-172 | Every page from 1 to the page count is in the tree once or on the free list once, never both, and no other page is in either |
| `TreeTheorems.Run` | storage/btree.go:122-238 | Any sequence of inserts, deletes and lookups on keys of one length answers as a finite map would, and ends as that map; an insert within the cap is refused only for a new key and only when it or some entry exceeds 1021 bytes |
| `Scans.LeafIterator.Scan` | storage/btree.go:244-262 | The cursor stands before the first entry of the range, holds one pin, and what it will yield is the range's part of the tree |
| `Scans.LeafIterator.Next` | storage/btree.go:45-76 | Yields the head of what is pending, or closes when nothing is; one pin while open, none after |
| `Scans.LeafIterator.Close` | storage/btree.go:79-86 | Drops the pin; nothing is pending any more |
| `Scans.Drain` | storage/btree.go:244-262 | Draining a scan yields exactly the map's entries with start <= key < end, in increasing key order |
| `SlottedPage.Node.NewLeaf` | storage/btree_node.go:40-48 | The header bytes of an empty leaf |
| `SlottedPage.Node.NewInternal` | storage/btree_node.go:51-59 | The header bytes of a node with one child |
| `SlottedPage.Node.LeafEntry` | storage/btree_node.go:107-121 | Reading a slot returns the key and value of that entry |
| `SlottedPage.Node.InsertLeafEntry` | storage/btree_node.go:135-152 | The byte writes in place leave the page holding exactly one entry more at that slot |
| `SlottedPage.Node.DeleteLeafEntry` | storage/btree_node.go:155-159 | Closing up the slot array removes exactly that entry; the data bytes stay |
| `SlottedPage.Node.SetRightSibling` | storage/btree_node.go:130-132 | Changes the sibling and nothing else |
| `SlottedPage.Node.RightSibling` | storage/btree_node.go:125-127 | Reads the sibling back |
| `SlottedPage.Node.LeafLiveBytes` | storage/btree_node.go:257-263 | Equals the header plus all live entries with their slots |
| `SlottedPage.Node.RebuildLeaf` | storage/btree_node.go:276-289 | The page holds the given entries compactly, sibling kept |
| `SlottedPage.Node.CompactLeaf` | storage/btree_node.go:293-301 | Same entries, dead bytes gone |
| `SlottedPage.Node.ChildPageID` | storage/btree_node.go:164-166 | Reads the i-th child |
| `SlottedPage.Node.InternalKey` | storage/btree_node.go:170-177 | Reads the i-th separator |
| `SlottedPage.Node.InsertInternalEntry` | storage/btree_node.go:182-202 | The byte writes in place splice in one separator and its right child; the page stays compact |
| `SlottedPage.Node.DeleteInternalEntry` | storage/btree_node.go:205-233 | Removes one separator and one child; the page stays compact |
| `SlottedPage.Node.ReplaceInternalKey` | storage/btree_node.go:240-254 | Replaces one separator, for a key that fits; the page stays compact |
| `SlottedPage.Node.RebuildInternal` | storage/btree_node.go:305-317 | The page holds the given separators and children compactly |
| `LeafLayout.InsertedHolds` | storage/btree_node.go:135-152 | On bytes, the write sequence of an insert refines sequence insertion |
| `LeafLayout.RemovedHolds` | storage/btree_node.go:155-159 | On bytes, the write sequence of a delete refines sequence removal |
| `Bytes.BigEndian64` | storage/btree_node.go:107-121 | Read with the most significant byte first, the eight bytes written are the number; the lemmas for 16 and 32 bits say the same of two and four |
| `InternalLayout.InsertedHolds` | storage/btree_node.go:182-202 | On bytes, moving the two arrays apart and writing child, slot and key refines inserting a separator and a child |
| `BufferPools.BufferPool.constructor` | storage/buffer_pool.go:33-44 | An empty pool over a disk satisfies every cache and log invariant |
| `BufferPools.BufferPool.WriteWALUpdate` | storage/buffer_pool.go:60-79 | Logs the change before the page is written: the before-image is what is on disk, and replaying the log then gives the disk with the page written |
| `BufferPools.BufferPool.FindVictim` | storage/buffer_pool.go:85-138 | The least recently used unpinned page, or none exactly when all are pinned |
| `BufferPools.BufferPool.FetchPage` | storage/buffer_pool.go:85-138 | Pins the page once and puts it first in the order of use, the other pages keeping theirs; the victim of a full cache is its least recently used unpinned page, and only a full cache has one. No page's content changes; both failures exactly characterised |
| `BufferPools.BufferPool.UnpinPage` | storage/buffer_pool.go:144-167 | The frame has one pin less unless it had none, and, if dirty, its mark, before-image and owner; every other frame, the order of use and all contents unchanged |
| `BufferPools.BufferPool.FlushAll` | storage/buffer_pool.go:172-189 | Every cached page is clean and on disk afterwards, its pins and place in the order of use as before; no content changes |
| `BufferPools.BufferPool.RollbackTxn` | storage/buffer_pool.go:194-218 | Exactly the pages this transaction dirtied go back to what is on disk, and it owns no dirty page any more; no page gains or loses a pin |
| `BufferPools.LogThenWrite` | storage/buffer_pool.go:60-79 | Appending the update and then writing the page, or crashing in between, keeps the disk recoverable from the log |
| `PoolTheorems.Act` | storage/buffer_pool.go:60-189 | One allowed fetch, write, unpin or flush takes its step: a write changes one page's content, nothing else changes any, and the frames, pins, marks and disk follow |
| `PoolTheorems.Permit` | storage/buffer_pool.go:144-167 | A client that remembers its own unannounced writes can decide exactly which actions the pool's rules allow; reading and unpinning clean is always among them |
| `PoolTheorems.Play` | storage/buffer_pool.go:60-189 | Any run: moment by moment, every allowed action takes its step and the others are skipped; contents at the end are exactly what the allowed writes make of those at the start |
| `PoolTheorems.PinsBalance` | storage/buffer_pool.go:85-167 | Over every run in which the page stays cached, its pins at the end plus the unpins are its pins at the start plus the fetches |
| `PoolTheorems.HoldAndLetGo` | storage/buffer_pool.go:85-167 | n fetches of a cached page and n unpins: it stays cached and has as many pins as before; no content changes |
| `PoolTheorems.BeginPlayRollback` | storage/buffer_pool.go:144-218 | Before the rollback the contents are those of the start with the run's writes; after it every page the transaction owned is as on disk and no other changed. With every write announced the start is restored if and only if the disk did not change, and it did not if no dirty page was evicted, as when the cache has room for the run |
| `PoolTheorems.EvictedWriteStays` | storage/buffer_pool.go:85-218 | A run with room for one page: the transaction's write to page 0 is evicted to disk, and after the rollback page 0 still differs from the beginning |
| `PoolTheorems.CrashAnywhere` | wal/recovery.go:11-78 | At every point of every such run a crash followed by recovery leaves exactly the finished transactions' updates |
| `PoolTheorems.CrashBetween` | storage/buffer_pool.go:60-79 | The same for a crash after the log record and before the page write |
| `Recovery.AnalysisPass` | wal/recovery.go:34-53 | Redoes every update and returns exactly the transactions without an end record; fails exactly when a logged page does not exist |
| `Recovery.ActiveSince` | wal/recovery.go:34-53 | A transaction that counts as active began and has no end record after that |
| `Recovery.ActiveIs` | wal/recovery.go:34-53 | And one that began and has no end record after that counts as active |
| `Recovery.UndoPass` | wal/recovery.go:57-78 | Undoes the active transactions' updates backwards and appends exactly one abort for each of them and nothing else |
| `Recovery.Recover` | wal/recovery.go:11-30 | Redo followed by undo, with one abort for each of the active transactions and no other |
| `Recovery.RecoveryExact` | wal/recovery.go:11-78 | For a chained log, recovery equals replaying only the finished transactions if and only if each page's trace is undoable |
| `Recovery.RecoveryCorrect` | wal/recovery.go:11-78 | It does when no finished transaction updates a page after a loser did |
| `Recovery.StrictLosersLast` | txn/txn.go:64-94 | Which is so whenever a page updated by one transaction is updated by another only after the first has ended, as locks held to the end ensure |
| `Recovery.RecoveryIsWrites` | wal/recovery.go:11-78 | Recovery is a fixed sequence of page writes |
| `Recovery.RecoveryRestarts` | wal/recovery.go:11-78 | Stopping after any number of those writes and running again reaches the same disk |
| `Recovery.RerunAfterAborts` | wal/recovery.go:57-78 | A crash after any of the abort records was logged: a second recovery redoes everything and undoes only the others. It is right if and only if on every page that leaves what the finished transactions left; with all records logged it is redo alone |
| `Recovery.RerunResurrects` | wal/recovery.go:57-78 | A log on which that second recovery brings an undone update back |
| `WalCodec.DecodeUndoesEncode` | wal/wal.go:89-202 | Decoding a record's payload gives the record back |
| `WalCodec.EncodeUndoesDecode` | wal/wal.go:89-202 | What decodes is the encoding of the result: no two payloads are read alike |
| `WalCodec.RecordLayout` | wal/wal.go:89-107 | The bytes of a record: sequence number, transaction, kind and page as big-endian numbers at fixed places, both images behind them, and the checksum of all that at the end |
| `WalCodec.ReadWhole` | wal/wal.go:109-202 | A whole record at the front of the file is read back exactly, whatever follows |
| `WalCodec.ReadTorn` | wal/wal.go:109-202 | A torn record stops the reader quietly, except between 1 and 20 bytes, where it is an error |
| `WalCodec.ReadFileExact` | wal/wal.go:109-202 | Whole records followed by a torn one: exactly the whole ones are returned, with an error if and only if 1 to 20 bytes of the torn one are there |
| `WalCodec.ReadFileWhole` | wal/wal.go:109-202 | A file of whole records is read back without error |
| `WalCodec.ReadFileSound` | wal/wal.go:109-202 | For every file: the records returned encode to a prefix of it, and no encoded record follows that prefix |
| `WalCodec.ReadsAsOne` | wal/wal.go:109-202 | Only one list of records has that property, so the file determines what is read |
| `WalCodec.ReadFileDamaged` | wal/wal.go:109-202 | Whole records followed by bytes at which no encoded record begins, a wrong checksum among them: exactly the whole records come back |
| `WalCodec.WAL.WriteRecord` | wal/wal.go:74-86 | Appends the record under the next sequence number |
| `WalCodec.WAL.Checkpoint` | wal/wal.go:207-213 | The log is empty afterwards |
| `WalCodec.WAL.ReadAll` | wal/wal.go:109-202 | Returns records whose encodings, checksums included, make up the front of the file, and stops only where no encoded record follows; an error exactly where 1 to 20 bytes are left there; the next sequence number is past all of them |
| `Locks.RequestedOk` | txn/lock_manager.go:56-77 | Asking for a lock keeps holders compatible and never leaves a grantable waiter at the head |
| `Locks.ReleasedOk` | txn/lock_manager.go:81-107 | Releasing a lock keeps both |
| `Locks.ReleasedIs` | txn/lock_manager.go:81-107 | A release determines the entry: the other holders with those let in, in the modes they asked for, and the rest of the queue |
| `Locks.GrantWaiters` | txn/lock_manager.go:81-107 | The longest grantable prefix of the queue is let in, in order |
| `Locks.LockManager.Acquire` | txn/lock_manager.go:56-77 | Granted exactly when nobody holds the table, or the request and all holders are shared. Granted: the holders are those of before with this transaction in the requested mode, the queue unchanged; refused: the holders unchanged and this request at the end of the queue. After a granted exclusive request no mode is grantable to anybody |
| `Locks.LockManager.Release` | txn/lock_manager.go:81-107 | The transaction leaves the holders and exactly the longest grantable prefix of the queue joins them, each in the mode it asked for; every other table untouched |
| `Locks.LockManager.ReleaseAll` | txn/lock_manager.go:111-124 | Releases on every table where the transaction holds a lock and nowhere else |
| `Locks.ReleaseLetsGo` | txn/lock_manager.go:81-107 | A release leaves the transaction without the lock unless, and only unless, it is the exclusive head of the queue and nobody else holds, or it is among the shared requests at the head and all other holders share |
| `Locks.AdmittedIs` | txn/lock_manager.go:81-107 | Who is let in: nobody, one exclusive head when nobody holds, or the whole run of shared requests at the head when all holders share |
| `Locks.UpgradeComesBack` | txn/lock_manager.go:56-107 | A transaction that asked for an upgrade holds the exclusive lock again after releasing |
| `Serializability.SerialEquivalent` | txn/lock_manager.go:56-124 | A history in which conflicting steps follow an order has the effect of the serial history in that order |
| `Serializability.Reachable` | txn/lock_manager.go:56-124 | Every reachable state of the lock protocol keeps conflicting steps apart by an end of transaction; a step needs a grant that was given in the mode the step uses, so what the table records is what excludes others |
| `Serializability.TwoPhaseLockingSerializes` | txn/lock_manager.go:56-124 | Every run of the protocol has the effect of running its transactions one after the other in the order in which they released their locks, those still running last in any order |
| `Deadlock.WaitForGraph` | txn/lock_manager.go:129-171 | An edge exactly where one transaction waits for a table another holds |
| `Deadlock.Search.Dfs` | txn/lock_manager.go:129-171 | The search from one node: true only if a cycle is reachable, and otherwise the node joins a topological order |
| `Deadlock.DetectDeadlock` | txn/lock_manager.go:129-171 | Empty if and only if no transactions wait for each other in a ring; the first victim is in a ring, and every victim can reach a cycle of the wait-for graph |
| `Deadlock.CycleExists` | txn/lock_manager.go:129-171 | A graph has a cycle exactly when some node reaches one |
| `Deadlock.SomebodyRuns` | txn/lock_manager.go:129-171 | With waiters and no cycle some holder is not itself waiting |
| `Transactions.TxnManager.Begin` | txn/txn.go:51-59 | A fresh id, active, with a begin record; the active set equals the log's |
| `Transactions.TxnManager.Commit` | txn/txn.go:64-75 | Succeeds exactly for an active transaction: a commit record, all its locks released, no longer active |
| `Transactions.TxnManager.Rollback` | txn/txn.go:80-94 | Succeeds exactly for an active transaction: its dirty pages go back to disk content, an abort record, all its locks released; a refused one changes nothing |
| `Dml.Executor.FindRowsMatchingValue` | executor/fk.go:240-274 | Exactly the rows whose column equals the value, each once; NULL equals nothing |
| `Dml.Executor.VerifyFKParents` | executor/fk.go:13-35 | True if and only if every non-null reference of the row has its parent |
| `Dml.Executor.ApplyOnDelete` | executor/fk.go:44-73 | Afterwards no row refers to the key, integrity holds even on failure, and every change was caused by that key. If the key belongs to a set of rows that are free to go together, it succeeds and what is left of them still is |
| `Dml.Executor.ApplyOnDeleteFk` | executor/fk.go:44-73 | One foreign key: RESTRICT succeeds exactly when nobody refers; CASCADE and SET NULL clear every reference |
| `Dml.Executor.ApplyOnUpdate` | executor/fk.go:77-106 | On success every table's references follow the key or become NULL as declared, column by column, and nothing else changes. Even on failure the new key is all that can be missing, and nothing is missing unless some row held the old key through a cascade. Success implies that nobody who holds the key refuses; with right indexes it follows from that if no carried reference meets another one in an indexed column, and then it must leave a reference dangling if whatever refuses has carried somebody first |
| `Dml.Executor.ApplyOnUpdateTo` | executor/fk.go:77-106 | The same for one child table; if the new key is not in the parent, references that were carried to it dangle, on success and on a refusal that comes too late |
| `Dml.Executor.ApplyOnUpdateFk` | executor/fk.go:77-106 | One foreign key: only rows holding the old key are rewritten, on success all of them; with right indexes it fails only when somebody holds the key under RESTRICT, or SET NULL on a NOT NULL column, or an index on the column has no keys of its type or already holds the new one |
| `Dml.Executor.DeleteRowsFromTable` | executor/fk.go:110-162 | Exactly the given rows leave the table, children first; integrity holds even on failure; every other change has a cause, and whatever left had a key for every index; it succeeds if the rows are free to go |
| `Dml.Executor.UpdateColumnInRows` | executor/fk.go:166-237 | Exactly one column of exactly the given rows changes, and the indexes on it follow; NULL into a NOT NULL column fails before anything changes; with right indexes nothing else fails but an old value without a key, or a new one that is for several rows or held by another |
| `Dml.Executor.InsertOneRow` | executor/insert.go:37-83 | The row is added if and only if NOT NULL and references hold and its key is new; the statement goes on if and only if every index takes it, which for right indexes means keys that nobody holds |
| `Dml.Executor.ExecuteInsert` | executor/insert.go:11-86 | The first n rows are in, nothing else changed, integrity holds even on failure; with right indexes it succeeds if and only if each row, once those before it are in, is acceptable and has index keys that nobody holds |
| `Dml.Executor.ExecuteDelete` | executor/delete.go:13-54 | Exactly the selected rows leave the table and every other change has a cause; integrity holds even on failure. With right indexes it succeeds if the condition can be evaluated and the selected rows are free to go: no refusal, no NULL in an indexed column of a row that goes, no indexed column without keys is reached by cascades. It succeeds only then where no table has a cascading rule beside one that refuses or that nulls an indexed column |
| `Dml.Executor.UpdateOneMatch` | executor/update.go:64-142 | One row moves to its new key and content, references and indexes follow. With right indexes it passes if and only if its references hold, its key stays, or is free and nobody refuses, and it has keys before and after for every index that no other row holds. A failure keeps integrity unless the key moves to one not in the table while a cascade holds the old one; a collision loses the row |
| `Dml.Executor.Rekey` | executor/update.go:105-142 | Integrity holds again in every case; if the new key is taken the statement fails and the old row is gone; otherwise it succeeds, with right indexes, if and only if the indexes are free for the new row |
| `Dml.Assigned` | executor/update.go:67-86 | The SET clause applied left to right; fails exactly on a bad assignment or a NOT NULL violation |
| `Dml.Executor.ExecuteUpdate` | executor/update.go:12-146 | On success: unselected rows untouched, selected rows rewritten under their new keys without merging, other tables changed only where a key moved, integrity and indexes kept. With right indexes it succeeds if and only if every selected row can be updated, has keys for all indexes before and after, and ends with indexed values that no other row ends with. A failure keeps integrity unless a selected row moves to a key not in the table while a cascade holds the old one, and breaks it for certain if whatever refuses has carried somebody first; one row that collides is lost |
| `Outcomes.StepHarmless` | executor/update.go:64-142 | Only the first collected row can break anything: a later one that changes its key changes it to one that is in the table |
| `Outcomes.AllPassed` | executor/update.go:64-142 | If every row passed in its turn, every selected row could be updated in the state before the statement |
| `Outcomes.StepFits` | executor/update.go:115-142 | If the whole update fits the indexes, the row at hand does in the table as it then stands: SET gives every row the same value or leaves each its own |
| `Outcomes.IndexedAll` | executor/update.go:115-142 | If every row met free indexes in its turn, the whole update fits the indexes |
| `Outcomes.NoneClash` | executor/fk.go:77-106 | References carried to a key that is not there meet no others |
| `Outcomes.CarriedDangles` | executor/fk.go:77-106 | A reference that a cascade has carried to a key not in the parent dangles |
| `Outcomes.RefusedTooLate` | executor/fk.go:77-106 | A refusal that comes after a cascade of the same table was followed leaves that reference dangling |
| `Outcomes.ClosedRemoval` | executor/fk.go:110-162 | Rows that are free to go stay so while a delete takes rows away |
| `Outcomes.ClosedNulls` | executor/fk.go:44-73 | And while references to them are set to NULL |
| `Outcomes.RestrictedGo` | executor/fk.go:44-73 | A successful delete took every row that refers, through RESTRICT, to a row that is gone |
| `Outcomes.DeletedIsUnobstructed` | executor/fk.go:44-162 | Where no table has a cascading rule beside one that refuses or nulls an indexed column, a delete that succeeded met no obstacle on any path of cascades, whatever the order |
| `Dml.Executor.constructor` | executor/insert.go:11-86 | Empty tables and indexes satisfy every invariant |
| `Dml.Executor.IndexInsert` | executor/insert.go:64-83 | Succeeds if and only if every index takes the row's value, which for right indexes means the row has a key for each and no row holds it; then the indexes map each value to its primary key again |
| `Dml.Executor.IndexRemove` | executor/fk.go:128-160 | Takes a removed row out of every index: if and only if each has an entry for it, which in right indexes means the row has a key for each, so never when an indexed column is NULL |
| `Dml.Executor.IndexReplace` | executor/update.go:115-142 | Moves a row's index entries to its new key and values: if and only if each index gives up the old entry and then takes the new one, which in right indexes means that the old and the new row have a key for each and no other row holds the new one; then the indexes are right again |
| `Dml.Executor.IndexChange` | executor/fk.go:194-235 | Follows a change of one column in the indexes on that column: if and only if each of them gives up the old entry and then takes the new one unless that is NULL, which in right indexes means there is none, or the old value has a key and the new one is NULL or has a key that no other row holds |
| `Cascades.DeleteDetermined` | executor/fk.go:44-162 | Whatever order tables and rows are visited in, a delete that succeeds leaves the same database |
| `Cascades.CausedAgain` | executor/fk.go:44-162 | Causes compose: two steps without unexplained change make one |
| `Updates.UpdateEnds` | executor/update.go:64-142 | Rewriting the collected rows one by one amounts to one simultaneous update |
| `Updates.OnlyFirstMoves` | executor/update.go:64-142 | An update that changes a primary key succeeds on one row only |
| `Updates.SetAllLast` | executor/update.go:67-80 | After the SET clause a column holds the value last assigned to it, or what it held if there is none |
| `DmlTheorems.RunAll` | executor/insert.go:11-86 | Any run of statements, past failing INSERTs and DELETEs up to a failing UPDATE: state by state each statement does what it promises and succeeds when it must, given whether the indexes are right there; references stay right, and indexes over every statement that succeeds |
| `DmlTheorems.Execute` | executor/update.go:12-146 | One statement: its effect on every table, when it succeeds, and that only a failing UPDATE may leave a reference dangling |
| `DmlTheorems.FailedUpdateDangles` | executor/update.go:12-146 | A run that shows it: a child with two references to one parent, filled by INSERTs; the UPDATE of the parent's key fails, one reference has followed and dangles |
| `DmlTheorems.CollidingUpdateLosesRow` | executor/update.go:105-113 | A run of UPDATE to a key that is taken: the statement fails and the row is gone |
| `DmlTheorems.DeletedHadKeys` | executor/fk.go:128-160 | Whatever a successful DELETE selected had a key for every index |
| `DmlTheorems.NulledChildStays` | executor/fk.go:44-162 | A run: the parent is deleted and the indexed reference of its child set to NULL; DELETE of the child then fails |
| `Planner.PushdownPreserves` | planner/optimizer.go:38-141 | Where the original plan does not fail, pushing filters below joins returns the same rows in the same order if and only if every moved filter can be evaluated on every row of the side it moves to, and fails otherwise; filters that move right must look up no name of the left side |
| `Planner.RunIsYield` | executor/filter.go:27-41 | A plan that does not fail returns the rows of its relational meaning |
| `Ambiguity.AmbiguousNameBreaksPushdown` | executor/filter.go:74-95 | Two tables with a column of the same name: pushdown keeps a row the original plan drops |
| `Ambiguity.PushRightNeedsDistinctNames` | planner/optimizer.go:38-97 | The name condition for pushing right is necessary: whenever the left side has a looked-up name, some database separates the two plans without a failure |
| `Ambiguity.PushLeftNeedsItsNames` | planner/optimizer.go:38-97 | For pushing left: whenever a looked-up name is on the right side only, some database makes the moved filter fail where the original returns its row |
| `Ambiguity.EmptySideHidesError` | planner/optimizer.go:38-97 | An empty right side and a filter that cannot be evaluated: the original returns nothing, the rewritten plan fails, and so do its iterators |
| `Pruning.PruningPreserves` | planner/optimizer.go:287-384 | Under a top-level projection column pruning changes neither rows, order nor failure, with no assumption on names |
| `Pruning.PruneRelated` | planner/optimizer.go:348-384 | Below it, pruned rows agree with the original ones on every name looked up |
| `Pruning.PruningCuts` | planner/optimizer.go:287-384 | What pruning leaves of a plan: the same plan in which every scan lists exactly the primary key and the columns that some expression looks up, in their order, the first column if there are none of these, and all of them under a star |
| `Operators.Operator.NextInput` | executor/filter.go:27-41 | Filter and projection: hands over the next row that passes, or the failure of the first row that cannot be evaluated; at the end the input is spent |
| `Operators.Computed` | executor/project.go:28-42 | The method evaluates one row from left to right to what `Planner.Eval` gives; what that is, `Expressions` says: NULL-aware comparison, arithmetic on 64-bit integers and AND/OR over integer columns |
| `Operators.Operator.OpenJoin` | executor/join.go:37-56 | Opens both sides and fetches the first left row: fails exactly when a side fails to open or to give its first row; a join that came to its end stays empty, because the done flag is not cleared |
| `Operators.Operator.AdvanceLeft` | executor/join.go:60-78 | The right side at its end: the next left row with the right side reopened, or the end |
| `Operators.Operator.NextJoin` | executor/join.go:58-99 | Hands over the next row of the product that passes the condition, the first failure of a side or of the condition, or the end; the sides may themselves be any operators |
| `Operators.CollectRows` | executor/executor.go:137-157 | Opening and draining any tree of operators, fresh or drained before, gives all its rows in order or a failure |
| `Operators.DrainAgain` | executor/join.go:37-99 | Any left-deep tree, drained any number of times: one without joins gives the same rows every time, one with a join its rows once and nothing afterwards |
| `Operators.LeftDeepRuns` | executor/executor.go:164-219 | The operators of a left-deep plan, as every SELECT builds, hand over exactly the rows of the plan where the plan does not fail |
| `Operators.RunPlan` | executor/executor.go:137-219 | Building and draining the operators of a plan: the rows its tree stands for, and the rows of the plan if it is left-deep; `Expressions.SelectWhere` has the rows themselves for a filtered scan |
| `Expressions.FilterCompares` | executor/filter.go:144-228 | WHERE c < n, or any other comparison, on an integer column keeps exactly the rows whose value is not NULL and compares so with n, as float64 values, in order |
| `Expressions.ComparesRight` | executor/filter.go:144-228 | Comparing two integers as floats agrees with comparing them, for every operator, if and only if they are equal or round to different floats; up to 2^53 they always do |
| `Expressions.FilterNull` | executor/filter.go:144-228 | Compared with a NULL literal on either side no row is kept and nothing fails |
| `Expressions.FilterLogic` | executor/filter.go:144-228 | AND, OR and NOT of conditions keep exactly the rows on which both hold, one holds, the first does not hold |
| `Expressions.ProjectHolds` | executor/project.go:28-72 | A projection gives one row for each, in order, and each column holds the value of its expression, except that a boolean becomes NULL |
| `Expressions.ProjectComputes` | executor/filter.go:230-262 | A projection of c - n, c + n, c * n, c / n or c % n over an integer column: NULL where c is, and otherwise the 64-bit result, wrapped around, quotients truncated toward zero and remainders with the sign of the dividend |
| `Expressions.ScanReturns` | executor/filter.go:27-41 | SELECT * gives the stored rows |
| `Expressions.SelectWhere` | executor/executor.go:137-219 | SELECT * FROM t WHERE c < n, or any other comparison, by the plan and by the iterators built for it: exactly the rows that pass, in order |
| `Expressions.ProductAt` | executor/join.go:58-99 | A join without a condition: as many rows as the product, every left row in order beside every right row in order |
| `Expressions.FilterColumns` | executor/filter.go:144-228 | A comparison of two integer columns keeps exactly the rows in which neither is NULL and they compare so, in order |
| `Expressions.SelectJoin` | executor/executor.go:137-219 | SELECT * FROM t JOIN u ON a = b, or any other comparison, by the plan and by the iterators built for it: exactly the pairs that compare so, in the order of the product |
| `Expressions.BigIntegersMeet` | executor/filter.go:264-273 | Integers are compared as floats: 2^53 and 2^53 + 1 come out equal |
| `Expressions.ParseDecimal` | executor/filter.go:50-72 | An integer literal within 64 bits means the number it writes, with a minus sign its opposite; a larger one is an error |
| `Operators.RunJoin` | executor/join.go:37-99 | A join whose right side may hold joins, with or without a condition: the iterators give the rows of the plan if and only if the right side holds no join, or the left rows after the first contribute neither a row nor a failure, or the first one fails |
| `Operators.ReopenedJoinIsEmpty` | executor/join.go:37-56 | One row on each side: one joined row the first time, none the second |
| `Operators.NestedJoinLosesRow` | executor/join.go:58-99 | A join over a join: two left rows, and only the first is joined |
| `Like.LikeMatch` | executor/filter.go:275-292 | True if and only if some choice of strings for the wildcards turns the pattern into the string, for all strings and patterns |
| `Like.GreedyLosesNothing` | executor/filter.go:275-292 | Taking the leftmost occurrence of a piece loses no match |
| `RowCodec.SetBit` | executor/row.go:11-17 | One bit of the bitmap changes and no other |
| `Wire.CellLayout` | executor/row.go:34-69 | The bytes of one cell: integers, modulo 2^64, and floats as eight big-endian bytes, texts and blobs behind a four-byte big-endian length, nothing for NULL |
| `RowCodec.EncodeRow` | executor/row.go:34-69 | A null bitmap that marks exactly the null columns, then the other cells in order |
| `RowCodec.RowLayout` | executor/row.go:34-69 | The bytes of a row: bit i % 8 of byte i / 8 is set exactly for a null column i, and the non-null cells follow in order |
| `RowCodec.DecodeRow` | executor/row.go:73-128 | The cursor loop computes the column-by-column reading of the bytes |
| `RowCodec.RowRoundTrip` | executor/row.go:34-128 | A row comes back, whatever follows it, if and only if its texts and blobs are shorter than 2^32 bytes |
| `RowCodec.DecodedSound` | executor/row.go:73-128 | Whatever the bytes are: a row that is read has the declared types, is null exactly where the bitmap says so, and its other cells encode to the bytes behind the bitmap |
| `RowCodec.CutRow` | executor/row.go:73-128 | Every proper prefix of an encoded row is reported as truncated |
| `CatalogCodec.EncodeTableDef` | catalog/encoding.go:39-153 | The loop builds the wire format, from which the definition can be read back if and only if its counts and lengths fit |
| `CatalogCodec.TableLayout` | catalog/encoding.go:39-153 | The bytes of a definition, field by field: version, name, counted columns with type, flags and default, counted foreign keys with ON DELETE before ON UPDATE, root page; all numbers big-endian |
| `CatalogCodec.IndexLayout` | catalog/encoding.go:293-318 | The same for an index definition: its three names, the unique flag and the root page |
| `CatalogCodec.DecodeTableDef` | catalog/encoding.go:156-282 | The loop computes the field-by-field reading, with a panic exactly where the data ends too soon |
| `CatalogCodec.TableRoundTrip` | catalog/encoding.go:39-282 | Decoding undoes encoding if and only if counts fit 16 bits and lengths 32 |
| `CatalogCodec.IndexRoundTrip` | catalog/encoding.go:293-365 | The same for index definitions |
| `Catalogs.Catalog.Open` | catalog/catalog.go:37-84 | Reopening rebuilds the same table and index maps, and the same index lists up to order |
| `Catalogs.Catalog.CreateTable` | catalog/catalog.go:90-109 | Succeeds exactly when the name is new in the tree and the entry fits; the tree mirrors the maps |
| `Catalogs.Catalog.CreateIndex` | catalog/catalog.go:161-181 | Succeeds exactly when the name is new in the tree and the entry fits; the lists stay right if and only if the index names an existing table, and every operation still works when they are not |
| `Catalogs.Catalog.DropIndex` | catalog/catalog.go:185-202 | Removes exactly that index, from the tree, the map and its table's list |
| `Catalogs.Catalog.DropTable` | catalog/catalog.go:115-133 | Removes the table and exactly the indexes on its list, which are its indexes while the lists are right |
| `Catalogs.LeftoverIndex` | catalog/catalog.go:115-181 | An index on a missing table, the table created and dropped: the index is left over |

## Left out

- BTrees.BTree.Delete: where the leaf falls below half its page, stated for keys of one length, as the 8-byte integer keys are; with mixed lengths the separator replacement has no fit test (`Limits.ReplacementOverflows`) and a forced rotation can meet a donor with one key (`Limits.ForcedDonorWithOneKey`).
- BTrees.BTree.RebalanceInternal: stated for keys of one length, for the same reason.
- BTrees.BTree.RebalanceLeaf: stated for keys of one length, for the same reason.
- PoolTheorems.BeginPlayRollback: the run holds no flush, which the engine does only when it closes; a page that was evicted dirty is not restored, as the contract says.
- Recovery.UndoPass: a failing write is stated only for pages that do not exist.
- Dml.Executor.ExecuteUpdate: between the condition under which a failure cannot leave a reference dangling and the one under which it must, that depends on the order in which the child tables are visited, which is arbitrary here; with indexes that are already wrong, as a statement that failed halfway can leave them, success is not characterised.
- Dml.Executor.ExecuteDelete: where a table has a cascading rule beside one that refuses or nulls an indexed column the success condition is sufficient only; there success can depend on the order in which tables are visited, since a cascade may remove the row that would have refused.
- Deadlock.DetectDeadlock: not every cycle need have a victim of its own; one that the search meets behind an earlier one has none until that is broken.
- Expressions.FilterCompares: string and float comparisons and columns of mixed type are parameters of the model.
- Operators.RunPlan: trees in which the right side of a join holds a join whose own right side holds one; no such tree is ever built.
- Planner.PushdownPreserves: compares with originals that do not fail; a pushed filter may drop the row that made the original fail.
- Pagers.Pager.FreePage: of page 0 only whether it still holds the header, not its bytes.
- Pagers.Pager.WritePage: data of other lengths than a page, which are refused.
- SlottedPage.Node.ReplaceInternalKey: on bytes, stated for a key that fits; rebuilding a page that overflows is not modelled.
- Catalogs.Catalog.CreateTable: whether the catalog's tree has room is a parameter, since the catalog sees its tree as a map; `BTrees.BTree.Insert` has the condition.
- Catalogs.Catalog.CreateIndex: the same parameter.
- Page ids and sequence numbers are unbounded where they only count up; the wire formats keep their widths.
- Pins inside tree operations; the duplicate-key return of an insert keeps its pin in the original.
- What a statement that fails leaves in the indexes; that the rows keep what is promised of them is stated.
- Rows too large for a leaf: tables and indexes under DML are maps that refuse only duplicates.
- Page 0 and pages freed during a logged run, which the pager writes behind the pool.
- File handles, seeking, syncing and operating-system errors; the disk is a map of pages and the log a byte string.
- The checksum's polynomial: it is some function of the bytes.
- Locks taken inside the foreign-key helpers: there are none, so serializability is for statements on tables without foreign keys.
- Column names in the foreign-key layer are resolved to positions before the model starts.
- Floating-point arithmetic, aggregates, sorting, limits and the text comparison of mixed values.
- Constant folding, which turns comparisons into integer literals that a filter then rejects, and index selection, which does not distinguish > from >=.
- Durability of committed pages that were not flushed: a commit writes only its record.
- The order of integer keys: negative values sort after positive ones in the big-endian encoding, so no range property is claimed.
- The parser, the lexer, the REPL and value formatting.
- Aggregate, sort and limit nodes in the plan rewrites, which recurse through them unchanged.
- Freeing of a dropped table's pages, which the catalog does not do.
