# A model of the LMDB engine

LMDB is the storage engine bundled under `dependencies/lmdb`. This project models its engine
(`mdb.c`, `midl.c`) and its dump and load tools (`mdb_dump.c`, `mdb_load.c`) in Dafny 4.11 and proves
what they are for: that readers see one committed state, that no page is lost or used twice, that the
B+tree is a map, that lists, pages and files hold what they should. `dafny verify dfyconfig.toml`
verifies everything.

## What is where

| files | what they model |
|---|---|
| `Mvcc`, `MvccReach`, `MvccInvariant`, `Upkeep`, `MvccSafety`, `MvccTheorems`, `MvccScan` | readers, one writer, meta pages, crashes and dead owners as a state machine; what its snapshots reach; its inductive invariant and how the steps keep it; theorems over every run; what the scan for the oldest reader finds |
| `MvccJoin`, `MvccRuns` | opening an environment with an id read earlier: exactly when it does harm and what harm; runs that show it |
| `PageMoves`, `MvccPages`, `CommitPages`, `CommitSafety` | the page lists and the trees of a write transaction move as the protocol's writer does and meet what it asks of a commit; a whole transaction as a run of the protocol |
| `IdSort`, `IdLists`, `PageLists` | ID lists in arrays: quicksort with its own stack, merge in place, search, growth; page runs in them |
| `TxnPages`, `FreelistSave`, `WrittenRecords` | where a write transaction's pages come from and go to, and writing the freeDB at commit |
| `Keys` | key order |
| `BTree` and `BTree*`, `UnderfullPages` | the tree: search, split, borrow, merge, put and delete as updates of a map, what they do to the pages of each level and in bytes when, and when they fail; cursors |
| `SlottedPage` | the bytes of one page: pointers growing up, nodes packed downward |
| `TrackedCursors` | the fix-up of other cursors after a page changed |
| `DirtyLists`, `NestedCommit`, `SpillLists` | dirty and spill lists of nested transactions, their merge, and moving pages between them |
| `PageTrees`, `TouchPath`, `TreePages` | trees as pages of a file; copy on write; the page numbers each change of a tree takes and gives back |
| `PageUnits`, `PageFiles` | what a file holds of a tree, unit by unit; which units a change may rewrite, and the file after it |
| `NumberedTree`, `NumberedPlace`, `NumberedDb` | put and delete on pages with numbers: copying on write, splits, borrows and merges with the pages they take and free |
| `CompactCopy`, `DropWalk`, `CopyLeaks` | the compacting copy; emptying a database; what a copy says of pages lost by it |
| `TextCodec`, `LoadLines`, `DumpLoad`, `DumpHeader` | the dump format, written and read back |
| `Options`, `Seqs` | an optional value; ways to cut a sequence |

What the source updates in place is a class or an array here (lists, slotted pages, cursors, transactions,
line buffers). Pages of the B+tree are values, see "Left out".

## Main results

1. In every run of readers, serialized writers, deaths and crashes: a reader sees exactly one committed
   state (`ReaderSeesCommitted`), which does not change under it (`SnapshotStable`); no page of a snapshot in
   use is handed out or written (`NoReuse`); after a crash the newest meta page names an intact committed
   state (`CrashRecovers`). The scan for the oldest reader misses none and finds no id that is not there
   (`ScanFinds`, `ScanExact`), so freed pages are not held back by it (`ScanIdle`), and a reader that is not
   interrupted gets the newest commit (`ReadNewest`) and leaves nothing behind (`ReadEnds`).
2. No page is lost or used twice. Of every snapshot a run commits, each page of the file is reached along
   exactly one path from the roots, or listed in exactly one freeDB record, and not both (`CommitConserves`).
   Allocation and freeing keep each page in one place (`TxnPages.Txn`); every change of a tree takes and gives
   back exactly the pages that enter and leave it (`Databases`), and so does any sequence of puts and deletes,
   with all copying, splitting, borrowing and merging they cause (`Transact`); `mdb_freelist_save`, whose own
   writes to the freeDB change the lists it saves while it saves them, ends with every page in one place
   (`FreelistSave`, `SaveMeetsProtocol`). A whole write transaction of the trees is a run of the protocol: its
   page moves, its page writes and its save are steps that are enabled, the file then holds its trees, each
   database has what the updates make of it, and the pages of every snapshot in use are as they were
   (`RunTransaction`, `TransactionRuns`); the next transaction can begin with what it leaves (`NextTransaction`), and
   one that fails is given up with all as it was.
3. Put and delete are update and removal on a map, through splits, borrows, merges and root changes, with true
   depth, order and counters (`Db.Put`, `Db.Del`, `Place`, `Rebalance`); the split scan always fits
   (`SplitPoint`), borrow and merge always have room (`MoveRoom`, `MergeRoom`); they fail exactly when a page on
   the search path is split without a scan and one side has no room (`Stuck`, `StuckHere`). Which pages they
   change is proved in bytes: a put fills its page, or parts it where `SplitChosen` says; a deletion leaves all
   other pages alone while its page is a quarter full, and else moves one node over or makes two pages one, as the
   neighbour's own bytes decide (`Placed`, `Rebalanced`, `LeavesAfter`). With page numbers the
   same holds but for want of pages, of which the reason is given: no room on the dirty list, or the file is full and
   no run of free pages can be had (`PutKey`, `DelKey`, `Transact`); the pages on the dirty list and mt_dirty_room
   together never grow, so the list never overflows (`Txn.Alloc`, `WriteTxn`). Every page and overflow
   run that is not on a page of the transaction is then one of before, with the same entries, in every one of these
   operations (`StepKeeps`, `Transact`, `WriteTxn`); so where the file held the trees before, it holds those after
   when just these pages are written (`FileHolds`), and older trees stay in it (`OldKept`).
4. Copy on write replaces exactly the pages on a cursor's path, keeps the database, all snapshots and all
   cursors, and frees exactly what it replaced (`TouchAll`, `SnapshotKept`).
5. After a nested commit the parent sees every page as the child did (`Commit`, `CommitSeen`), with
   mt_dirty_room right throughout (`RoomKept`, `PageSpill`).
6. The compacting copy is the same database in pages 2, 3, 4, ... and detects exactly the page leaks
   (`Copier.Walk`, `CopyIsFaithful`, `RootTellsLeaks`, `CopyTellsLost`); dropping frees every page once
   (`Dropper.Drop`).
7. The in-place quicksort and merges sort and merge, within their bounds (`Sort`, `XMerge`, `Merge2`); the bytes
   of a page implement the sequence of its nodes (`Slotted`); cursors follow their nodes (`AfterSplit`, ...);
   the cursor shortcut agrees with a search, also on where a missing key is to go (`Set`, `SetOnUnique`); a dump
   loads as what it was (`LoadDump`), lines without a header do too (`LoadBare`), and just the lines that
   `WholeLine`, `TextExactly` and `HexExactly` describe are accepted.
8. When a process opens the environment with an id read earlier and no writer at work, the next commit builds
   on the newest one and becomes the newest if and only if that id is still the newest (`JoinExact`); for every
   other id it is proved which commits are lost (`StaleCommitLost`). In any state the id does no harm when a
   commit is published or a dead lock recovered before it is used (`JoinHealed`).

## Assumptions

- Memory is sequentially consistent; copying a meta page and writing it are atomic. Page writes that are
  not synced survive a crash in any subset.
- In the protocol, the writer commits trees that reach each of its pages once, with a freeDB as
  `mdb_freelist_save` leaves it; `CommitSafety` shows it of a transaction of puts and deletes. Which updates of the
  freeDB's tree a write of a record is, is an argument (`script`) of `FreelistSave`; so is the result of the
  reader table scan (`scan`).
- Integers are unbounded; where the source relies on a width (list lengths up to INT_MAX, 64-bit page
  numbers, 16-bit sizes in node headers, 8-bit characters) the bound is a precondition or a type.
- Allocation and I/O do not fail.

## What the proofs show to be false or conditional

- **Joining an environment.** `mdb_env_open2` stores the transaction id of the header it read earlier into
  `mti_txnid` (mdb.c:5001-5002). A commit between the read and the store makes the id stale. `JoinExact`: the
  next commit builds on the newest one and becomes the newest if and only if the id is still the newest.
  With a stale id a commit that was synced is lost, and `StaleCommitLost` says which one is the newest after
  any power failure that follows: with an id of the same parity as the newest, the commit from before (the
  new one is lost); with the id just before it, the new one, which was built on the older meta page and
  overwrote the newest (that one is lost); with any other, the older one from before (both are lost).
  `StaleCommitHappens` is such a run. With an id of the other parity, moreover, the first page the next writer
  takes is the first one after the older snapshot, and a reader's snapshot is damaged if and only if it has
  that page with another content (`StaleJoinOverwrites`; `StaleJoinHappens` is a run). Any id does no harm when
  a writer publishes its commit, or the lock of a dead one is recovered, before a reader loads the id or a
  transaction begins (`JoinHealed`); when the writer that holds the lock gives it up, it is as if the join came
  after that (`JoinCommutes`). The theorems over runs are about runs without stale joins.
- **Splitting without a scan.** With 32 keys or more and a small new node that does not go last,
  `mdb_page_split` cuts in the middle and never checks that the halves fit (mdb.c:9787). `ShortcutFails` is a
  page where one does not; `ShortcutFits` says exactly when both do, `StuckHere` when a page fails in terms of
  the sizes of its nodes. `Db.Put` and `Db.Del` end with MDB_PAGE_FULL, and a transaction that can only abort, if
  and only if the search path gets stuck there: at the leaf, or at a page above it for the separator that a
  split or a borrow puts in (`Stuck`, `MergeStuck`). That takes a tree with a lopsided page: 32 nodes or more,
  half of which take more than 15/16 of it. `FullReached` is a run of 32 puts that succeed and one that does
  not. Borrows and merges always have room on the page itself.
- **Falling back after a crash.** When the meta page of the last commit was not synced, the one before it is
  kept intact. The older meta page need not be intact once the newest is synced; nobody needs it then.
- **Emptying a database that holds named databases.** `mdb_drop0` looks for databases in a database only if it
  is MDB_DUPSORT (mdb.c:10977, 11048). `NothingLeft`: all pages below are freed exactly when none with pages
  is recorded there; `SubsLost` is a database where some are not, and `Databases.Drop` says which pages are lost.
  A compacting copy made later notices if and only if the main database is not empty then: with a tree in it,
  the roots agree exactly when no page is lost (`CopyTellsLost`), so the copy ends with MDB_INCOMPATIBLE; right
  after the main database was emptied the copy succeeds whatever was lost (`DropThenCopy`).
- **Reading headers.** `readhdr` only ever sets PRINT: after a header with `format=print`, one with
  `format=bytevalue` is read as printable text too (`HeaderRoundTrip`).

## Model

| member | source | states |
|---|---|---|
| Mvcc.PickMeta | dependencies/lmdb/libraries/liblmdb/mdb.c:4402-4407 | the meta page chosen has an id no smaller than the other one |
| MvccSafety.SlotStep | dependencies/lmdb/libraries/liblmdb/mdb.c:3058-3063 | loading, publishing, re-checking, ending and dying of a reader keep the invariant |
| MvccSafety.CopyMetaStep | dependencies/lmdb/libraries/liblmdb/mdb.c:3063 | a reader that passed the re-check may copy its meta page after any number of later commits; the invariant holds, with a snapshot no older than the published id |
| MvccSafety.EndScanStep | dependencies/lmdb/libraries/liblmdb/mdb.c:2374-2391 | what the slot-by-slot scan ends with is not above the id of any reader past its re-check, so caching it keeps the invariant; that it is no smaller than need be is `MvccScan.ScanFinds` |
| MvccSafety.TakeRecordStep | dependencies/lmdb/libraries/liblmdb/mdb.c:2495-2573 | taking a freeDB record below the cached oldest reader keeps the invariant: no snapshot that is in use, or that a crash may fall back to, reaches its pages |
| MvccSafety.TakeRecordPartition | dependencies/lmdb/libraries/liblmdb/mdb.c:2495-2573 | each page stays in exactly one place of the writer when a record is taken in key order |
| MvccSafety.SavedConserves | dependencies/lmdb/libraries/liblmdb/mdb.c:3438-3655 | when the trees of the transaction reach each of its pages once and its freeDB is as `mdb_freelist_save` leaves it, the new snapshot is well formed: pages reached and pages listed make up the file, each once |
| MvccSafety.WriteStep | dependencies/lmdb/libraries/liblmdb/mdb.c:2740-2812 | a write to a page allocated by this transaction changes no page of a live snapshot, in memory or on disk |
| MvccSafety.WriteMetaStep | dependencies/lmdb/libraries/liblmdb/mdb.c:4271-4395 | writing the meta page, synced or not, keeps the invariant |
| MvccSafety.NewFreeUnreachable | dependencies/lmdb/libraries/liblmdb/mdb.c:3438-3655 | "record k is unreachable from snapshots of id >= k" carries over to the freeDB of the committing transaction |
| MvccSafety.MtiCatchesUp | dependencies/lmdb/libraries/liblmdb/mdb.c:11273-11311 | resetting mti_txnid from the newest meta page, after its owner died between the meta write and the publication, keeps the invariant |
| MvccSafety.SurvivingMetas | dependencies/lmdb/libraries/liblmdb/mdb.c:4271-4395 | whichever meta pages survive a crash, the newest is the last commit or, if that was not synced, the one before it |
| MvccTheorems.StepInv | dependencies/lmdb/libraries/liblmdb/mdb.c:2374-4395 | every step of every reader, writer, recovery and crash keeps the invariant |
| MvccTheorems.RunInv | dependencies/lmdb/libraries/liblmdb/mdb.c:2374-4395 | the invariant holds after every run from the created environment, however readers, writers, deaths and crashes are interleaved |
| MvccTheorems.ReaderSeesCommitted | dependencies/lmdb/libraries/liblmdb/mdb.c:3058-3063 | in every run, whatever a reader reaches from its roots, along any path, is what one committed transaction wrote, no older than the id it published |
| MvccTheorems.SnapshotStable | dependencies/lmdb/libraries/liblmdb/mdb.c:3058-3063 | in every run, pages of the snapshot a reader copied keep their content until it ends, whatever other steps are taken |
| MvccTheorems.NoReuse | dependencies/lmdb/libraries/liblmdb/mdb.c:2434-2624 | in every run, no allocation or write hits a page of a snapshot in use by a reader, or of the two snapshots the meta pages name |
| MvccTheorems.CrashRecovers | dependencies/lmdb/libraries/liblmdb/mdb.c:4142-4197 | after a crash at any step, with any subset of unsynced writes lost, the newest meta page names one committed state, fully intact |
| MvccTheorems.FloorFollows | dependencies/lmdb/libraries/liblmdb/mdb.c:4107-4114 | a crash loses at most the last commit, and not even that when its meta page was synced |
| MvccTheorems.CommitConserves | dependencies/lmdb/libraries/liblmdb/mdb.c:969-970 | of every snapshot that is committed in any run, a page below its next page number is reached along exactly one path from the roots or is in exactly one freeDB record, and not both; no other page is |
| MvccScan.ScanFinds | dependencies/lmdb/libraries/liblmdb/mdb.c:2374-2391 | in every run, with readers coming and going during the scan: the id it leaves is below the writer's own, at most the id of every slot that had a process and that id all along, and is the id before the writer's or one that a slot with a process has shown |
| MvccScan.ScanExact | dependencies/lmdb/libraries/liblmdb/mdb.c:2374-2391 | when no slot changes meanwhile, the id is the least of the one before the writer's and the ids of the slots with a process, exactly |
| MvccScan.OldestUnique | dependencies/lmdb/libraries/liblmdb/mdb.c:2374-2391 | there is one such id |
| MvccScan.ScanIdle | dependencies/lmdb/libraries/liblmdb/mdb.c:2495-2573 | with no id in a slot the oldest is the newest commit, and the next older record of the freeDB can be taken |
| MvccScan.ReadNewest | dependencies/lmdb/libraries/liblmdb/mdb.c:3058-3063 | a reader whose steps are not interrupted ends with the snapshot of mti_txnid, the newest one when no writer is at work, and its id in the slot |
| MvccScan.ReadEnds | dependencies/lmdb/libraries/liblmdb/mdb.c:3313-3340 | when it ends its slot has no id, and all else is as before it began |
| MvccScan.SlotAgain | dependencies/lmdb/libraries/liblmdb/mdb.c:11213-11262 | a reader may die at any step: once its slot is cleared no scan looks at it, and who claims it next finds no id |
| MvccReach.ImageReached | dependencies/lmdb/libraries/liblmdb/mdb.c:969-970 | the pages of a snapshot are exactly those to which a path of links from its roots leads, and to each there is one path |
| MvccReach.OnePath | dependencies/lmdb/libraries/liblmdb/mdb.c:969-970 | to a page reached once there is only one path |
| MvccJoin.JoinKeepsInvariant | dependencies/lmdb/libraries/liblmdb/mdb.c:5001-5002 | when a process opens the environment and stores the id it read earlier from the header, with the writer not yet past its meta page, the invariant survives if and only if that id is still the newest |
| MvccJoin.JoinExact | dependencies/lmdb/libraries/liblmdb/mdb.c:5001-5002 | after the join, the next commit is built on the newest one and is itself the newest if and only if the id was still that of the newest |
| MvccJoin.StaleCommitLost | dependencies/lmdb/libraries/liblmdb/mdb.c:5001-5002 | with a stale id, after the next commit, although synced, and any power failure: the newest is the commit from before (same parity), or the new one in the place of the newest from before (the id before it), or the older one from before (any other) |
| MvccJoin.JoinHealed | dependencies/lmdb/libraries/liblmdb/mdb.c:5001-5002 | in any state, dead owners and unpublished commits included, any id does no harm if a commit is published or a dead lock recovered before a reader loads the id or a transaction begins |
| MvccJoin.JoinCommutes | dependencies/lmdb/libraries/liblmdb/mdb.c:5001-5002 | when the writer gives up the lock after the join, the state is as if the process had joined afterwards |
| MvccJoin.StaleJoinOverwrites | dependencies/lmdb/libraries/liblmdb/mdb.c:5001-5002 | with any id of the other parity and no writer at work, the first page the next writer adds and writes changes the snapshot of a reader if and only if that snapshot has the page after the older meta page, with another content |
| MvccRuns.StaleJoinHappens | dependencies/lmdb/libraries/liblmdb/mdb.c:5001-5002 | such a run exists: from the created environment, after one commit and one reader, a page of the reader changes |
| MvccRuns.StaleCommitHappens | dependencies/lmdb/libraries/liblmdb/mdb.c:5001-5002 | a run from the created environment in which the third transaction, synced, is gone after every power failure, because a process had read the header of the empty file |
| MvccPages.SaveMeetsProtocol | dependencies/lmdb/libraries/liblmdb/mdb.c:3438-3655 | what the list-level `mdb_freelist_save` leaves is what the protocol-level commit step asks for |
| MvccPages.HeadCut | dependencies/lmdb/libraries/liblmdb/mdb.c:3626-3655 | the records up to me_pglast hold me_pghead, all of it, each page in one record |
| CommitPages.TreesCommit | dependencies/lmdb/libraries/liblmdb/mdb.c:3438-3655 | a transaction that has lost no page, with its freeDB saved, as `WriteTxn` leaves it, meets what the protocol asks of a commit when the file holds its trees: its roots reach every page of the snapshot, once |
| CommitPages.WriteTxn | dependencies/lmdb/libraries/liblmdb/mdb.c:3438-3655 | any updates of the databases followed by saving the freeDB: no page is lost, the freeDB is saved, the databases hold what the updates made of them, only pages of the transaction are changed, the pages move as the protocol allows, and dirty pages and mt_dirty_room add up to no more than at the beginning; when it fails, the update or the write of the save that failed has a page that is stuck, a record of a database under its key, or no page to take |
| CommitPages.CommitFile | dependencies/lmdb/libraries/liblmdb/mdb.c:4095-4113 | from a file and memory that hold the trees before, the file and memory that hold those of the transaction, different on pages it may write only; they are what the protocol commits, and trees without such pages stay |
| CommitSafety.RunTransaction | dependencies/lmdb/libraries/liblmdb/mdb.c:4095-4113 | a transaction from its beginning to its save: contents as the updates make them, and a run of the protocol from the state it began in to the saved one, with the snapshot of its trees; the pages of every live snapshot stay; a failed one is aborted with all as it was |
| CommitSafety.TransactionRuns | dependencies/lmdb/libraries/liblmdb/mdb.c:4095-4113 | moves, page writes and the save of what a complete transaction commits are enabled one after the other |
| CommitSafety.MovesRun | dependencies/lmdb/libraries/liblmdb/mdb.c:2434-2624 | page moves that lead from one writer to another are a run of the protocol |
| CommitSafety.OldPages | dependencies/lmdb/libraries/liblmdb/mdb.c:2484-2573 | no page the writer may write is one of a snapshot in use or named by a meta page |
| CommitSafety.TxnBegins | dependencies/lmdb/libraries/liblmdb/mdb.c:3070-3100 | when a transaction begins, its lists hold every page of the file once, and the freeDB's records are those of the snapshot |
| CommitSafety.NextTransaction | dependencies/lmdb/libraries/liblmdb/mdb.c:4112-4128 | after the save the meta page can be written, in either sync mode, and the next transaction begins with the snapshot of these trees |
| CommitSafety.CreatedSnapshot | dependencies/lmdb/libraries/liblmdb/mdb.c:4402-4407 | in a new environment the first transaction can begin |
| PageFiles.FileHolds | dependencies/lmdb/libraries/liblmdb/mdb.c:3727-3745 | when the file held the trees of before, it holds those of after once just the pages of the transaction are written |
| PageFiles.OldKept | dependencies/lmdb/libraries/liblmdb/mdb.c:2717-2816 | a tree that has no page of the transaction stays in the file |
| PageFiles.Apart | dependencies/lmdb/libraries/liblmdb/mdb.c:969-970 | in trees that use each page once no page is in two pages or overflow runs |
| CommitPages.ShapeLinked | dependencies/lmdb/libraries/liblmdb/mdb.c:969-970 | a tree held by the file leads, link by link, overflow runs and databases included, to just its pages |
| IdSort.Sort | dependencies/lmdb/libraries/liblmdb/midl.c:220-279 | the ids end up in descending order and are a permutation; the count is kept; every access is in bounds and the loop ends, for all lengths up to INT_MAX |
| IdSort.Partition | dependencies/lmdb/libraries/liblmdb/midl.c:237-262 | a permutation of [l, ir] after which everything before j is at least ids[j] and everything after at most that; the part between i and j equals the pivot |
| IdSort.ScanUp | dependencies/lmdb/libraries/liblmdb/midl.c:252 | the upward scan stops at or before a known sentinel, at the first id not above the pivot |
| IdSort.ScanDown | dependencies/lmdb/libraries/liblmdb/midl.c:253 | the downward scan likewise |
| IdSort.ShiftUp | dependencies/lmdb/libraries/liblmdb/midl.c:229-235 | the inner loop of the insertion sort, which may run down to index 1, moves nothing below l |
| IdSort.InsertionSort | dependencies/lmdb/libraries/liblmdb/midl.c:228-236 | a small range is sorted in place and is a permutation |
| IdSort.StackFits | dependencies/lmdb/libraries/liblmdb/midl.c:222-226 | a range that is still large, d levels deep, needs at most 56 of the 64 stack entries |
| IdSort.PartsSorting | dependencies/lmdb/libraries/liblmdb/midl.c:263-274 | pushing the larger part and going on with the smaller keeps the pending ranges disjoint and halving, and is progress |
| IdLists.Search | dependencies/lmdb/libraries/liblmdb/midl.c:32-66 | the position of the id, or of the first smaller one |
| IdLists.XMerge | dependencies/lmdb/libraries/liblmdb/midl.c:201-213 | in place and from the back: the result is the descending multiset union, nothing past it changes, even when the source lies at the top of the same array above the merged list |
| IdLists.MoveLarger | dependencies/lmdb/libraries/liblmdb/midl.c:206-209 | the inner loop stops at the sentinel at index 0 at the latest |
| PageLists.IdList.Need | dependencies/lmdb/libraries/liblmdb/midl.c:143-155 | afterwards there is room for num more ids; the list is unchanged |
| PageLists.IdList.Append | dependencies/lmdb/libraries/liblmdb/midl.c:157-168 | the list with the id at its end, grown if need be |
| PageLists.IdList.AppendList | dependencies/lmdb/libraries/liblmdb/midl.c:170-183 | the concatenation of both lists |
| PageLists.IdList.AppendRange | dependencies/lmdb/libraries/liblmdb/midl.c:185-199 | the list followed by the run, largest first |
| PageLists.IdList.MergeTop | dependencies/lmdb/libraries/liblmdb/mdb.c:3608-3624 | loose pages written to the top of the same array after asking for 2 * count + 1 ids are merged in: the regions stay disjoint |
| PageLists.MergeDownBag | dependencies/lmdb/libraries/liblmdb/midl.c:201-213 | the merge has the ids of both lists, as a multiset |
| PageLists.MergeDownFalls | dependencies/lmdb/libraries/liblmdb/midl.c:201-213 | the merge is descending |
| PageLists.FallingUnique | dependencies/lmdb/libraries/liblmdb/midl.c:220-279 | a multiset has one descending arrangement: sorting and merging have one possible result |
| PageLists.EndsMakeRun | dependencies/lmdb/libraries/liblmdb/mdb.c:2484-2493 | the one test on the two ends of a stretch proves all ids between consecutive |
| PageLists.RunPositions | dependencies/lmdb/libraries/liblmdb/mdb.c:2484-2493 | a run of pages in the list stands at consecutive positions |
| PageLists.FindRun | dependencies/lmdb/libraries/liblmdb/mdb.c:2484-2493 | finds a run of num pages exactly when there is one, the lowest |
| PageLists.TakeRun | dependencies/lmdb/libraries/liblmdb/mdb.c:2607-2612 | removes exactly the run and moves the stragglers down |
| PageLists.TakenStrict | dependencies/lmdb/libraries/liblmdb/mdb.c:2607-2612 | the list stays strictly descending |
| PageLists.InsertRun | dependencies/lmdb/libraries/liblmdb/mdb.c:6724-6731 | the run is inserted in order, in place; the list stays strictly descending |
| PageLists.WithRunIs | dependencies/lmdb/libraries/liblmdb/mdb.c:6724-6731 | nothing is lost or added but the run |
| TxnPages.Txn.Alloc | dependencies/lmdb/libraries/liblmdb/mdb.c:2434-2624 | a loose page, else the lowest run of num pages in me_pghead, else new pages: these pages go to use and no other moves; records are read only while there is no run, and not given up before none is old enough or 60 were read for each page; mt_dirty_room goes down by one for a page that is not loose and stays otherwise; MDB_TXN_FULL comes exactly when it is 0 and no loose page will do; no more pages are dirty than it has gone down, as many if the dirty ones were accounted for |
| TxnPages.Txn.Search | dependencies/lmdb/libraries/liblmdb/mdb.c:2484-2573 | fetches records, in order and only those older than the oldest reader, until me_pghead has a run, which is then the lowest; without one either no such record is left or 60 were read for each page asked for; none is read when there is a run already |
| TxnPages.Txn.TakeRecord | dependencies/lmdb/libraries/liblmdb/mdb.c:2522-2573 | the record is merged into me_pghead, which stays strictly descending; conservation holds |
| TxnPages.Txn.Touch | dependencies/lmdb/libraries/liblmdb/mdb.c:2717-2816 | a clean page is replaced by one new page and freed, a dirty one stays; mt_dirty_room goes down by one exactly when the page was clean and the new one is not a loose one; MDB_TXN_FULL exactly when it is 0 then |
| TxnPages.Txn.Loosen | dependencies/lmdb/libraries/liblmdb/mdb.c:2133-2175 | a dirty page goes to the loose list, others to mt_free_pgs; conservation holds |
| TxnPages.Txn.OvFree | dependencies/lmdb/libraries/liblmdb/mdb.c:6667-6744 | overflow pages of this transaction go back to me_pghead in order, and mt_dirty_room up by one, when there is an me_pghead; others go to mt_free_pgs; dirty pages and mt_dirty_room add up to what they did |
| TxnPages.RecordTaken | dependencies/lmdb/libraries/liblmdb/mdb.c:2522-2573 | taking the next record moves its pages from the unconsumed ones to me_pghead, none twice |
| TxnPages.HeadTaken | dependencies/lmdb/libraries/liblmdb/mdb.c:2607-2612 | taking a run moves exactly these pages from me_pghead to use |
| TxnPages.RunReturned | dependencies/lmdb/libraries/liblmdb/mdb.c:6724-6731 | returning a run moves exactly these pages back |
| TxnPages.RecordTwin | dependencies/lmdb/libraries/liblmdb/mdb.c:2522-2573 | taking a record is the step of the protocol, which takes them in key order below the oldest reader |
| TxnPages.HeadTwin | dependencies/lmdb/libraries/liblmdb/mdb.c:2607-2612 | taking a run from me_pghead is the protocol's taking of each page |
| TxnPages.RunTwin | dependencies/lmdb/libraries/liblmdb/mdb.c:6724-6731 | and so is giving one back |
| TxnPages.OnceEach | dependencies/lmdb/libraries/liblmdb/mdb.c:969-970 | under conservation each page of the file but the meta pages is in one place, once |
| FreelistSave.FreelistSave | dependencies/lmdb/libraries/liblmdb/mdb.c:3438-3655 | ends for every finite sequence of updates of the freeDB's tree that its own writes are; on success every page in use is in one tree, once, and every other page of the file in one record, lists are strictly descending, unconsumed records are untouched and me_pghead is cut exactly into the records up to me_pglast; the other databases stay, only pages of the transaction are changed, by moves the protocol allows; it fails only at a write for which a page of the freeDB is stuck or there is no page |
| FreelistSave.DeleteConsumed | dependencies/lmdb/libraries/liblmdb/mdb.c:3513-3526 | records consumed are deleted, and those reserved so far, even when deleting consumes more |
| FreelistSave.SaveOwn | dependencies/lmdb/libraries/liblmdb/mdb.c:3529-3553 | the record of this transaction holds all pages freed, also those freed by writing it, sorted |
| FreelistSave.Reserve | dependencies/lmdb/libraries/liblmdb/mdb.c:3564-3603 | the reserved room grows to what me_pghead needs; or, for several pages, by the share of the keys that are left, rounded up to whole pages: the length and its count fill them, and exceed the share by less than a page |
| FreelistSave.Fill | dependencies/lmdb/libraries/liblmdb/mdb.c:3626-3655 | cuts the list exactly into the reserved records, each within its room, using one array element as a temporary length and restoring it |
| FreelistSave.Churn | dependencies/lmdb/libraries/liblmdb/mdb.c:3508-3566 | one write to the freeDB, with all that it does to the freeDB's pages, keeps the accounting, consumes records in key order and frees or takes pages, but makes none loose |
| FreelistSave.AllListed | dependencies/lmdb/libraries/liblmdb/mdb.c:3626-3655 | consumed, unconsumed and own records together list what the freeDB lists |
| Keys.CmpMemn | dependencies/lmdb/libraries/liblmdb/mdb.c:5907-5923 | its sign is the lexicographic order, 0 exactly for equal keys |
| Keys.RankOrders | dependencies/lmdb/libraries/liblmdb/mdb.c:5907-5923 | that order embeds into the reals: it is a strict total order |
| Keys.CmpCint | dependencies/lmdb/libraries/liblmdb/mdb.c:5880-5904 | compares little-endian integers of equal even size by value |
| Keys.HighUnits | dependencies/lmdb/libraries/liblmdb/mdb.c:5880-5904 | a higher 16-bit unit outweighs all lower ones |
| BTreeSearch.NodeSearch | dependencies/lmdb/libraries/liblmdb/mdb.c:5958-6047 | the index of the key, or of the first larger one; on a branch page never the keyless first link |
| BTreeSearch.Search | dependencies/lmdb/libraries/liblmdb/mdb.c:6466-6543 | the leaf page whose range holds the key, with the path that leads to it; the one that following the index on each page gives |
| BTreeSplit.SplitPoint | dependencies/lmdb/libraries/liblmdb/mdb.c:9744-9826 | the index is the middle for a small node that does not go last on a page of 32 or more; else it leaves the left page all that fits, up to the middle or the last old node, or the right one when the node goes to the rear half; both halves fit when it scans |
| BTreeSplit.Split | dependencies/lmdb/libraries/liblmdb/mdb.c:9744-9937 | left ++ right is the old contents with the new node; the separator is the first key on the right; fails exactly when a half does not fit, and never after the scan |
| BTreeSplit.ScanFits | dependencies/lmdb/libraries/liblmdb/mdb.c:9787-9818 | the index the scan stops at leaves halves that fit |
| BTreeSplit.ShortcutFits | dependencies/lmdb/libraries/liblmdb/mdb.c:9787 | without the scan the halves fit if and only if the side that takes the new node had room for it |
| BTreeSplit.ShortcutFails | dependencies/lmdb/libraries/liblmdb/mdb.c:9787 | there is a legal page and a small node for which the shortcut gives a half that does not fit |
| BTreeChange.SplitGood | dependencies/lmdb/libraries/liblmdb/mdb.c:9744-9937 | both halves are good pages, ordered between their bounds, and the separator lies between them |
| BTreePlace.StuckLopsided | dependencies/lmdb/libraries/liblmdb/mdb.c:9787 | the shortcut fails only on a page of at least 32 nodes, half of which fill more than 15/16 of it |
| BTreePlace.CarryUp | dependencies/lmdb/libraries/liblmdb/mdb.c:9831-9869 | after a split, adding the separator to the parent keeps items, order and page counts |
| BTreePlace.RootSplit | dependencies/lmdb/libraries/liblmdb/mdb.c:9656-9690 | a split at the root makes a tree one level deeper with the same items |
| BTreePlace.Place | dependencies/lmdb/libraries/liblmdb/mdb.c:9624-9974 | a node added, with as many splits as it takes, gives a good tree with these items and exact page counts: when it fits no other page changes, else its page is in two, parted where `SplitChosen` says, and the pages of deeper levels are what they were; it fails exactly when a split gets stuck |
| BTreeRows.HalvesRow | dependencies/lmdb/libraries/liblmdb/mdb.c:9885-9937 | below the two halves of a page are the pages that were below it, in order |
| BTreeRows.PlaceOnUp | dependencies/lmdb/libraries/liblmdb/mdb.c:9744-9937 | when a page is parted and the separator goes up, each deeper level has the pages it had, and the level of the page has its two halves in its place |
| BTreePlace.StuckHere | dependencies/lmdb/libraries/liblmdb/mdb.c:9787 | on a page the split fails if and only if it has 32 nodes or more, the new node is small and not last, and the side of the middle that takes it has no room |
| BTreeRebalance.MergeRoom | dependencies/lmdb/libraries/liblmdb/mdb.c:9427-9449 | whenever a merge is chosen, the merged page fits: leaf or branch, with the lowest key put in for the empty one |
| BTreeRebalance.MoveRoom | dependencies/lmdb/libraries/liblmdb/mdb.c:9427-9449 | whenever a borrow is chosen, the receiving page has room |
| BTreeRebalance.NodeMove | dependencies/lmdb/libraries/liblmdb/mdb.c:8876-8965 | the two pages afterwards are the joined nodes cut one node further |
| BTreeRebalance.PageMerge | dependencies/lmdb/libraries/liblmdb/mdb.c:9105-9200 | the merged page is the joined nodes |
| BTreeRebalance.JoinedArranged | dependencies/lmdb/libraries/liblmdb/mdb.c:9105-9200 | joining neighbours keeps keys and children in order |
| BTreeRebalance.Rebalance | dependencies/lmdb/libraries/liblmdb/mdb.c:9272-9452 | the tree stays good with the same items and exact counts, and in bytes: a leaf page a quarter full (a branch page with two links and a thousandth full) is left alone and so is every other page; below that the page gets the nearest node of its neighbour when that has a node to spare and is as full itself, else both are one page, and the other pages of the level stay; an empty root vanishes, one with a single link gives way to its child; it fails exactly when a borrow gets a page above stuck |
| BTreeRebalance.LeavesAfter | dependencies/lmdb/libraries/liblmdb/mdb.c:9427-9447 | a leaf that has too little: as many leaf pages after a borrow, one less after a merge |
| BTreeRebalance.EnoughIs | dependencies/lmdb/libraries/liblmdb/mdb.c:9279-9296 | the test on tenths of a percent, as one on bytes |
| BTreeChange.RaiseLow | dependencies/lmdb/libraries/liblmdb/mdb.c:9127-9146 | the lowest key below a branch page can stand for its keyless first link |
| BTree.ZipGood | dependencies/lmdb/libraries/liblmdb/mdb.c:9624-9974 | a good page back under a good path makes a good tree |
| BTreeMap.MapInsert | dependencies/lmdb/libraries/liblmdb/mdb.c:7565-8089 | an item put between smaller and larger keys is an insertion in the map |
| BTreeMap.MapUpdate | dependencies/lmdb/libraries/liblmdb/mdb.c:7565-8089 | an item in the place of one with the same key is an update of the map |
| BTreeDb.Db.Get | dependencies/lmdb/libraries/liblmdb/mdb.c:6784-6810 | gives the value of the map, or NotFound |
| BTreeDb.Db.Put | dependencies/lmdb/libraries/liblmdb/mdb.c:7565-8089 | on success the map with the key updated, in the tree that `Placed` describes: the value replaced in place when its overflow pages are writable and have room for it or its length is the same, else the node, less the old one, on the page where the key belongs; KeyExist with MDB_NOOVERWRITE; MDB_PAGE_FULL exactly when a split gets stuck |
| BTreeDb.ItemForIs | dependencies/lmdb/libraries/liblmdb/mdb.c:8330-8350 | a value goes to overflow pages exactly when two nodes as large would not fit in a page, and then to as few as hold it |
| BTreeDb.ReusesIs | dependencies/lmdb/libraries/liblmdb/mdb.c:7880-7942 | the test on page counts, as one on bytes |
| BTreeDb.Db.Del | dependencies/lmdb/libraries/liblmdb/mdb.c:9456-9550 | on success the map without the key, in the tree that `Rebalanced` describes for its leaf page without the node; NotFound exactly without the key; MDB_PAGE_FULL exactly when rebalancing gets stuck |
| BTreeDb.Db.Overwrite | dependencies/lmdb/libraries/liblmdb/mdb.c:7879-7972 | overflow pages reused, a value of the same length replaced in place, or the node deleted and added again: always the updated map |
| BTreeFull.FullReached | dependencies/lmdb/libraries/liblmdb/mdb.c:7565-8089 | from an empty database, 32 puts succeed and the next fails with MDB_PAGE_FULL |
| BTreeCursor.Sibling | dependencies/lmdb/libraries/liblmdb/mdb.c:6817-6872 | the next page at the same level, whose items follow directly; fails exactly when nothing follows |
| BTreeCursor.Cursor.First | dependencies/lmdb/libraries/liblmdb/mdb.c:7254-7300 | the first item |
| BTreeCursor.Cursor.Next | dependencies/lmdb/libraries/liblmdb/mdb.c:6875-6964 | one item further; at the end NOTFOUND with the stack as it was |
| BTreeCursor.Cursor.VisitAll | dependencies/lmdb/libraries/liblmdb/mdb.c:6875-6964 | repeated MDB_NEXT visits every item once, in key order |
| BTreeCursor.Cursor.Set | dependencies/lmdb/libraries/liblmdb/mdb.c:7054-7187 | on the item with the key, or the first larger one for MDB_SET_RANGE, which is what is returned, wherever the cursor was; when there is none, at the place where the key is to go, on the leaf page whose separators it lies between |
| BTreeCursor.SetOnUnique | dependencies/lmdb/libraries/liblmdb/mdb.c:7070-7176 | there is one right answer and one right place, found or not: shortcut and search agree |
| TrackedCursors.AfterAdd | dependencies/lmdb/libraries/liblmdb/mdb.c:7977-7995 | after a node is added, every other cursor still points to its node |
| TrackedCursors.AfterSplit | dependencies/lmdb/libraries/liblmdb/mdb.c:9976-10028 | the same after a split with room in the parent |
| TrackedCursors.AfterMove | dependencies/lmdb/libraries/liblmdb/mdb.c:8971-9027 | the same after a borrow, from left or right |
| TrackedCursors.AfterMerge | dependencies/lmdb/libraries/liblmdb/mdb.c:9203-9227 | the same after a merge |
| TrackedCursors.AfterDel | dependencies/lmdb/libraries/liblmdb/mdb.c:9456-9490 | after a deletion cursors on the node are flagged, all others still point to theirs |
| TrackedCursors.SplitOn | dependencies/lmdb/libraries/liblmdb/mdb.c:9976-10028 | a cursor on the page that was split follows its node to the right or the left half |
| TrackedCursors.SplitOff | dependencies/lmdb/libraries/liblmdb/mdb.c:9976-10028 | a cursor elsewhere under the parent follows the shift of its page |
| TrackedCursors.BorrowLeftFollows | dependencies/lmdb/libraries/liblmdb/mdb.c:8971-9027 | borrowing from the left moves cursors with their nodes |
| TrackedCursors.BorrowRightFollows | dependencies/lmdb/libraries/liblmdb/mdb.c:8971-9027 | borrowing from the right moves cursors with their nodes |
| TrackedCursors.MergeFollows | dependencies/lmdb/libraries/liblmdb/mdb.c:9203-9227 | merging moves cursors with their nodes |
| TouchPath.Writer.Touch | dependencies/lmdb/libraries/liblmdb/mdb.c:2717-2805 | a clean page of the path is copied to a new page, its parent or the root points to the copy, its old number is freed; every cursor on the same database leads down the new tree |
| TouchPath.Writer.TouchAll | dependencies/lmdb/libraries/liblmdb/mdb.c:7534-7559 | afterwards every page of the cursor stack is writable, the database has the same keys and values, no page that is not writable has changed, and what was freed is exactly what was replaced |
| TouchPath.CopyHeld | dependencies/lmdb/libraries/liblmdb/mdb.c:2739-2786 | one copy and one changed link in the parent make the new tree; all other pages are shared with the old one |
| TouchPath.SnapshotKept | dependencies/lmdb/libraries/liblmdb/mdb.c:2717-2805 | a snapshot whose pages are not written to stays in the file as it was |
| TouchPath.WithBag | dependencies/lmdb/libraries/liblmdb/mdb.c:2739-2754 | of the pages of the database one number goes and one comes |
| TouchPath.SamePage | dependencies/lmdb/libraries/liblmdb/mdb.c:2788-2804 | a cursor stack has the page at this level exactly when its path starts like the path there |
| TouchPath.StackMoves | dependencies/lmdb/libraries/liblmdb/mdb.c:2788-2804 | replacing the page in these stacks, and in no others, makes all of them right for the new tree |
| TreePages.Databases.Touch | dependencies/lmdb/libraries/liblmdb/mdb.c:2717-2805 | copying a page on write keeps the pages in use those of the trees: the new number enters, the old one is freed; nothing else is rewritten but the link in the page above, which may be written |
| TreePages.Databases.NewRoot | dependencies/lmdb/libraries/liblmdb/mdb.c:9656-9690 | a new root takes one page, and nothing else changes |
| TreePages.Databases.Split | dependencies/lmdb/libraries/liblmdb/mdb.c:9624-9974 | a split takes exactly one page, for the right half; no page is lost |
| TreePages.Databases.Move | dependencies/lmdb/libraries/liblmdb/mdb.c:8876-8965 | a borrow takes and frees no page |
| TreePages.Databases.Merge | dependencies/lmdb/libraries/liblmdb/mdb.c:9105-9200 | a merge frees exactly the right page: at once for use if it is dirty, except in the freeDB |
| TreePages.Databases.Collapse | dependencies/lmdb/libraries/liblmdb/mdb.c:9334-9370 | a root with one child is freed and the child is the root |
| TreePages.Databases.Vanish | dependencies/lmdb/libraries/liblmdb/mdb.c:9303-9312 | an empty root is freed and the database has no pages |
| TreePages.Databases.AddBig | dependencies/lmdb/libraries/liblmdb/mdb.c:8295-8414 | adding a large value takes exactly its overflow pages |
| TreePages.Databases.Delete | dependencies/lmdb/libraries/liblmdb/mdb.c:9456-9490 | deleting a node frees exactly its overflow pages; they go to me_pghead, in order, if there is one and they were allocated in this transaction, else to mt_free_pgs |
| TreePages.Databases.Drop | dependencies/lmdb/libraries/liblmdb/mdb.c:11030-11077 | emptying a database that is not MDB_DUPSORT: the pages of databases recorded in it are lost, and some are if and only if there is one with pages |
| TreePages.SplitBag | dependencies/lmdb/libraries/liblmdb/mdb.c:9624-9974 | the pages after a split are those before and the new one |
| TreePages.MoveBag | dependencies/lmdb/libraries/liblmdb/mdb.c:8876-8965 | the pages after a borrow are those before |
| TreePages.MergeBag | dependencies/lmdb/libraries/liblmdb/mdb.c:9105-9200 | the pages after a merge are those before without the right one |
| TreePages.PutBag | dependencies/lmdb/libraries/liblmdb/mdb.c:2717-2805 | a change below a path changes the pages of the tree by those below the path |
| TreePages.StepKeeps | dependencies/lmdb/libraries/liblmdb/mdb.c:2717-2816 | a change of one database within its rules leaves every page and overflow run that may not be written as it was, and what may be written stays on pages of the transaction |
| TreePages.SplitRewrites | dependencies/lmdb/libraries/liblmdb/mdb.c:9624-9974 | a split rewrites the page above, the page split and the new one only |
| TreePages.MoveRewrites | dependencies/lmdb/libraries/liblmdb/mdb.c:8876-8965 | a borrow rewrites the page above and the two pages only |
| TreePages.MergeRewrites | dependencies/lmdb/libraries/liblmdb/mdb.c:9105-9200 | a merge rewrites the page above and the left page only |
| TreePages.AddRewrites | dependencies/lmdb/libraries/liblmdb/mdb.c:8295-8414 | a node added rewrites its page, and its overflow run is on the new pages |
| TreePages.SetRewrites | dependencies/lmdb/libraries/liblmdb/mdb.c:7879-7972 | a value replaced rewrites its page, or its overflow run when that may be written |
| TreePages.Databases.First | dependencies/lmdb/libraries/liblmdb/mdb.c:7674-7690 | the first page of a database enters the pages in use |
| TreePages.Databases.Replace | dependencies/lmdb/libraries/liblmdb/mdb.c:7879-7972 | a value replaced in its page or on its overflow pages takes and frees none |
| NumberedTree.StripSplit | dependencies/lmdb/libraries/liblmdb/mdb.c:9831-9869 | without page numbers a split on numbered pages is the split of `BTreePlace` |
| NumberedTree.StripMove | dependencies/lmdb/libraries/liblmdb/mdb.c:8876-8965 | a borrow likewise is that of `BTreeRebalance` |
| NumberedTree.StripMerge | dependencies/lmdb/libraries/liblmdb/mdb.c:9105-9200 | and so is a merge |
| NumberedTree.StandsPut | dependencies/lmdb/libraries/liblmdb/mdb.c:2717-2805 | a page exchanged in the numbered tree is the page exchanged at the bottom of the cursor stack |
| NumberedPlace.TouchAll | dependencies/lmdb/libraries/liblmdb/mdb.c:7534-7559 | afterwards every page on the path may be changed and the tree is the same but for page numbers; the clean pages on the path are freed, in order and no others, and pages off the path keep their numbers and what is in them |
| NumberedPlace.Place | dependencies/lmdb/libraries/liblmdb/mdb.c:9624-9974 | splits up to where there is room: a good tree with the same items, every page in use in a tree once; only pages of the transaction change; it succeeds only if it does not get stuck, and fails only when it does or when no page can be had (`Short`); what the pages of each level hold is as for `BTreePlace.Place` |
| NumberedPlace.Rebalance | dependencies/lmdb/libraries/liblmdb/mdb.c:9272-9455 | borrows, merges and root changes: the same for deletions, down to the empty database; when a page is left alone, refilled or merged is as for `BTreeRebalance.Rebalance`, in bytes |
| NumberedPlace.Borrow | dependencies/lmdb/libraries/liblmdb/mdb.c:8876-8965 | both pages are made writable and parted anew; the tree is that of a borrow |
| NumberedPlace.Join | dependencies/lmdb/libraries/liblmdb/mdb.c:9105-9200 | the left page is made writable and takes the nodes of the right one; the pages in use are those of the trees after |
| NumberedDb.PutKey | dependencies/lmdb/libraries/liblmdb/mdb.c:7565-8089 | on success the contents are the map with the key updated; the pages in use are those of the trees, no other database changes, nor any page that is not one of the transaction; MDB_PAGE_FULL only if the search path gets stuck, and success only if not; refused only if the node found is a record of a database; it fails for want of pages only when none can be had (`ShortFor`); the pages are those `Db.Put` leaves |
| NumberedDb.DelKey | dependencies/lmdb/libraries/liblmdb/mdb.c:8092-8195 | on success the contents are the map without the key; NotFound exactly when it is not there; the same accounting, the same pages and the same reasons for failure; the pages are those `Db.Del` leaves |
| NumberedDb.Transact | dependencies/lmdb/libraries/liblmdb/mdb.c:7565-8089 | after any sequence of puts and deletes in any databases the contents are those of the same updates of maps, each page in use is in one tree, once, and only pages of the transaction are changed; when it stops, the updates before are done and the one it stops at has its reason |
| NumberedDb.ChunksAre | dependencies/lmdb/libraries/liblmdb/mdb.c:8336-8352 | a large value is cut into as many overflow pages as OVPAGES says and can be put together again |
| DirtyLists.Search2 | dependencies/lmdb/libraries/liblmdb/midl.c:281-314 | the position of the page, or of the first larger one |
| DirtyLists.Merge2 | dependencies/lmdb/libraries/liblmdb/mdb.c:4016-4025 | merges the child list into the parent list in place, from the back: the sorted union with the child winning |
| DirtyLists.CountUnion | dependencies/lmdb/libraries/liblmdb/mdb.c:4002-4012 | the length of that union, counted beforehand |
| DirtyLists.UnionGet | dependencies/lmdb/libraries/liblmdb/mdb.c:4016-4025 | as a map the union is the child, or else the parent |
| DirtyLists.UnionRises | dependencies/lmdb/libraries/liblmdb/mdb.c:4016-4025 | the union is in order |
| DirtyLists.UnionSize | dependencies/lmdb/libraries/liblmdb/mdb.c:4002-4012 | its size is the sum without the common pages |
| NestedCommit.ForgetDirty | dependencies/lmdb/libraries/liblmdb/mdb.c:3961-3980 | the child dirty pages, and only these, leave the parent spill list |
| NestedCommit.MarkDeleted | dependencies/lmdb/libraries/liblmdb/mdb.c:3965-3975 | the entries of the child dirty pages are marked, found with one backward pass and a sentinel |
| NestedCommit.Squash | dependencies/lmdb/libraries/liblmdb/mdb.c:3976-3979 | the gaps are closed in place, the rest keeps its order |
| NestedCommit.DropSpilled | dependencies/lmdb/libraries/liblmdb/mdb.c:3982-3999 | the child spilled pages, and only these, leave the parent dirty list |
| NestedCommit.VisibleSize | dependencies/lmdb/libraries/liblmdb/mdb.c:1353-1358 | the merged list has exactly the dirty pages the child saw |
| NestedCommit.MergeDirty | dependencies/lmdb/libraries/liblmdb/mdb.c:4001-4027 | after it a page is what the child had, or nothing if the child spilled it, or what the parent had; the length from mt_dirty_room is the right one |
| NestedCommit.JoinSpills | dependencies/lmdb/libraries/liblmdb/mdb.c:4030-4043 | the union of both spill lists, sorted |
| NestedCommit.Level.Find | dependencies/lmdb/libraries/liblmdb/mdb.c:6398-6460 | one level of the lookup: its spill list, then its dirty list |
| NestedCommit.PageGet | dependencies/lmdb/libraries/liblmdb/mdb.c:6398-6460 | the innermost level that knows the page decides |
| NestedCommit.Commit | dependencies/lmdb/libraries/liblmdb/mdb.c:3959-4043 | the parent lists after a nested commit are the combination of both, disjoint and in order, with mt_dirty_room right |
| NestedCommit.CommitSeen | dependencies/lmdb/libraries/liblmdb/mdb.c:3959-4043 | a page looked up through the parent afterwards is what the child saw before |
| NestedCommit.CommittedApart | dependencies/lmdb/libraries/liblmdb/mdb.c:3959-4043 | no page is both dirty and spilled afterwards |
| NestedCommit.RoomStarts | dependencies/lmdb/libraries/liblmdb/mdb.c:1353-1358 | a nested transaction starts with mt_dirty_room right |
| NestedCommit.RoomKept | dependencies/lmdb/libraries/liblmdb/mdb.c:2276-2372 | allocating, copying, unspilling and spilling keep mt_dirty_room equal to the room left for visible dirty pages |
| SpillLists.Insert2 | dependencies/lmdb/libraries/liblmdb/midl.c:316-346 | inserts in order, in place; -1 exactly for a page that is there, -2 only for a full list, and then nothing changes |
| SpillLists.PageDirty | dependencies/lmdb/libraries/liblmdb/mdb.c:2393-2415 | one more dirty page, one less room; the insertion cannot fail |
| SpillLists.Unspill | dependencies/lmdb/libraries/liblmdb/mdb.c:2659-2710 | a page spilled here or by an ancestor becomes dirty here; only the own spill list loses it, by cutting the end off or marking a slot; MDB_TXN_FULL exactly when there is no room |
| SpillLists.SlotGoneOk | dependencies/lmdb/libraries/liblmdb/mdb.c:2690-2695 | marking or cutting off a slot removes that page only and keeps the list in order |
| SpillLists.PageSpill | dependencies/lmdb/libraries/liblmdb/mdb.c:2276-2372 | pages move from the dirty to the spill list: from the end of the list on, none that is to be kept or that an ancestor has spilled, as many as are needed, at least an eighth of the list, or all that may; nothing while there is room for the estimate |
| SpillLists.Flush | dependencies/lmdb/libraries/liblmdb/mdb.c:3661-3889 | of the tail of the dirty list exactly the pages to be kept stay, in order |
| SpillLists.LeftIs | dependencies/lmdb/libraries/liblmdb/mdb.c:3661-3889 | the list that is left lacks the pages spilled and nothing else |
| SpillLists.PurgedIs | dependencies/lmdb/libraries/liblmdb/mdb.c:2308-2316 | purging deleted slots keeps the pages on the list and its order |
| SpillLists.SpillIsStep | dependencies/lmdb/libraries/liblmdb/mdb.c:1353-1358 | spilling keeps mt_dirty_room right, as `RoomKept` says of the step |
| SlottedPage.Slotted.NodeAdd | dependencies/lmdb/libraries/liblmdb/mdb.c:8295-8414 | inserts the node into the sequence the page stands for, exactly when it fits; nodes stay aligned, disjoint and tile [mp_upper, end) |
| SlottedPage.Slotted.NodeDel | dependencies/lmdb/libraries/liblmdb/mdb.c:8421-8471 | removes the node and closes the gap |
| SlottedPage.Slotted.UpdateKey | dependencies/lmdb/libraries/liblmdb/mdb.c:8785-8851 | replaces the key in the page exactly when it has room |
| SlottedPage.LayoutAdd | dependencies/lmdb/libraries/liblmdb/mdb.c:8360-8374 | a new node right below the others keeps the tiling |
| SlottedPage.LayoutDel | dependencies/lmdb/libraries/liblmdb/mdb.c:8450-8471 | shifting the nodes below the gap keeps the tiling |
| SlottedPage.LayoutKey | dependencies/lmdb/libraries/liblmdb/mdb.c:8820-8841 | shifting by the growth of a key keeps the tiling |
| SlottedPage.StoredDel | dependencies/lmdb/libraries/liblmdb/mdb.c:8450-8471 | after the memmove every other node is read back unchanged |
| SlottedPage.StoredKey | dependencies/lmdb/libraries/liblmdb/mdb.c:8814-8851 | the same when a node is resized |
| SlottedPage.StoredAdd | dependencies/lmdb/libraries/liblmdb/mdb.c:8360-8405 | the same when a node is added |
| SlottedPage.HeaderSize | dependencies/lmdb/libraries/liblmdb/mdb.c:8446-8455 | the size computed from a node header is the size it was written with |
| SlottedPage.MakeNodeOk | dependencies/lmdb/libraries/liblmdb/mdb.c:8330-8405 | a node made from any key and value can be read back; of a large value it holds the overflow page number |
| SlottedPage.NodeRoom | dependencies/lmdb/libraries/liblmdb/mdb.c:8235-8285 | the room the tree reckons for a node is what the page uses for it |
| SlottedPage.TotalIsUsed | dependencies/lmdb/libraries/liblmdb/mdb.c:8318-8358 | the free room of the page is what the tree reckons with |
| CompactCopy.Copier.Walk | dependencies/lmdb/libraries/liblmdb/mdb.c:10193-10346 | from any tree with databases and overflow runs in it, with an explicit stack: appends exactly the post-order sequence of its pages, renumbered |
| CompactCopy.Copier.CopyLeaf | dependencies/lmdb/libraries/liblmdb/mdb.c:10240-10295 | overflow runs and databases of a leaf are written before it, and its entries get the new numbers |
| CompactCopy.Copy | dependencies/lmdb/libraries/liblmdb/mdb.c:10410-10459 | the root named in the new meta page is mt_next_pgno - 1 - freecount; success exactly when it is the last page written |
| CompactCopy.CopyIsFaithful | dependencies/lmdb/libraries/liblmdb/mdb.c:10193-10346 | the file written holds a tree with the same keys and values, in pages 2, 3, 4, ... each used once and found at its number, overflow runs contiguous, the root last |
| CompactCopy.RootTellsLeaks | dependencies/lmdb/libraries/liblmdb/mdb.c:10419-10456 | if no page is used twice, the roots agree if and only if no page below mt_next_pgno is leaked |
| CompactCopy.CopyHolds | dependencies/lmdb/libraries/liblmdb/mdb.c:10193-10346 | the pages written hold the renumbered tree wherever the sequence stands at its number |
| CompactCopy.CopyUsed | dependencies/lmdb/libraries/liblmdb/mdb.c:10193-10346 | the copy uses a contiguous range of page numbers, in order |
| CompactCopy.CopySame | dependencies/lmdb/libraries/liblmdb/mdb.c:10193-10346 | renumbering changes no key and no value |
| PageTrees.UsedLength | dependencies/lmdb/libraries/liblmdb/mdb.c:10419-10440 | the page counters of a tree are the number of pages it uses |
| DropWalk.Dropper.Drop | dependencies/lmdb/libraries/liblmdb/mdb.c:10930-11026 | adds every page of the tree, every overflow page and, if asked, every page of its duplicate databases to mt_free_pgs exactly once, and ends |
| DropWalk.Dropper.Rows | dependencies/lmdb/libraries/liblmdb/mdb.c:10955-11014 | level by level from the saved left edge: with leaves skipped or cut short only when nothing belongs to them |
| DropWalk.Dropper.Sibling | dependencies/lmdb/libraries/liblmdb/mdb.c:6817-6872 | the next page of the level, if there is one |
| DropWalk.Dropper.ScanLeaf | dependencies/lmdb/libraries/liblmdb/mdb.c:10958-10983 | what belongs to a leaf is freed, also when the scan stops once md_overflow_pages is used up |
| DropWalk.LeftOk | dependencies/lmdb/libraries/liblmdb/mdb.c:10950-10955 | from the left edge, the pages to the right are the rest of the level |
| DropWalk.OwnedByRow | dependencies/lmdb/libraries/liblmdb/mdb.c:10985-10994 | what belongs to a row of branch pages is the next row and what belongs to that |
| DropWalk.NoOversAll | dependencies/lmdb/libraries/liblmdb/mdb.c:10979-10983 | leaves without overflow pages own nothing |
| CopyLeaks.CopyTellsLost | dependencies/lmdb/libraries/liblmdb/mdb.c:10419-10456 | after a commit with a main database that is not empty, the copy finds the root it computes if and only if no page is lost |
| CopyLeaks.DropThenCopy | dependencies/lmdb/libraries/liblmdb/mdb.c:10930-11026 | right after the main database was emptied the copy succeeds with no page, also when pages of databases recorded in it were lost |
| CopyLeaks.SubsLost | dependencies/lmdb/libraries/liblmdb/mdb.c:10977 | a database with one recorded in it, of which emptying leaves a page in use |
| TextCodec.PutText | dependencies/lmdb/libraries/liblmdb/mdb_dump.c:58-77 | the line for a value in printable form |
| TextCodec.PutBytes | dependencies/lmdb/libraries/liblmdb/mdb_dump.c:79-90 | the line for a value in hexadecimal |
| TextCodec.UnhexHex | dependencies/lmdb/libraries/liblmdb/mdb_load.c:161-173 | the two digits of a byte give the byte back, all 256 |
| TextCodec.NibbleIsValue | dependencies/lmdb/libraries/liblmdb/mdb_load.c:161-173 | digits of either case have their value |
| TextCodec.TextRoundTrip | dependencies/lmdb/libraries/liblmdb/mdb_dump.c:58-77 | decoding the printable form returns every byte string, for every notion of printable |
| TextCodec.HexRoundTrip | dependencies/lmdb/libraries/liblmdb/mdb_dump.c:79-90 | decoding the hexadecimal form returns every byte string |
| TextCodec.TextExactly | dependencies/lmdb/libraries/liblmdb/mdb_load.c:235-253 | a line in printable form is accepted exactly when it is made of plain characters, doubled backslashes and backslashes with two digits, and stands for their bytes |
| TextCodec.HexExactly | dependencies/lmdb/libraries/liblmdb/mdb_load.c:254-270 | a line in hexadecimal is accepted exactly when it has an even number of characters, all digits |
| TextCodec.LineIsPlain | dependencies/lmdb/libraries/liblmdb/mdb_dump.c:52-90 | a line has no newline inside and no NUL if these are not printable |
| LoadLines.Reader.DecodeText | dependencies/lmdb/libraries/liblmdb/mdb_load.c:235-253 | decodes in place, the write index never past the read index; fails exactly on a malformed escape |
| LoadLines.Reader.DecodeHex | dependencies/lmdb/libraries/liblmdb/mdb_load.c:254-270 | decodes in place; fails exactly on an odd length or a non-digit |
| LoadLines.Reader.ReadWhole | dependencies/lmdb/libraries/liblmdb/mdb_load.c:200-229 | the buffer doubles until the line fits: any length is read |
| LoadLines.Reader.ReadLine | dependencies/lmdb/libraries/liblmdb/mdb_load.c:175-276 | for every input without NUL, with a header or without: what `WholeLine` and `LastLine` say of it, the value, the end of the data, or an error, and what is left of the input |
| DumpLoad.Dump | dependencies/lmdb/libraries/liblmdb/mdb_dump.c:134-147 | the lines of all pairs and the end line |
| DumpLoad.Load | dependencies/lmdb/libraries/liblmdb/mdb_load.c:420-430 | the pairs at the start of the input, and why it stopped |
| DumpLoad.LineRead | dependencies/lmdb/libraries/liblmdb/mdb_load.c:175-276 | a line that was written is read back and nothing after it is touched |
| DumpLoad.WholeLine | dependencies/lmdb/libraries/liblmdb/mdb_load.c:175-276 | a line up to its newline: without a header it is decoded as it is; with one, without its leading space, and a line without one ends the data if it starts with DATA=END and is an error otherwise |
| DumpLoad.LastLine | dependencies/lmdb/libraries/liblmdb/mdb_load.c:181-229 | an input without a newline is no line: nothing, the end of the data, or an error |
| DumpLoad.BareRead | dependencies/lmdb/libraries/liblmdb/mdb_load.c:181-229 | without a header a value is read back from its line, whatever that starts with, and nothing after it is touched |
| DumpLoad.LoadDump | dependencies/lmdb/libraries/liblmdb/mdb_load.c:420-430 | loading a dump gives back all pairs, in order, whatever follows |
| DumpLoad.LoadBare | dependencies/lmdb/libraries/liblmdb/mdb_load.c:420-431 | lines without leading spaces or end line are loaded as all their pairs, in order, up to the end of the input |
| DumpHeader.PutHeader | dependencies/lmdb/libraries/liblmdb/mdb_dump.c:109-129 | writes the lines that `HeaderRoundTrip` shows to be read back as the same format, name and flags |
| DumpHeader.ReadHeader | dependencies/lmdb/libraries/liblmdb/mdb_load.c:64-150 | gathers what `FlagLine` says of one line over all lines, up to the end of the header, with the errors and what is left of the input |
| DumpHeader.FlagLine | dependencies/lmdb/libraries/liblmdb/mdb_load.c:131-138 | a flag line sets that flag only: no name is taken for another, or for another keyword |
| DumpHeader.LineRefused | dependencies/lmdb/libraries/liblmdb/mdb_load.c:70-103 | a newer version, and a format or a type that is none of those known, are refused, and no others |
| DumpHeader.NoKeyword | dependencies/lmdb/libraries/liblmdb/mdb_load.c:138-147 | a line without an equals sign is refused |
| DumpHeader.RefusedStops | dependencies/lmdb/libraries/liblmdb/mdb_load.c:64-150 | one refused line, and the header is |
| DumpHeader.HeaderRoundTrip | dependencies/lmdb/libraries/liblmdb/mdb_load.c:64-150 | a header read back gives the format, the name and exactly the flags of the table; PRINT stays set from an earlier header |
| DropWalk.NothingLeft | dependencies/lmdb/libraries/liblmdb/mdb.c:10930-11026 | without looking for databases in it, all pages below a database are freed if and only if no database with pages is recorded in it |

## Left out

- MvccTheorems.RunInv: runs in which a process joins with a stale id are excluded; `JoinExact`, `StaleCommitLost` and `StaleJoinHappens` say what these do.
- MvccJoin.StaleCommitLost: the first commit after the join; what later ones do to each other is left out.
- MvccJoin.JoinHealed: readers that load the stale id before it is replaced are excluded, as are transactions that begin with it.
- MvccSafety.WriteStep: a page write replaces the whole page; torn pages are not modelled.
- TxnPages.Txn.Alloc: the lists are values here; `PageLists` has the same operations on arrays. Paranoid builds, which read fewer records, are left out.
- TxnPages.Txn.Touch: only where the page numbers go; the copy and the link to it are in `TouchPath`.
- TouchPath.Writer.Touch: the branch for pages that were spilled is `SpillLists.Unspill`; the copy a nested transaction makes of its parent's dirty page, which keeps its number, and touching the record of a named database are left out.
- CommitSafety.RunTransaction: the steps of the transaction follow each other; those of readers between them change neither memory nor the writer, and the theorems over runs hold for every interleaving. All scans of the reader table give one result (`scan`). A failed transaction is aborted; its reasons are in `WriteTxn`.
- CommitSafety.TransactionRuns: as for `RunTransaction`.
- FreelistSave.FreelistSave: which updates of the freeDB's tree a write is (`script`) is arbitrary but finite, and the records are kept beside the tree, not read back from its leaves; the last loop, which overwrites records of the same size, is taken to change no page. The freed list is sorted as a value.
- CommitPages.WriteTxn: databases opened in the main database stand beside it as trees of their own; writing their records into it at commit is left out.
- PageLists.IdList.MergeTop: the loose pages are written to the top of the array already in order; the source sorts them there.
- BTreeDb.Db.Put: pages are values under a path, without page numbers; `NumberedDb.PutKey` has the numbers, `SlottedPage` the update in place of one page. Appending with MDB_APPEND, MDB_RESERVE and MDB_MULTIPLE are left out.
- NumberedPlace.Place: overflow pages are taken before the pages of the splits, in the source after the first of them; which numbers they get differs, not how many there are.
- NumberedDb.PutKey: pages are values with numbers; MDB_NOOVERWRITE is in `Db.Put`; the counters in the database record and touching that record are left out.
- BTreeDb.Db.Overwrite: whether the overflow pages are dirty is an argument; the bytes are replaced as a value.
- BTreeFull.FullReached: a run in which a delete fails is not shown, only when one does.
- BTreeDb.Db.Del: the cursor position afterwards is not modelled; which page is freed is in `NumberedPlace.Rebalance`.
- BTreeSearch.Search: the depth is not limited to the 32 levels of a cursor stack.
- BTreeCursor.Cursor.Next: MDB_PREV, MDB_LAST and the other positioning operations mirror it and are left out.
- TrackedCursors.AfterSplit: two levels, a parent with room and its children; splits that go further up and new roots are left out, as are cursors into sub-pages.
- TrackedCursors.AfterMove: two levels, as for splits.
- TrackedCursors.AfterMerge: two levels, as for splits.
- SlottedPage.Slotted.NodeAdd: the pointers are an array of their own beside the bytes of the nodes; mp_lower and mp_upper tie both to one page.
- SpillLists.PageSpill: which pages are flagged P_LOOSE or P_KEEP is an argument; writing the pages and the second pass over cursor pages are left out.
- SpillLists.Flush: which pages are kept is an argument; writing them is left out.
- NestedCommit.Commit: loose pages, whose list is appended, and database records are left out.
- NestedCommit.RoomKept: mt_dirty_room is exact for one level of nesting and a bound for more.
- CompactCopy.Copier.Walk: duplicate databases, whose leaves need no scan, are walked like others; the two write buffers are one file.
- DropWalk.Dropper.Drop: takes md_overflow_pages to be right, which the tree keeps true; resetting the database record afterwards is left out.
- LoadLines.Reader.ReadLine: inputs with NUL are excluded, because the source measures lines with strlen; running out of memory is left out.
- DumpLoad.Load: inputs with NUL are excluded, as for lines.
- DumpHeader.ReadHeader: lines are whole, the source reads at most 4095 characters of each; numbers stay text and a predicate says whether sscanf would take them.
- Keys.CmpCint: little-endian machines and even sizes, which is what integer keys have.
- Duplicates (DUPSORT, DUPFIXED, sub-pages, LEAF2), which would need a second tree inside every leaf.
- MDB_WRITEMAP, MDB_NOSYNC, MDB_PREVSNAPSHOT, MDB_FIXEDMAP and MDB_NOLOCK, which change the assumptions above.
- The operating system layer: mapping, batched writes, locks, semaphores, file names.
- The JavaScript binding in `src/`, which forwards calls to the engine.
- Statistics, debug output, environment copy without compaction, command line parsing.
