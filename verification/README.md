# GraniteDB in Dafny

A model of GraniteDB's five protocols and proofs of what they are for. The code that
changes state is modelled as classes and loops, each tied to a function or a predicate on
values; the theorems are about those.

| files | what they model |
|---|---|
| `WalRecords`, `History`, `HistoryProofs` | log records, the logs that can arise, and what a page must hold after a crash |
| `Analysis`, `UndoPass`, `Recovery` | restart recovery, when Analysis is right, what Undo appends, and the crash theorem |
| `Engine`, `CheckpointRace` | transactions, logged changes, rollback, log flushes, fuzzy checkpoints; what a commit that overlaps a checkpoint does |
| `WalCodec`, `WalFile`, `FlushOffsets` | bytes of the log file, torn-tail repair, what a flush reaches; the engine's record numbers as byte offsets |
| `LockModes`, `LockQueue`, `LockManager`, `Deadlock` | multi-granularity and key-range locks, upgrades, the waits-for graph and victims |
| `Database` | lock manager and engine together: locking supplies the page exclusivity recovery needs |
| `BTreeNodes`, `BTreeShape`, `BTreePages`, `BTree` | the single-column B+ tree with insert, delete and search |
| `BTreeFixUp`, `BTreeLateFailure` | the fix-up after a delete: what it does, when it fails, and what a failing one may leave |
| `BufferPool`, `PageRetire` | the page cache with its clock, and epoch reclamation |
| `MergeJoin`, `PlanPaths`, `PlanOrder`, `MergePaths` | merge join, access paths, the orders and rows of whole plans |

## How to read it

Log sequence numbers are positions: the record at index i has LSN i + 1. `WalFile.StartsGrow`
shows that the byte offsets the program uses are positive and grow the same way, so every
comparison of LSNs means the same, and `FlushOffsets.FlushRefines` that a flush does.

A log is legal whatever its checkpoints list. What the lists must satisfy is a separate
condition, `Analysis.Harmless`: Analysis is right if and only if it holds, and the engine's
checkpoints establish it.

Transaction ids start again at 1 when the engine is opened
(concurrency/transaction_manager.h:29), so a COMMIT belongs to an update only if no BEGIN of
that id lies between them.

In the B+ tree a *row* lists the nodes of one level from left to right. The slots of a node are
its children with the key bounding each from above. The slots of a row are exactly the nodes of
the next row with their high keys; this one equation carries separator bounds, high key = next
separator, equal leaf depth and order. Borrowing and merging, for leaves and internal nodes
alike, are cuts of one merged node.

A waiting upgrader's request carries the mode it held before, which the program keeps only in
the transaction's lock map. Each step of a lock call runs under the lock manager's latch: the
entry, and one `Retry` for every wake-up.

## Where the program falls short of its promise

- A checkpoint may list a transaction whose COMMIT is already appended. If that COMMIT lies
  before BEGIN_CHECKPOINT, Analysis hands the committed transaction to Undo:
  `CheckpointRace.CaughtCommitIsLost` is such a log, and recovery writes the old bytes over the
  committed ones. If it lies behind, the list does no harm (`CheckpointRace.LateCommitSurvives`).
  `CheckpointRace.CaughtEndExact` is the exact condition for such a list,
  `Analysis.AnalysisExact` the one for all lists. `Engine` makes Begin, Commit, Abort and each
  logged change atomic with respect to the steps of a checkpoint, and runs one checkpoint at a
  time, which keeps the harmful lists out.
- The dirty page list has the same gap: a page changed before BEGIN_CHECKPOINT is missing in it if
  its writer unpins it only afterwards. `CheckpointRace.MissedPageIsLost` is a legal log that loses
  a committed update so, `Recovery.RedoExact` the exact condition.
- `FlushUpTo` takes the first record after opening for durable
  (recovery/log_manager.cpp:168-170, 209). `WalFile.LogManager.FlushUpTo` states exactly when
  the record is durable afterwards. The running engine is safe because its first record is a
  BEGIN or a BEGIN_CHECKPOINT (`Engine.WriteAhead`). Recovery is not: its first record may be a
  CLR whose page reaches the disk first, or an ABORT that stays volatile. That does no harm,
  because recovery after a crash appends the same record again
  (`UndoPass.RecoveryIsRestartable`).
- The deadlock worker repeats forever, holding the latch, when its victim is already aborting
  or unknown (concurrency/lock_manager_deadlock.cpp:119-151): `Deadlock.StalledState` is such a
  state. `Deadlock.PassEndsExactly` says when a pass ends for every choice of victims.
- A delete throws when the fix-up meets a page for which no neighbour can lend and the merge does
  not fit: `BTreeFixUp.DeleteFails` is the exact condition on the pages before the call. It then
  unpins the page it stands at as clean after it was rewritten
  (access/btree_delete_entry.cpp:318, 349, 450, 483, 504). `BufferPool.BufferPool.UnpinPage`
  states when a change is left unsaved by that, and `BufferPool.BufferPool.PrepareFrame` that
  eviction then drops it. `BTree.BTree.Delete`: what is left is a tree, the one before the call,
  if and only if the fix-up failed at the leaf. Above the leaf the page is a parent whose
  separator comes back, and no well-formed tree hangs from the root any more.
  `BTreeLateFailure.FailsLate` is a tree in which that happens.
- An index nested-loop join applies only the residual predicates of its inner path
  (optimizer/physical_path.h:361-364), so predicates that path had left to an index are lost:
  `PlanOrder.IndexLoopLeaks` is an example, `PlanOrder.IndexLoopExact` the exact condition on
  the data, and `PlanOrder.SafePlanExact` the one the planner could check.
- The order test refuses an order that names a column twice although the rows have it
  (`PlanOrder.RepeatedColumn`); without repeated columns it is exact (`PlanOrder.SatisfiesExact`).

## Model

| member | source | states |
|---|---|---|
| Recovery.RecoveryManager.Recover | recovery/recovery_manager.cpp:304-311 | Crash theorem: from every crash state (any legal log, any harmless checkpoint lists, any page versions the flush rule allows, also one page ahead of the log) each page ends, on disk, with the bytes of the last update whose transaction committed in that log, or its initial bytes; the log gains exactly the records of Undone, no transaction is left open, and a crash right afterwards leaves a crash state again |
| Recovery.RecoveryManager.constructor | recovery/log_manager.cpp:160-171 | Opening: everything found is durable and the persistent LSN is the end of the log |
| Recovery.RecoveryManager.FlushFrame | buffer/buffer_pool_manager.cpp:24-36 | Writing a page back at any moment of recovery keeps what a restart relies on |
| Recovery.RecoveryManager.FlushAllPages | buffer/buffer_pool_manager.cpp:133-138 | Afterwards the disk has every page |
| Recovery.RecoveryManager.ApplyImage | recovery/recovery_manager.cpp:38-57 | The page changes, and whatever page its fetch evicts, a restart stays possible |
| Recovery.RecoveryManager.Analysis | recovery/recovery_manager.cpp:59-144 | The record loop computes exactly the transaction table and dirty page table of the records from the master checkpoint on |
| Recovery.RecoveryManager.AnalyzeEndCheckpoint | recovery/recovery_manager.cpp:117-136 | Merging a checkpoint's two lists keeps end states, takes the larger last LSN and the smaller recovery LSN |
| Recovery.RecoveryManager.RedoStart | recovery/recovery_manager.cpp:183-187 | The least recovery LSN of the dirty page table |
| Recovery.RecoveryManager.Redo | recovery/recovery_manager.cpp:146-200 | The loop, which starts at the least recovery LSN, leaves what applying in order every record that passes the redo test leaves |
| Recovery.RecoveryManager.InitialHeap | recovery/recovery_manager.cpp:247-252 | The heap starts with the last record of exactly the losers |
| Recovery.RecoveryManager.UndoItem | recovery/recovery_manager.cpp:254-299 | One popped item appends, pushes and notes in the table exactly what TurnRecords, TurnHeap and TurnTable say; every pushed LSN lies below the popped one |
| Recovery.RecoveryManager.UndoOrWalk | recovery/recovery_manager.cpp:270-298 | A page change gets its CLR, any other record is walked over, and the item's next place still meets exactly the updates left to undo |
| Recovery.RecoveryManager.UndoUpdate | recovery/recovery_manager.cpp:284-292 | Compensating one update keeps every page as the log with the new CLR leaves it; what is left to undo lies below, or nothing is |
| Recovery.RecoveryManager.UndoRecord | recovery/recovery_manager.cpp:217-229 | The CLR links to the transaction's last record and restores the before image under its own LSN |
| Recovery.RecoveryManager.Finish | recovery/recovery_manager.cpp:270-282 | A transaction whose updates are all compensated gets its ABORT record |
| Recovery.RecoveryManager.FinishAbortingTxn | recovery/recovery_manager.cpp:202-215 | ABORT is appended and flushed and the table entry ends; the record is durable unless it is the first one since opening |
| Recovery.RecoveryManager.Undo | recovery/recovery_manager.cpp:231-302 | Undo terminates, appends exactly the records of Undone, leaves no transaction open and every page on disk |
| Recovery.RedoRepeatsHistory | recovery/recovery_manager.cpp:146-200 | Redo from the tables of Analysis brings every page to its last logged write, although it starts at the checkpoint and skips pages and records; only a page that already shows the first CLR is left ahead |
| UndoPass.UndoKeepsCommitted | recovery/recovery_manager.cpp:217-302 | CLRs and ABORT records never change what a page must hold |
| UndoPass.QuiescentIsCommitted | recovery/recovery_manager.cpp:304-311 | Once no transaction is open, replaying the whole log gives exactly the committed bytes |
| UndoPass.UndoTurn | recovery/recovery_manager.cpp:254-299 | The popped item is determined by the heap, so a turn of the loop is a step of the function Undone and recovery is deterministic |
| UndoPass.AbortsNameBegin | recovery/recovery_manager.cpp:265-282 | From every crash state each ABORT record that recovery appends names the BEGIN record of its transaction |
| UndoPass.RecoveryIsRestartable | recovery/recovery_manager.cpp:217-302 | A crash at any moment of recovery, after any of its appends, flushes and evictions, leaves a crash state in which every page must hold the same bytes, also when the first CLR is on its page and not in the log |
| UndoPass.RecoveryFlushes | recovery/recovery_manager.cpp:202-215 | When recovery is done the persistent LSN names a durable record, or the first one behind them and that one changes no page; every page on disk is a version of a durable record |
| Analysis.AnalysisExact | recovery/recovery_manager.cpp:59-144 | For every legal log and every checkpoint in it Analysis finds exactly the open transactions, each with its last LSN, if and only if the lists do no harm: an open transaction is listed as running, never ahead of itself, and with its last LSN if it has no record from the checkpoint on; a closed one is not listed as running unless its end lies there too |
| Analysis.TableIs | recovery/recovery_manager.cpp:59-144 | The table entry of a transaction, read off the log without the table: its last record, its last BEGIN or end, and what the lists say since |
| Analysis.EndStateIs | recovery/recovery_manager.cpp:85-97 | A transaction whose last BEGIN, COMMIT or ABORT from the checkpoint on is a COMMIT is committed in the table, and aborted if it is an ABORT, whatever the checkpoints list |
| Analysis.HarmlessEnd | recovery/checkpoint_manager.cpp:17-43 | A list of right entries harms no restart from the checkpoint in force |
| Analysis.HarmlessNew | recovery/checkpoint_manager.cpp:17-43 | If it is complete as well, it harms no restart from its own checkpoint |
| Analysis.SnapshotIsOk | recovery/checkpoint_manager.cpp:17-33 | Whatever happens between reading the transaction table and appending END_CHECKPOINT, the list is right and complete |
| Analysis.AnalysisFindsDirty | recovery/recovery_manager.cpp:99-136 | In every crash state the dirty page table has every page whose last write is not on disk, from an LSN no later than that write |
| Analysis.DirtyExact | recovery/recovery_manager.cpp:99-136 | For every log and checkpoint a page is in the table in time for its last write if and only if that write lies at or behind the checkpoint or a checkpoint from there on lists the page in time |
| Recovery.RedoExact | recovery/recovery_manager.cpp:146-200 | For every legal log, disk and checkpoint redo brings a page to its last logged write if and only if that write is on disk already, lies at or behind the checkpoint, or is listed in time |
| HistoryProofs.LegalLogInv | concurrency/transaction_manager.cpp:24-131 | In every legal history each page is settled at its committed bytes or has one owner whose oldest uncompensated update remembers them |
| HistoryProofs.OneClrPerUpdate | recovery/recovery_manager.cpp:217-229 | No legal log, including one grown by repeated recoveries, holds two CLRs for one update |
| HistoryProofs.ClrMatchesUpdate | recovery/wal_records.h:196-210 | Every CLR restores the before image of one earlier update of the same transaction and points to that update's predecessor |
| HistoryProofs.ChainDescends | recovery/recovery_manager.cpp:254-299 | The undo chain of a record is strictly descending |
| History.LastCommitted | recovery/recovery_manager.cpp:304-311 | The last update of a page by a committed incarnation of a transaction id, later ones being uncommitted |
| CheckpointRace.CaughtEndExact | recovery/recovery_manager.cpp:117-128 | Listing an ended transaction as running makes it a loser if and only if its end record lies before the checkpoint |
| CheckpointRace.CaughtCommitIsUndone | recovery/checkpoint_manager.cpp:17-33 | A COMMIT appended just before BEGIN_CHECKPOINT, with the transaction still in the table when it is read, is committed and yet a loser, and the undo walk meets its update |
| CheckpointRace.CaughtCommitIsLost | recovery/recovery_manager.cpp:217-302 | Recovery of that log restores the bytes before the committed update |
| CheckpointRace.LateCommitSurvives | recovery/recovery_manager.cpp:117-128 | With the COMMIT behind BEGIN_CHECKPOINT the same list does no harm |
| CheckpointRace.MissedPageIsLost | recovery/checkpoint_manager.cpp:17-43 | A legal log in which a page changed before BEGIN_CHECKPOINT is not listed: redo leaves it as it was before a committed update |
| Engine.Engine.constructor | recovery/log_manager.cpp:160-171 | Opening on recovered pages with the log manager as recovery left it; ids start again at 1 |
| Engine.Engine.FlushUpTo | recovery/log_manager.cpp:206-222 | Compared with the persistent LSN: afterwards the record is durable, unless it is the first one since opening, and that one changes no page |
| Engine.WriteAhead | recovery/log_manager.cpp:209-211 | In every run a page whose LSN the persistent LSN has reached is a version of a durable record, since the first record since opening changes no page |
| Engine.Engine.FlushFrame | buffer/buffer_pool_manager.cpp:24-36 | A dirty page reaches disk only after the record its LSN names |
| Engine.Engine.Begin | concurrency/transaction_manager.cpp:24-35 | A fresh id, a BEGIN record and an active entry |
| Engine.Engine.Commit | concurrency/transaction_manager.cpp:37-56 | True exactly when the transaction was not aborting, and then COMMIT is durable |
| Engine.Engine.LogAndApply | access/heap_file.cpp:101-118 | Log first, then the page with that LSN, then dirty with the least LSN |
| Engine.Engine.ChangePage | access/heap_file.cpp:205-251 | A logged change by the only writer of the page: before image, link and dirty entry |
| Engine.Engine.MarkAborting | concurrency/transaction.h:71-81 | The state changes and nothing else |
| Engine.Engine.RollbackStep | concurrency/transaction_manager.cpp:80-102 | One turn of the rollback loop: the next LSN is smaller and an update gets its CLR |
| Engine.Engine.RollbackTransaction | concurrency/transaction_manager.cpp:70-105 | Afterwards no update of the transaction is uncompensated and no page change was added |
| Engine.Engine.FlushAllPages | buffer/buffer_pool_manager.cpp:133-138 | Afterwards no page is dirty and the disk has every page |
| Engine.Engine.Abort | concurrency/transaction_manager.cpp:107-131 | Only CLRs and a durable ABORT are added, other transactions untouched |
| Engine.Engine.CheckpointBegin | recovery/checkpoint_manager.cpp:12-17 | BEGIN_CHECKPOINT is appended |
| Engine.Engine.CheckpointReadTxns | concurrency/transaction_manager.cpp:133-138 | The list has every open transaction with its state and last LSN, and nothing else |
| Engine.Engine.CheckpointReadPages | recovery/checkpoint_manager.cpp:20-40 | The list has each page whose last write is not on disk once, from the first write the disk lacks, and no other page |
| Engine.DirtyTableExact | buffer/buffer_pool_manager.cpp:104-123 | A page is in the dirty page table if and only if its last write is not on disk, and its recovery LSN is the first write the disk lacks |
| Engine.Engine.CheckpointEnd | recovery/checkpoint_manager.cpp:22-43 | END_CHECKPOINT carries both lists and is durable |
| Engine.Engine.CheckpointSetMaster | recovery/log_manager.cpp:311-323 | The master record names the finished checkpoint, and the log is flushed with it |
| Engine.QuietPageIsCommitted | concurrency/transaction_manager.cpp:70-131 | At any moment a page without uncompensated updates shows its committed bytes, so rollback and commit leave nothing else behind |
| Engine.CrashLeavesCrashState | buffer/buffer_pool_manager.cpp:24-36 | Whatever tail of the unflushed log reached the disk, a crash of a valid engine leaves a state recovery accepts |
| Engine.CrashAndRestart | recovery/recovery_manager.cpp:304-311 | Run, crash, recover, open: every page holds its committed bytes |
| LockModes.CombineIsLeastUpperBound | concurrency/lock_manager_helpers.cpp:16-40 | The combined mode excludes what either mode excludes, and is the weakest mode that does |
| LockModes.CompatibleSymmetric | concurrency/lock_manager_common.cpp:41-63 | Compatibility does not depend on who came first |
| LockModes.CompareKeyVectors | concurrency/lock_manager_helpers.cpp:42-51 | Refused exactly when the lengths differ; otherwise the loop computes the lexicographic comparison, zero exactly for equal keys |
| LockModes.SharedKeyOverlaps | concurrency/lock_manager_helpers.cpp:60-70 | Two ranges with a key in common are always reported as overlapping |
| LockModes.OverlapExact | concurrency/lock_manager_helpers.cpp:60-70 | Two ranges, neither empty, are reported as overlapping if and only if they have a point in common: a key, or the place next to a key, since there may be keys in between |
| LockQueue.CanGrantRequest | concurrency/lock_manager_common.cpp:119-164 | The two loops accept a request exactly when no request of the queue blocks it |
| LockQueue.HeldModesCompatible | concurrency/lock_manager_common.cpp:119-164 | Modes that stand on overlapping ranges are compatible, a waiting upgrader counted at its old mode |
| LockQueue.EnqueueOk | concurrency/lock_manager_acquire.cpp:23-25 | A request put at the end keeps the queue invariant |
| LockQueue.StartUpgradeOk | concurrency/lock_manager_acquire.cpp:27-34 | An upgrade in place, the only one of its queue, keeps its old mode protected by position |
| LockQueue.GrantOk | concurrency/lock_manager_acquire.cpp:53-58 | Granting what the test accepts keeps held modes compatible |
| LockQueue.RemoveOk | concurrency/lock_manager_release.cpp:10-40 | Taking a transaction's requests away keeps the invariant and removes nothing else |
| LockQueue.EraseRequests | concurrency/lock_manager_release.cpp:13-16 | The erase loop removes exactly those requests, in order |
| LockManager.LocksCompatible | concurrency/lock_manager_acquire.cpp:16-136 | In every state two transactions that are not aborting hold compatible modes on a table or record |
| LockManager.TableLockGuardsRecords | concurrency/lock_manager_acquire.cpp:16-136 | While one holds table S, SIX or X, no other that is not aborting holds a record X lock in the table |
| LockManager.NoPhantoms | concurrency/lock_manager_acquire.cpp:152-233 | A key in a range that stands for a mode is in no other transaction's X range |
| LockManager.GrantedXIsAlone | concurrency/lock_manager_common.cpp:119-140 | A standing table or record X excludes every other standing request, also of aborting transactions |
| LockManager.FindRequest | concurrency/lock_manager_common.cpp:65-117 | The first request of the transaction for the range |
| LockManager.LockManager.RegisterTransaction | concurrency/lock_manager_common.cpp:26-29 | A new active transaction without locks |
| LockManager.LockManager.UnregisterTransaction | concurrency/lock_manager_common.cpp:31-34 | It leaves the table, once it has no requests |
| LockManager.LockManager.TryMarkAborting | concurrency/transaction.h:71-81 | Marks unless the transaction has ended |
| LockManager.LockManager.SetEnded | concurrency/transaction.h:58-64 | The end state, with the invariant kept |
| LockManager.LockManager.Decide | concurrency/lock_manager_acquire.cpp:39-65 | One turn of the wait loop for the request filed: granted exactly when the test accepts, waiting behind a blocker otherwise, taken out when aborting, with the queue, lock map and state that go with it |
| LockManager.LockManager.FileRequest | concurrency/lock_manager_acquire.cpp:23-37 | A new request goes to the end, a held one is upgraded in place to the target mode, and it is refused, changing nothing but the mark, exactly when another transaction upgrades |
| LockManager.LockManager.LockTable | concurrency/lock_manager_acquire.cpp:10-65 | Held already changes nothing; refused when aborting or when its upgrade meets another one; otherwise the request for the join of held and asked mode is filed, and granted exactly when the filed request passes the test; no granted X is lost and other transactions are untouched |
| LockManager.LockManager.LockRecord | concurrency/lock_manager_acquire.cpp:67-137 | As LockTable; without the announcing table mode it is an error that changes nothing |
| LockManager.LockManager.LockKeyRange | concurrency/lock_manager_acquire.cpp:152-233 | For a running transaction: a range it holds in a covering mode is granted and nothing changes; otherwise granted exactly when the filed request passes the test, waiting when another request blocks the target mode, and refused only if it holds the range in another mode and another transaction upgrades on the queue |
| LockManager.LockManager.LockKey | concurrency/lock_manager_acquire.cpp:139-150 | The same for the closed range from the key to itself |
| LockManager.LockManager.Retry | concurrency/lock_manager_acquire.cpp:39-65 | A woken waiter decides on its own request as the test says: granted, waits on behind a blocker, or takes it out when aborting |
| LockManager.LockManager.RemoveUngranted | concurrency/lock_manager_release.cpp:10-40 | Exactly the ungranted requests of the transaction go, from all queues |
| LockManager.LockManager.ReleaseAll | concurrency/lock_manager_release.cpp:62-96 | Exactly the requests of the transaction go, its lock map is empty, others keep theirs |
| LockManager.RunningHasNoWait | concurrency/lock_manager_acquire.cpp:39-65 | A running transaction has no ungranted request anywhere |
| Deadlock.BuildWaitsForGraph | concurrency/lock_manager_deadlock.cpp:14-75 | The nodes are exactly the waiting transactions, the edges exactly who blocks whom |
| Deadlock.BlockersOf | concurrency/lock_manager_deadlock.cpp:23-44 | The two inner loops collect exactly the blocking transactions |
| Deadlock.AddQueue | concurrency/lock_manager_deadlock.cpp:18-47 | One queue adds exactly its waiters and edges |
| Deadlock.NoEdgeIffGrantable | concurrency/lock_manager_deadlock.cpp:14-75 | A waiter has no edge exactly when the grant test accepts its request |
| Deadlock.AcyclicMeansProgress | concurrency/lock_manager_deadlock.cpp:14-75 | Without a cycle every waiter reaches a grantable request or a transaction that is not waiting |
| Deadlock.CycleSearch.Dfs | concurrency/lock_manager_deadlock.cpp:83-111 | The search finishes a node after everything it reaches, or has found a victim |
| Deadlock.CycleSearch.Chosen | concurrency/lock_manager_deadlock.cpp:95-103 | The victim is the largest id on a real cycle |
| Deadlock.DetectCycleVictim | concurrency/lock_manager_deadlock.cpp:77-117 | A victim is returned exactly when the graph has a cycle, and is the largest id on one |
| Deadlock.AbortVictim | concurrency/lock_manager_deadlock.cpp:119-132 | A registered running victim is marked and exactly it stops waiting; any other victim changes nothing at all |
| Deadlock.ResolveDeadlocks | concurrency/lock_manager_deadlock.cpp:134-151 | Each round marks the largest id on a cycle and takes its waiting requests out, and a round is made while there is a cycle; every victim was on a cycle of the graph before the call, and without a cycle there is no victim and nothing changes |
| Deadlock.StalledState | concurrency/lock_manager_deadlock.cpp:119-151 | A deadlock within the lock manager's invariant whose only victim is already aborting: no round changes it |
| Deadlock.PassEndsExactly | concurrency/lock_manager_deadlock.cpp:119-151 | A pass ends for every choice of victims if and only if every transaction it may choose at the start can be aborted |
| Deadlock.VictimWasOne | concurrency/lock_manager_deadlock.cpp:119-151 | Victims only become fewer: whoever is the largest id of a cycle after an abort was one before, and is not the aborted one |
| Deadlock.OnCycleBefore | concurrency/lock_manager_deadlock.cpp:119-151 | Whoever is the largest id on a cycle after an abort was that before |
| Database.Database.WriteHeap | access/heap_file.cpp:204-251 | A change is logged exactly when table X and record X are granted, the table first; and then no other transaction has a change on the page that it has not released |
| Database.Database.LockForWrite | access/heap_file.cpp:205-206 | The table is asked for X, and once that is granted the record for X; refused or waiting changes no page and no log |
| Database.XExcludesChanges | access/heap_file.cpp:66-66 | While one transaction holds table X, nobody else has an unreleased change on a page of the table |
| Database.XMeansExclusive | access/heap_file.cpp:306-307 | Table X gives the page exclusivity recovery depends on |
| Database.OneChanger | access/heap_file.cpp:204-251 | No two transactions have unreleased changes on one page |
| Database.UnchangedIsCommitted | concurrency/transaction_manager.cpp:107-131 | A page nobody has an unreleased change on shows its committed bytes |
| Database.Database.LockForRead | access/heap_file.cpp:172-175 | The table is asked for IS, and once that is granted the record for S; whatever the reply, every change stays locked |
| Database.Database.Begin | concurrency/transaction_manager.cpp:24-35 | The transaction is known to log and lock manager alike |
| Database.Database.Commit | concurrency/transaction_manager.cpp:37-56 | Locks go only after COMMIT is durable |
| Database.Database.Release | concurrency/transaction_manager.cpp:50-52 | End state, release of every lock, unregistration; other transactions' changes stay locked |
| Database.Database.RollbackStep | concurrency/transaction_manager.cpp:80-102 | Compensation one step at a time keeps every change locked |
| Database.Database.Abort | concurrency/transaction_manager.cpp:107-131 | Rollback, durable ABORT and only then the locks; every page the transaction had changed shows its committed bytes |
| Database.Database.FlushFrame | buffer/buffer_pool_manager.cpp:24-36 | Writing a page back keeps the whole system's invariant |
| Database.Database.WakeUp | concurrency/lock_manager_acquire.cpp:39-65 | A woken lock call decides as Retry does and keeps every change locked |
| Database.Database.ResolveDeadlocks | concurrency/lock_manager_deadlock.cpp:134-151 | The pass of Deadlock.ResolveDeadlocks, with the victims marked in the engine as well; it never takes an X lock that protects a change |
| Database.Database.CheckpointStep | recovery/checkpoint_manager.cpp:7-45 | Any step of a checkpoint may come between any two other steps |
| Database.Database.CrashAndRestart | recovery/recovery_manager.cpp:304-311 | The crash theorem for locked heap tables, with page exclusivity proved and not assumed |
| BTreeNodes.SafeAbsorbs | access/btree_internal.h:23-45 | The safe test says exactly that one more entry fits |
| BTreeNodes.SafeLoses | access/btree_delete_entry.cpp:41-60 | The test for delete says exactly that the node has an entry and is not underfull with one less |
| BTreeNodes.LenderHasMore | access/btree_core.cpp:128-154 | A node that can lend has more entries than an underfull one, so the borrower fits |
| BTreeNodes.FaceIncreasing | access/btree_page.cpp:171-193 | Increasing separators over a row make its high keys increase |
| BTreeShape.ChildCovers | access/btree_page.cpp:221-231 | The child chosen for a key is the one node of the row below that covers it |
| BTreeShape.LeafSplit | access/btree_insert.cpp:297-323 | A split leaf leaves a tree in which only the parent's separator is missing |
| BTreeShape.ParentAbsorbs | access/btree_insert.cpp:366-376 | With the separator in the parent the whole tree is well formed again |
| BTreeShape.ParentSplits | access/btree_insert.cpp:378-410 | A parent that splits passes exactly one missing separator one row up |
| BTreeShape.NewRoot | access/btree_insert.cpp:326-350 | Above a split root a new root restores the tree, one level higher |
| BTreeShape.BorrowOk | access/btree_delete_entry.cpp:238-300 | Moving an entry between neighbours together with their separator keeps the tree, for leaves and internal nodes |
| BTreeShape.MergeOk | access/btree_delete_entry.cpp:302-364 | Merging neighbours and erasing their separator keeps the tree, for leaves and internal nodes |
| BTreeShape.BorrowRearranges | access/btree_delete_entry.cpp:365-430 | Borrowing is cutting the merged node elsewhere: children and entries stay, in order |
| BTreeShape.CollapseOk | access/btree_delete_entry.cpp:509-523 | A root with one child gives way to it, one level lower |
| BTree.FindChildForKey | access/btree_page.cpp:221-231 | The child between the neighbouring separators |
| BTree.FindChildPosition | access/btree_core.cpp:164-172 | The position of the page, or none if it is no child |
| BTree.BTree.constructor | access/btree_core.cpp:45-77 | An empty tree of one leaf on page 1 |
| BTree.BTree.Open | access/btree_core.cpp:84-89 | An index that exists already is taken as it is |
| BTree.BTree.MoveRight | access/btree_insert.cpp:183-200 | Right links lead to the node that covers the key |
| BTree.BTree.FindLeaf | access/btree_core.cpp:243-294 | Descent ends at the leaf that covers the key |
| BTree.BTree.Search | access/btree_core.cpp:335-395 | For distinct keys the result is the one row id stored under the key, or empty when there is none |
| BTree.ScanLeaf | access/btree_core.cpp:361-372 | One leaf's matches, stopping at the first larger key |
| BTree.BTree.Descend | access/btree_insert.cpp:219-243 | The latched path is the end of the way down; for an insert its first page is the root or can take one more entry, for a delete leaf and path are those of WayDown |
| BTree.BTree.Insert | access/btree_insert.cpp:167-410 | For a fresh key exactly that entry is added through any number of splits, the tree stays well formed, and a new root appears only above the split old root; it never fails to fit |
| BTree.BTree.RewriteLeaf | access/btree_insert.cpp:289-295 | New entries within the leaf's bounds keep the tree |
| BTree.BTree.SplitLeaf | access/btree_insert.cpp:297-323 | The right half goes to a new page and the separator up |
| BTree.BTree.Propagate | access/btree_insert.cpp:325-410 | The separator finds its place among the latched parents or in a new root |
| BTree.BTree.GiveToParent | access/btree_insert.cpp:353-410 | The parent absorbs the separator or hands one up |
| BTree.BTree.GrowRoot | access/btree_insert.cpp:326-350 | Only reached when the old root was split |
| BTree.BTree.Delete | access/btree_delete_entry.cpp:21-538 | False exactly when the (key, rid) is not stored; otherwise exactly it is gone and every invariant holds of the buffered pages. It throws exactly when DeleteFails says so of the pages before the call; then dropping the rewrite of the page it stood at leaves a tree if and only if it failed at the leaf, namely the tree before the call. If no node but the root was underfull and the entry was deleted, none is afterwards |
| BTree.BTree.Rebalance | access/btree_delete_entry.cpp:178-538 | The fix-up loop keeps the tree and its entries in the buffered pages, fails exactly when FixUpFails says so, and having fixed a level leaves a last rewrite whose loss leaves no tree |
| BTree.BTree.FixChild | access/btree_delete_entry.cpp:196-507 | Fails, changing nothing, if and only if no neighbour can lend and the merge with the left one, or without a left one the right one, does not fit or there is none; otherwise the pages are those of borrowing left, borrowing right, merging left, merging right, in this order |
| BTree.BTree.BorrowFromLeft | access/btree_delete_entry.cpp:239-271 | The left neighbour's last entry becomes the first of the right one, through the separator if they are internal, and every other page stays |
| BTree.BTree.BorrowFromRight | access/btree_delete_entry.cpp:273-300 | The right neighbour's first entry becomes the last of the left one, through the separator if they are internal, and every other page stays |
| BTree.BTree.MergePair | access/btree_delete_entry.cpp:302-364 | Merged if and only if the entries of both, and the separator between internal nodes, fit one page; the emptied page is retired with a redirect; refused without any change otherwise |
| BTreeFixUp.FixFills | access/btree_delete_entry.cpp:178-507 | Borrowing or merging fills a child that lacks one entry, leaves its neighbour full enough, and at most the parent lacks one then |
| BTreeFixUp.OutdatedNoTree | access/btree_delete_entry.cpp:439-507 | If a node of a tree is put back to one that names a retired child or a child bounded by another key, no well-formed tree hangs from the root |
| BTreeFixUp.SamePages | access/btree_core.cpp:243-294 | Two trees with one root that agree on the pages above a row have the same pages in that row |
| BTreeLateFailure.FailsLate | access/btree_delete_entry.cpp:178-507 | A tree in which deleting one key merges two leaves and then fails one level up |
| BTreeLateFailure.DeleteLeavesNoTree | access/btree_delete_entry.cpp:178-507 | That delete run: it fails, and dropping its last rewrite leaves no tree |
| BTree.BTree.CollapseRoot | access/btree_delete_entry.cpp:509-523 | The child becomes the root and the height drops by one |
| BTree.MatchesExact | access/btree_core.cpp:335-395 | What a search result means when keys are distinct |
| BTree.StoredSorted | access/btree_core.cpp:335-395 | From left to right the leaves hold all entries in key order |
| BTree.SortedInsertKeeps | access/btree_insert.cpp:273-281 | Insert-and-sort adds one entry to the bag and keeps strict order |
| BTree.RemoveEntryCount | access/btree_delete_entry.cpp:122-131 | Erasing takes one entry out of the bag |
| BufferPool.Clock.Victim | buffer/clock_replacer.cpp:14-39 | No frame is found exactly when all frames are valid and pinned; otherwise it is the frame of least usage among the unpinned ones, a free frame counting as zero, and of those the one the hand meets first, which moves on behind it |
| BufferPool.AllBusy | buffer/clock_replacer.cpp:17-36 | A full sweep without a victim means every frame is in use |
| BufferPool.BufferPool.FetchPage | buffer/buffer_pool_manager.cpp:52-71 | On a hit the page has one more pin, on a miss exactly one, and no other page that stays cached changes its pins; the frame holds the page as it is; null exactly when the page does not exist or every frame is in use; no page changes but one with an unsaved change, which may fall back to the disk's bytes |
| BufferPool.BufferPool.NewPage | buffer/buffer_pool_manager.cpp:73-86 | A zero page with one pin; other pins stay, and no other page changes but one with an unsaved change |
| BufferPool.BufferPool.UnpinPage | buffer/buffer_pool_manager.cpp:104-123 | One pin less, all others as before; a dirty unpin records the least recovery LSN; a change is unsaved afterwards if and only if its last pin is given back as clean and the frame is not dirty |
| BufferPool.BufferPool.Modify | buffer/buffer_pool_manager.cpp:104-123 | A pin holder changes its page and no other page and no pin |
| BufferPool.BufferPool.PrepareFrame | buffer/buffer_pool_manager.cpp:38-50 | Eviction changes no page, except that an unsaved change of the evicted page is dropped; the pins of all pages that stay, the page table and the dirty page table are exact |
| BufferPool.BufferPool.FlushFrame | buffer/buffer_pool_manager.cpp:24-36 | Write back after the log, then clean; every disk page LSN stays below the flushed log |
| BufferPool.BufferPool.DeletePage | buffer/buffer_pool_manager.cpp:88-102 | Refused while pinned, otherwise exactly that page is gone |
| BufferPool.BufferPool.FlushPage | buffer/buffer_pool_manager.cpp:125-131 | The disk has the page, unless someone is changing it |
| BufferPool.BufferPool.FlushAllPages | buffer/buffer_pool_manager.cpp:133-138 | The dirty page table is empty and the disk has every page nobody is changing |
| WalCodec.RecordRoundTrip | recovery/wal_records.h:75-177 | Reading back a written record gives the record |
| WalCodec.LogRecordRoundTrip | recovery/wal_records.h:14-31 | A log record, its type and the states in its list as codes, is read back as the same record under the same LSN |
| WalCodec.CodesInOrder | recovery/wal_records.h:14-31 | The codes of record types and transaction states follow their declarations, and 13 is BEGIN_CHECKPOINT |
| WalCodec.Layout | recovery/wal_records.h:75-109 | Every field of a written record stands at its offset with its width, lowest byte first: page id at 34 if there is one, before image, after image, transactions of 17 bytes, pages of 16 bytes |
| WalCodec.DeserializeLogRecordPayload | recovery/wal_records.h:143-177 | The reader accepts exactly the payloads with all fields present |
| WalCodec.PayloadReader.ReadPod | recovery/wal_records.h:113-122 | A little-endian integer, or underflow at the end |
| WalCodec.PayloadReader.ReadBytes | recovery/wal_records.h:124-135 | A length-prefixed vector within bounds |
| WalFile.TornTail | recovery/log_manager.cpp:23-93 | For any appended records and any cut the scan ends exactly after the last complete record and returns exactly the complete records |
| WalFile.CompleteExactly | recovery/log_manager.cpp:45-91 | The records counted fit before the cut and one more does not |
| WalFile.RepairIsIdempotent | recovery/log_manager.cpp:95-156 | Repairing any file twice is repairing it once |
| WalFile.RepairedIsClean | recovery/log_manager.cpp:112-156 | After the repair the file is whole records behind a master record that is zero or names a BEGIN_CHECKPOINT |
| WalFile.ScanWalFile | recovery/log_manager.cpp:23-93 | The loop computes the valid end and the type of every record |
| WalFile.EnsureWalInitializedAndTrimmed | recovery/log_manager.cpp:95-156 | Create, trim and repair the master record |
| WalFile.StartsGrow | recovery/log_manager.cpp:181-204 | LSNs are positive and grow along the log |
| WalFile.LogManager.constructor | recovery/log_manager.cpp:160-171 | The persistent LSN is the end of the repaired file |
| WalFile.LogManager.AppendRecord | recovery/log_manager.cpp:181-204 | The LSN is the offset the record starts at |
| WalFile.LogManager.FlushUpTo | recovery/log_manager.cpp:206-222 | The record is durable afterwards if and only if it is not the first one since opening or something behind it was flushed |
| FlushOffsets.FlushRefines | recovery/log_manager.cpp:206-222 | A flush on the engine's record numbers is the same flush on the byte offsets of those records |
| FlushOffsets.CutIsCrashState | recovery/log_manager.cpp:23-93 | Wherever a crash cuts the log file at or behind the durable bytes, the records the scan finds are at least the durable ones and, with disk and master record, a state recovery accepts |
| WalFile.FirstRecordIsNotFlushed | recovery/log_manager.cpp:168-209 | The first record after opening is not durable after its flush |
| PageRetire.PageRetireManager.Register | concurrency/page_retire_manager.cpp:38-41 | Registration under an epoch that may be old by now |
| PageRetire.PageRetireManager.ExitEpoch | concurrency/page_retire_manager.cpp:43-51 | The list loses exactly the accepted pages whose epoch every operation still registered has passed; with none left everything accepted is reclaimed |
| PageRetire.PageRetireManager.RetirePage | concurrency/page_retire_manager.cpp:53-58 | A page retired while operations are registered stays until each of them has exited; exactly the free and accepted pages go |
| PageRetire.PageRetireManager.Drain | concurrency/page_retire_manager.cpp:60-64 | As ExitEpoch, after advancing the epoch |
| PageRetire.PageRetireManager.ComputeSafeEpoch | concurrency/page_retire_manager.cpp:66-75 | Below every active epoch, or the global epoch when there is none |
| PageRetire.PageRetireManager.TryReclaim | concurrency/page_retire_manager.cpp:77-91 | Exactly the free and accepted pages leave the list, in order, also while younger operations are registered |
| PageRetire.KeptExactly | concurrency/page_retire_manager.cpp:77-91 | A page goes if and only if it is accepted and every registered operation has a newer epoch |
| MergeJoin.RunMergeJoin | execution/operators_join.cpp:398-465 | On sorted inputs exactly the sequence of the nested-loop join, all duplicate groups included |
| MergeJoin.RunNestedLoop | execution/operators_join.cpp:29-48 | The reference: for each left tuple its matches in right order |
| MergeJoin.MergeJoin.Next | execution/operators_join.cpp:410-465 | Each call returns the next tuple of that sequence |
| MergeJoin.MergeJoin.Compare | execution/operators_join.cpp:416-435 | Skipped tuples have no partner left |
| MergeJoin.MergeJoin.Emit | execution/operators_join.cpp:437-448 | The next match of the current left tuple |
| MergeJoin.MergeJoin.Advance | execution/operators_join.cpp:450-462 | An equal left key starts again at the mark, any other one goes on behind the group |
| MergeJoin.NestedLoopJoin.Next | execution/operators_join.cpp:29-48 | Each call returns the next tuple of the join |
| PlanPaths.SplitPredicates | optimizer/plan_enumerator.cpp:265-317 | The equality prefix is the longest one: each of its predicates is the first unused equality on its key column; the next column has no equality left, and its bounds are the first ones or none exactly when there are none; the residual is what is left over, in order; no predicate is used twice |
| PlanPaths.PickFor | optimizer/plan_enumerator.cpp:273-287 | The first free equality on the column, or none if there is none, and then the first free lower and upper bound |
| PlanPaths.UnusedInOrder | optimizer/plan_enumerator.cpp:311-313 | The residual is exactly the predicates not given to the index, in the order they came |
| PlanPaths.AccessPathKeepsRows | optimizer/physical_path.h:218-279 | For every index over all rows the path yields the bag of rows that pass all predicates |
| PlanPaths.InScanMeans | optimizer/physical_path.h:228-272 | The scan applies exactly the predicates given to the index |
| PlanOrder.SatisfiesOrder | optimizer/physical_path.h:135-153 | The loop with its moving position decides whether the claimed order gives the required one |
| PlanOrder.SatisfiesExact | optimizer/physical_path.h:135-153 | If neither order names a column twice the test says yes if and only if every two rows in the claimed order that agree on the fixed columns are in the required order |
| PlanOrder.RepeatedColumn | optimizer/physical_path.h:135-153 | A required order that names a column twice is refused although the rows have it |
| PlanOrder.FindFixed | optimizer/physical_path.h:473-480 | The search finds a fixed column |
| PlanOrder.OrderClaimsAreSound | optimizer/physical_path.h:135-153 | For every path tree: if the test says yes the rows are lexicographically sorted as required |
| PlanOrder.PathKeepsClaims | optimizer/plan_enumerator.cpp:391-394 | Every path produces rows in its recorded order with its fixed prefix constant |
| PlanOrder.ScanClaims | optimizer/plan_enumerator.cpp:325-328 | An index scan is in key order and its equality prefix is constant |
| PlanOrder.MergeInputsSorted | optimizer/plan_enumerator.cpp:414-429 | Both inputs of every merge join are sorted by their join columns |
| PlanOrder.MergeKeepsRows | optimizer/physical_path.h:318-341 | A merge join with its sorts yields the bag of the nested-loop join |
| PlanOrder.IndexLoopExact | optimizer/physical_path.h:343-366 | An index nested-loop join yields the rows its inner path stands for if and only if no inner row that meets a left row passes the residual filter and fails the predicates left to the index |
| PlanOrder.SafePlanExact | optimizer/physical_path.h:361-364 | An inner path is right on all data if and only if its residual filter implies what it left to the index |
| PlanOrder.EmptyResidual | optimizer/physical_path.h:361-364 | With an empty residual filter that is so exactly when nothing was left to the index |
| PlanOrder.IndexLoopLeaks | optimizer/physical_path.h:361-364 | A concrete inner row that comes through although its predicate fails |
| PlanOrder.PathKeepsRows | optimizer/physical_path.h:218-366 | Every path tree without a leaking index loop yields the bag of rows of sequential scans, filters and nested loops |
| MergePaths.MergePathRuns | execution/operators_join.cpp:398-465 | The merge join operator gets sorted inputs under every merge path, and its output is exactly the path's rows in order |
| MergePaths.JoinsAgree | execution/operators_join.cpp:29-48 | The join of tuples and the join of rows are the same |

## Left out

- BTree.BTree.Insert: a page that cannot be allocated in the middle of a split, which throws, is not modelled; requires a key that is not stored; with duplicates across a split the descent goes right on equality and search would miss entries, so nothing is claimed for them.
- BTreeNodes.SafeAbsorbs: keys have one size, as for fixed-width types; variable-length keys are not modelled, and a record insert succeeds exactly while the used bytes fit.
- Engine.Engine.Abort: two calls for one transaction at the same time, which both roll back when both find it aborting, are not modelled.
- Database.Database.WriteHeap: a record is locked before its page changes, as in update and delete; an insert changes the page bytes first, since only then the record has an id (access/heap_file.cpp:90-98), so a refused lock, which throws, leaves the page changed, unlogged, latched and pinned.
- Database.Database.Commit: the caller is not inside a blocked lock call of the same transaction, and waiting for a concurrent abort to finish is not modelled.
- LockManager.LockManager.LockTable: the caller's transaction is registered and active or aborting, and waits for one request at a time.
- LockManager.LockManager.LockRecord: lock escalation, which is a LockTable call of the same transaction afterwards, is left to the caller.
- LockManager.LockManager.LockKeyRange: as LockTable; key vectors of one index have one length, and different lengths, which make the comparison throw, are not modelled there.
- LockManager.LockManager.LockKey: as LockManager.LockManager.LockKeyRange.
- LockManager.LockManager.UnregisterTransaction: only for a transaction without requests, as its two callers leave it.
- LockManager.LockManager.SetEnded: only the two end states, the ones the transaction manager sets.
- Deadlock.ResolveDeadlocks: requires that every victim the search may choose can be aborted, exactly the condition under which the loop ends.
- Database.Database.ResolveDeadlocks: requires the same.
- MergeJoin.RunMergeJoin: join keys are integers and not NULL.
- PlanOrder.MergeKeepsRows: what SortExecutor delivers is a sorted permutation by assumption; what a hash join emits is a permutation of its matches by assumption and it claims no order.
- Files, fsync and stream buffering, including the second stream through which rollback reads the log: durable bytes are a prefix.
- Thread scheduling, condition variables and page latches: steps are atomic, and no wake-up is promised.
- Readers that follow redirects of retired B+ tree pages, and the recursive insert and delete that no entry point calls.
- The multi-column index, except as rows in key order within bounds.
- Page exclusivity of index pages: index changes are not under a table lock, so the theorem about locks is for heap pages.
- Slotted pages, tuple encoding, free space map, catalog, statistics and costs, SQL front end: plumbing around these protocols.
- Hash join and hash aggregation: they depend on a text encoding of keys.
