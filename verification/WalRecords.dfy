/** Log records of the write-ahead log: their kinds, their fields, the two
    constructors the engine uses and the classification tests that redo and undo
    rely on (recovery/wal_records.h). */
module WalRecords {

  /** 0 means "no record". */
  type Lsn = nat
  type TxnId = nat
  type Byte = b: int | 0 <= b < 256
  type Image = seq<Byte>

  const PAGE_SIZE := 8192

  datatype PageId = PageId(relation: nat, pageNo: nat)

  /** A page as the recovery code sees it: its bytes without the LSN field, and
      the LSN field. */
  datatype Page = Page(content: Image, lsn: Lsn)

  datatype TxnState = Active | Waiting | Aborting | Committed | Aborted

  /** The nine page changes that logging, redo and undo treat alike. */
  datatype PageOp =
    | HeapInsert | HeapDelete | HeapUpdate
    | BtreeInsert | BtreeDelete | BtreePageSplit | BtreeRebalance | BtreeMerge | BtreeMetaUpdate

  datatype RecordType =
    | Invalid | Begin | Commit | Abort
    | PageUpdate(op: PageOp)
    | BeginCheckpoint | EndCheckpoint
    | Clr

  datatype CheckpointTxn = CheckpointTxn(txn: TxnId, state: TxnState, lastLsn: Lsn)
  datatype DirtyPage = DirtyPage(page: PageId, recLsn: Lsn)

  datatype LogRecord = LogRecord(
    kind: RecordType,
    txn: TxnId,
    prevLsn: Lsn,
    undoNextLsn: Lsn,
    hasPage: bool,
    page: PageId,
    before: Image,
    after: Image,
    activeTxns: seq<CheckpointTxn>,
    dirtyPages: seq<DirtyPage>)

  const NO_PAGE := PageId(0, 0)

  predicate IsUndoablePageRecord(kind: RecordType) {
    kind.PageUpdate?
  }

  predicate IsPageUpdateRecord(kind: RecordType) {
    IsUndoablePageRecord(kind) || kind.Clr?
  }

  predicate IsTxnEndRecord(kind: RecordType) {
    kind.Commit? || kind.Abort?
  }

  predicate IsCheckpointRecord(kind: RecordType) {
    kind.BeginCheckpoint? || kind.EndCheckpoint?
  }

  function MakeTxnRecord(kind: RecordType, txn: TxnId, prevLsn: Lsn): LogRecord {
    LogRecord(kind, txn, prevLsn, 0, false, NO_PAGE, [], [], [], [])
  }

  function MakePageImageLogRecord(kind: RecordType, txn: TxnId, prevLsn: Lsn, page: PageId, before: Image,
                                  after: Image): LogRecord {
    LogRecord(kind, txn, prevLsn, 0, true, page, before, after, [], [])
  }

  function MakeClrPageUndoRecord(txn: TxnId, prevLsn: Lsn, undoNextLsn: Lsn, page: PageId,
                                 redoImage: Image): LogRecord {
    LogRecord(Clr, txn, prevLsn, undoNextLsn, true, page, [], redoImage, [], [])
  }

  function MakeEndCheckpoint(beginLsn: Lsn, txns: seq<CheckpointTxn>, pages: seq<DirtyPage>): LogRecord {
    LogRecord(EndCheckpoint, 0, beginLsn, 0, false, NO_PAGE, [], [], txns, pages)
  }
}
