/** What a commit or a page change that overlaps a checkpoint does to restart. CreateCheckpoint
    appends BEGIN_CHECKPOINT and reads the transaction table afterwards, while Commit appends
    COMMIT and leaves that table only at the end (recovery/checkpoint_manager.cpp,
    concurrency/transaction_manager.cpp). A transaction that sits between the two is listed
    although it has committed. That is harmless exactly when its COMMIT lies at or behind the
    checkpoint, where Analysis looks. A page changed before BEGIN_CHECKPOINT is missing in the
    list if its writer unpins it later. */
module CheckpointRace {
  import opened WalRecords
  import opened History
  import opened HistoryProofs
  import opened Analysis
  import opened UndoPass
  import opened Recovery

  /** A list that names one closed transaction as running, behind a log without such lists. */
  ghost predicate CatchesOne(log: seq<LogRecord>, r: LogRecord, master: Lsn, t: TxnId) {
    && r.kind.EndCheckpoint? && t !in Txns(log) && master <= |log|
    && ListedFor(r.activeTxns, t) != [] && AllRunning(ListedFor(r.activeTxns, t))
    && Listing(log, master, |log|, t) == []
  }

  /** Listing a transaction that has ended does no harm to restart from `master` if and only
      if its end record lies there. */
  lemma {:induction false} CaughtEndExact(log: seq<LogRecord>, init: map<PageId, Image>, r: LogRecord, master: Lsn,
                                          t: TxnId)
    requires LegalLog(log + [r], init) && CatchesOne(log, r, master, t)
    ensures IsLoser(TxnTable(log + [r], master, |log| + 1), t) <==> OwnLast(log, master, |log|, t) == 0
  {
    hide LegalLog, Txns, ListedFor, AllRunning, Listing, EndedSince, OwnLast, TxnTable;
    var ext, n := log + [r], |log|;
    assert ext[..n] == log && ext[..n + 1] == ext;
    EndListing(log, r, master, t);
    assert [] + ListedFor(r.activeTxns, t) == ListedFor(r.activeTxns, t);
    LegalPrefix(ext, init, n);
    OwnFacts(log, init, master, n, t);
    assert log[..n] == log;
    NoInvalid(ext, init);
    TableIs(ext, master, n + 1, t);
  }

  /** The log of a commit that a checkpoint caught between its COMMIT record and its end. */
  function CaughtCommit(p: PageId, before: Image, after: Image): seq<LogRecord> {
    [MakeTxnRecord(RecordType.Begin, 1, 0),
     MakePageImageLogRecord(PageUpdate(HeapUpdate), 1, 1, p, before, after),
     MakeTxnRecord(RecordType.Commit, 1, 2),
     MakeTxnRecord(RecordType.BeginCheckpoint, 0, 0),
     MakeEndCheckpoint(4, [CheckpointTxn(1, Active, 3)], [])]
  }

  /** The update is committed, but Analysis from the checkpoint hands the transaction to Undo
      at its COMMIT record, and the walk back from there meets the update. */
  lemma {:induction false} CaughtCommitIsUndone(p: PageId, before: Image, after: Image)
    ensures var log := CaughtCommit(p, before, after);
            && WinnerUpdate(log, 1, p)
            && TxnTable(log, 4, |log|) == map[1 := TxnEntry(Active, 3)]
            && Chain(log, 3) == [2]
  {
    var log := CaughtCommit(p, before, after);
    assert log[2].kind.Commit? && log[2].txn == log[1].txn && NoBegin(log, 1, 1, 2);
    assert Winner(log, 1);
    assert TxnTable(log, 4, 3) == map[] && TxnTable(log, 4, 4) == map[];
    var listed := log[4].activeTxns;
    assert listed[..0] == [] && MergeTxns(map[], listed[..0]) == map[];
    assert TxnTable(log, 4, 5) == NoteSnapshot(map[], listed[0]);
    assert Chain(log, 0) == [] && Chain(log, 1) == [] && Chain(log, 2) == [2];
  }

  /** One turn of undo with a single loser. */
  lemma {:induction false} LoneTurn(records: seq<LogRecord>, n: nat, table: map<TxnId, TxnEntry>, it: HeapItem,
                                    bound: nat)
    requires it.txn in table && 1 <= it.lsn <= |records| && it.lsn < bound
    ensures var turn, next := TurnRecords(records, n, table, it), NextLsn(records[it.lsn - 1]);
            UndoRecords(records, n, table, {it}, bound) ==
            turn + UndoRecords(records, n + |turn|, TurnTable(records, n, table, it),
                               if next == 0 then {} else {HeapItem(next, it.txn)}, it.lsn)
  {
    hide TurnRecords, TurnTable, UndoRecords;
    TopTurn(records, n, table, {it}, bound, it);
    var next := NextLsn(records[it.lsn - 1]);
    assert TurnHeap(records, {it}, it) == if next == 0 then {} else {HeapItem(next, it.txn)};
  }

  /** Recovery puts the old bytes back over the committed ones. */
  lemma {:induction false} CaughtCommitIsLost(p: PageId, before: Image, after: Image)
    ensures Undone(CaughtCommit(p, before, after), 4) ==
            [MakeClrPageUndoRecord(1, 3, 1, p, before), MakeTxnRecord(RecordType.Abort, 1, 1)]
  {
    hide UndoRecords;
    var log := CaughtCommit(p, before, after);
    CaughtCommitIsUndone(p, before, after);
    var table := TxnTable(log, 4, 5);
    assert table == map[1 := TxnEntry(Active, 3)];
    hide TxnTable;
    forall it | it in FirstHeap(table) ensures it == HeapItem(3, 1) {}
    assert HeapItem(table[1].lastLsn, 1) in FirstHeap(table);
    assert FirstHeap(table) == {HeapItem(3, 1)};
    LoneTurn(log, 5, table, HeapItem(3, 1), 6);
    assert TurnRecords(log, 5, table, HeapItem(3, 1)) == [] && TurnTable(log, 5, table, HeapItem(3, 1)) == table;
    LoneTurn(log, 5, table, HeapItem(2, 1), 3);
    var table' := map[1 := TxnEntry(Active, 6)];
    assert TurnRecords(log, 5, table, HeapItem(2, 1)) == [MakeClrPageUndoRecord(1, 3, 1, p, before)];
    assert TurnTable(log, 5, table, HeapItem(2, 1)) == table';
    LoneTurn(log, 6, table', HeapItem(1, 1), 2);
    assert TurnRecords(log, 6, table', HeapItem(1, 1)) == [MakeTxnRecord(RecordType.Abort, 1, 1)];
    NothingToUndo(log, 7, TurnTable(log, 6, table', HeapItem(1, 1)), 1);
  }

  lemma {:induction false} NothingToUndo(records: seq<LogRecord>, n: nat, table: map<TxnId, TxnEntry>, bound: nat)
    ensures UndoRecords(records, n, table, {}, bound) == []
  {
  }

  /** The same commit, with its COMMIT behind BEGIN_CHECKPOINT. */
  function LateCommit(p: PageId, before: Image, after: Image): seq<LogRecord> {
    [MakeTxnRecord(RecordType.Begin, 1, 0),
     MakePageImageLogRecord(PageUpdate(HeapUpdate), 1, 1, p, before, after),
     MakeTxnRecord(RecordType.BeginCheckpoint, 0, 0),
     MakeTxnRecord(RecordType.Commit, 1, 2),
     MakeEndCheckpoint(3, [CheckpointTxn(1, Active, 2)], [])]
  }

  /** Here the list does no harm. */
  lemma {:induction false} LateCommitSurvives(p: PageId, before: Image, after: Image)
    ensures var log := LateCommit(p, before, after);
            WinnerUpdate(log, 1, p) && TxnTable(log, 3, |log|) == map[1 := TxnEntry(Committed, 4)]
  {
    var log := LateCommit(p, before, after);
    assert log[3].kind.Commit? && log[3].txn == log[1].txn && NoBegin(log, 1, 1, 3);
    assert Winner(log, 1);
    assert TxnTable(log, 3, 2) == map[] && TxnTable(log, 3, 3) == map[];
    assert TxnTable(log, 3, 4) == map[1 := TxnEntry(Committed, 4)];
    var listed := log[4].activeTxns;
    assert listed[..0] == [] && MergeTxns(TxnTable(log, 3, 4), listed[..0]) == TxnTable(log, 3, 4);
    assert TxnTable(log, 3, 5) == NoteSnapshot(TxnTable(log, 3, 4), listed[0]);
  }

  /** ---------- The dirty page list ---------- */

  /** A page changed before BEGIN_CHECKPOINT whose writer unpins it as dirty only after the
      dirty page table was read; then the writer commits. */
  function MissedPage(p: PageId, before: Image, after: Image): seq<LogRecord> {
    [MakeTxnRecord(RecordType.Begin, 1, 0),
     MakePageImageLogRecord(PageUpdate(HeapUpdate), 1, 1, p, before, after),
     MakeTxnRecord(RecordType.BeginCheckpoint, 0, 0),
     MakeEndCheckpoint(3, [CheckpointTxn(1, Active, 2)], []),
     MakeTxnRecord(RecordType.Commit, 1, 2)]
  }

  lemma {:induction false} MissedPageIsLegal(p: PageId, before: Image, after: Image)
    requires |before| == |after| == PAGE_SIZE
    ensures LegalLog(MissedPage(p, before, after), map[p := before])
  {
    var log, init := MissedPage(p, before, after), map[p := before];
    hide LegalLog;
    assert LegalLog([], init) by { EmptyIsLegal(init); }
    assert [] + [log[0]] == log[..1] && log[..1] + [log[1]] == log[..2] && log[..2] + [log[2]] == log[..3];
    assert log[..3] + [log[3]] == log[..4] && log[..4] + [log[4]] == log;
    TxnsSnoc([], log[0]);
    TxnsSnoc(log[..1], log[1]);
    TxnsSnoc(log[..2], log[2]);
    TxnsSnoc(log[..3], log[3]);
    hide Txns;
    HistorySnoc([], init, log[0]);
    HistorySnoc(log[..1], init, log[1]);
    HistorySnoc(log[..2], init, log[2]);
    HistorySnoc(log[..3], init, log[3]);
    HistorySnoc(log[..4], init, log[4]);
  }

  lemma EmptyIsLegal(init: map<PageId, Image>)
    ensures LegalLog([], init) && Txns([]) == map[]
  {
  }

  /** Redo leaves the page as it was before the committed update. */
  lemma {:induction false} MissedPageIsLost(p: PageId, before: Image, after: Image)
    requires |before| == |after| == PAGE_SIZE
    ensures LegalLog(MissedPage(p, before, after), map[p := before])
    ensures var log, disk := MissedPage(p, before, after), map[p := Page(before, 0)];
            && CommittedImage(log, map[p := before], p) == after
            && RedoAll(log, DirtyTable(log, 3, |log|), disk, |log|) == disk
  {
    MissedPageIsLegal(p, before, after);
    hide LegalLog;
    var log, disk := MissedPage(p, before, after), map[p := Page(before, 0)];
    assert log[4].kind.Commit? && log[4].txn == log[1].txn && NoBegin(log, 1, 1, 4);
    assert Winner(log, 1);
    assert WinnerUpdate(log, 1, p);
    assert LastCommitted(log, p, |log|) == 2;
    assert DirtyTable(log, 3, 2) == map[] && DirtyTable(log, 3, 3) == map[];
    assert DirtyTable(log, 3, 4) == MergeDirty(map[], []) == map[];
    assert DirtyTable(log, 3, |log|) == map[];
    RedoNothing(log, disk, |log|);
  }
}
