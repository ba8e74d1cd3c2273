/** Restart recovery: Analysis, Redo and Undo over the durable log, proved to leave
    every page with its committed bytes. */
module Recovery {
  import opened WalRecords
  import opened History
  import opened HistoryProofs
  import opened Analysis
  import opened UndoPass

  /** ---------- Redo as a function ---------- */

  predicate ShouldRedo(r: LogRecord, lsn: Lsn, dirty: map<PageId, Lsn>, pages: map<PageId, Page>) {
    && IsPageUpdateRecord(r.kind) && r.hasPage && r.after != []
    && r.page in dirty && lsn >= dirty[r.page]
    && r.page in pages && pages[r.page].lsn < lsn
  }

  /** The pages after redo has seen the first n records. */
  function RedoAll(log: seq<LogRecord>, dirty: map<PageId, Lsn>, pages: map<PageId, Page>, n: nat): map<PageId, Page>
    requires n <= |log|
  {
    if n == 0 then pages
    else
      var before := RedoAll(log, dirty, pages, n - 1);
      if ShouldRedo(log[n - 1], n, dirty, before) then before[log[n - 1].page := Page(log[n - 1].after, n)] else before
  }

  /** The page is as the last record that writes it says. */
  ghost predicate IsCurrent(log: seq<LogRecord>, init: map<PageId, Image>, p: PageId, page: Page)
    requires p in init
  {
    page == Page(Value(log, init, p), LastWrite(log, p))
  }

  ghost predicate Current(log: seq<LogRecord>, init: map<PageId, Image>, pages: map<PageId, Page>) {
    pages.Keys == init.Keys && forall p :: p in pages ==> IsCurrent(log, init, p, pages[p])
  }

  /** Every page is current, or already as the record `ahead` will leave it. */
  ghost predicate CurrentBut(log: seq<LogRecord>, init: map<PageId, Image>, pages: map<PageId, Page>,
                             ahead: seq<LogRecord>) {
    && pages.Keys == init.Keys
    && forall p :: p in pages ==> IsCurrent(log, init, p, pages[p]) || IsAhead(log, p, pages[p], ahead)
  }

  ghost predicate IsAhead(log: seq<LogRecord>, p: PageId, page: Page, ahead: seq<LogRecord>) {
    ahead != [] && WritesPage(ahead[0], p) && page == Page(ahead[0].after, |log| + 1)
  }

  lemma {:induction false} RedoVersions(log: seq<LogRecord>, ext: seq<LogRecord>, init: map<PageId, Image>,
                                        dirty: map<PageId, Lsn>, disk: map<PageId, Page>, n: nat)
    requires n <= |log| && log <= ext && AreVersions(ext, init, disk)
    ensures AreVersions(ext, init, RedoAll(log, dirty, disk, n))
    ensures forall p :: p in disk ==> disk[p].lsn <= RedoAll(log, dirty, disk, n)[p].lsn
  {
    if n > 0 {
      RedoVersions(log, ext, init, dirty, disk, n - 1);
      var r, before := log[n - 1], RedoAll(log, dirty, disk, n - 1);
      assert ext[n - 1] == r;
      if ShouldRedo(r, n, dirty, before) { assert IsVersion(ext, init, r.page, Page(r.after, n)); }
    }
  }

  /** A record the dirty page table asks for is on its page once redo is past it. */
  lemma {:induction false} RedoReaches(log: seq<LogRecord>, ext: seq<LogRecord>, init: map<PageId, Image>,
                                       dirty: map<PageId, Lsn>, disk: map<PageId, Page>, n: nat, p: PageId, l: Lsn)
    requires 1 <= l <= n <= |log| && log <= ext && AreVersions(ext, init, disk) && PageRecordsOk(log, init)
    requires p in disk && WritesPage(log[l - 1], p) && DirtyBy(dirty, p, l)
    ensures p in RedoAll(log, dirty, disk, n) && RedoAll(log, dirty, disk, n)[p].lsn >= l
  {
    RedoVersions(log, ext, init, dirty, disk, n);
    RedoVersions(log, ext, init, dirty, disk, n - 1);
    if l < n { RedoReaches(log, ext, init, dirty, disk, n - 1, p, l); }
  }

  /** Redo repeats history: it brings every page to its last logged state, but for the one
      that may already show the record undo starts with. */
  lemma {:induction false} RedoRepeatsHistory(log: seq<LogRecord>, init: map<PageId, Image>, disk: map<PageId, Page>,
                                              master: Lsn)
    requires CrashState(log, init, disk, master)
    ensures CurrentBut(log, init, RedoAll(log, DirtyTable(log, master, |log|), disk, |log|), FirstUndone(log, master))
  {
    hide LegalLog, Harmless, FirstUndone, IsCurrent, IsAhead, MasterOk;
    var dirty, ahead := DirtyTable(log, master, |log|), FirstUndone(log, master);
    var pages := RedoAll(log, dirty, disk, |log|);
    RedoVersions(log, log + ahead, init, dirty, disk, |log|);
    LegalRecords(log, init);
    forall p | p in pages ensures IsCurrent(log, init, p, pages[p]) || IsAhead(log, p, pages[p], ahead) {
      PageRedone(log, ahead, init, disk, master, p);
    }
  }

  lemma {:induction false} PageRedone(log: seq<LogRecord>, ahead: seq<LogRecord>, init: map<PageId, Image>,
                                      disk: map<PageId, Page>, master: Lsn, p: PageId)
    requires |ahead| <= 1 && AreVersions(log + ahead, init, disk) && PageRecordsOk(log, init)
    requires MasterOk(log, disk, master) && p in disk
    ensures var pages := RedoAll(log, DirtyTable(log, master, |log|), disk, |log|);
            p in pages && p in init && (IsCurrent(log, init, p, pages[p]) || IsAhead(log, p, pages[p], ahead))
  {
    hide IsCurrent, IsAhead, MasterOk, DirtyTable, RedoAll, LastWrite;
    var dirty, l := DirtyTable(log, master, |log|), LastWrite(log, p);
    RedoVersions(log, log + ahead, init, dirty, disk, |log|);
    if l > disk[p].lsn {
      AnalysisFindsDirty(log, init, disk, master, p);
      RedoReaches(log, log + ahead, init, dirty, disk, |log|, p, l);
    }
    VersionIsLast(log, ahead, init, p, RedoAll(log, dirty, disk, |log|)[p]);
  }

  /** A last write that the dirty page table does not ask for stays off its page. */
  lemma {:induction false} RedoMisses(log: seq<LogRecord>, dirty: map<PageId, Lsn>, disk: map<PageId, Page>, n: nat,
                                      p: PageId)
    requires n <= |log| && p in disk && disk[p].lsn < LastWrite(log, p) && !DirtyBy(dirty, p, LastWrite(log, p))
    ensures p in RedoAll(log, dirty, disk, n) && RedoAll(log, dirty, disk, n)[p].lsn < LastWrite(log, p)
  {
    if n > 0 { RedoMisses(log, dirty, disk, n - 1, p); }
  }

  /** Redo brings a page to its last logged write if and only if that write is on disk already,
      lies at or behind the checkpoint, or is listed in time by a checkpoint from there on. */
  lemma {:induction false} RedoExact(log: seq<LogRecord>, init: map<PageId, Image>, disk: map<PageId, Page>,
                                     master: Lsn, p: PageId)
    requires LegalLog(log, init) && AreVersions(log, init, disk) && p in disk
    ensures var pages, l := RedoAll(log, DirtyTable(log, master, |log|), disk, |log|), LastWrite(log, p);
            p in pages && p in init
            && (IsCurrent(log, init, p, pages[p]) <==>
                l <= disk[p].lsn || l >= master || ListedDirty(log, master, |log|, p, l))
  {
    hide LegalLog, DirtyTable, RedoAll;
    var dirty, l := DirtyTable(log, master, |log|), LastWrite(log, p);
    RedoVersions(log, log, init, dirty, disk, |log|);
    LegalRecords(log, init);
    assert log + [] == log;
    VersionIsLastIf(log, init, p, RedoAll(log, dirty, disk, |log|)[p]);
    if l > disk[p].lsn {
      DirtyExact(log, master, p);
      if DirtyBy(dirty, p, l) {
        RedoReaches(log, log, init, dirty, disk, |log|, p, l);
      } else {
        RedoMisses(log, dirty, disk, |log|, p);
      }
    }
  }

  lemma {:induction false} VersionIsLastIf(log: seq<LogRecord>, init: map<PageId, Image>, p: PageId, page: Page)
    requires p in init && IsVersion(log, init, p, page)
    ensures IsCurrent(log, init, p, page) <==> page.lsn >= LastWrite(log, p)
  {
  }

  lemma {:induction false} VersionIsLast(log: seq<LogRecord>, ahead: seq<LogRecord>, init: map<PageId, Image>,
                                         p: PageId, page: Page)
    requires p in init && |ahead| <= 1 && IsVersion(log + ahead, init, p, page) && page.lsn >= LastWrite(log, p)
    ensures IsCurrent(log, init, p, page) || IsAhead(log, p, page, ahead)
  {
    if 0 < page.lsn <= |log| { assert (log + ahead)[page.lsn - 1] == log[page.lsn - 1]; }
  }

  /** The record that may be ahead on its page arrives in the log. */
  lemma {:induction false} CurrentNext(log: seq<LogRecord>, init: map<PageId, Image>, pages: map<PageId, Page>,
                                       ahead: seq<LogRecord>, r: LogRecord)
    requires CurrentBut(log, init, pages, ahead) && (ahead == [] || ahead == [r])
    requires WritesPage(r, r.page) ==> r.page in pages
    ensures Current(log + [r], init, if WritesPage(r, r.page) then pages[r.page := Page(r.after, |log| + 1)] else pages)
  {
    forall p | p in pages
      ensures Value(log + [r], init, p) == if WritesPage(r, p) then r.after else Value(log, init, p)
      ensures LastWrite(log + [r], p) == if WritesPage(r, p) then |log| + 1 else LastWrite(log, p)
    {
      ValueSnoc(log, init, r, p);
      LastWriteSnoc(log, r, p);
    }
  }

  lemma {:induction false} CurrentSnoc(log: seq<LogRecord>, init: map<PageId, Image>, pages: map<PageId, Page>,
                                       r: LogRecord)
    requires Current(log, init, pages)
    requires WritesPage(r, r.page) ==> r.page in pages
    ensures Current(log + [r], init, if WritesPage(r, r.page) then pages[r.page := Page(r.after, |log| + 1)] else pages)
  {
    hide Value, LastWrite;
    CurrentNext(log, init, pages, [], r);
  }

  lemma {:induction false} UndoIsLegal(log: seq<LogRecord>, init: map<PageId, Image>, pages: map<PageId, Page>,
                                       ahead: seq<LogRecord>, l: Lsn, t: TxnId, clr: LogRecord)
    requires LegalLog(log, init) && CurrentBut(log, init, pages, ahead) && (ahead == [] || ahead == [clr])
    requires 1 <= l <= |log| && t in Txns(log) && Txns(log)[t].todo != [] && Txns(log)[t].todo[0] == l
    requires clr == MakeClrPageUndoRecord(t, Txns(log)[t].last, log[l - 1].prevLsn, log[l - 1].page, log[l - 1].before)
    ensures clr.page in pages && |clr.after| == PAGE_SIZE
    ensures LegalLog(log + [clr], init)
    ensures Current(log + [clr], init, pages[clr.page := Page(clr.after, |log| + 1)])
  {
    hide Chain, Value, LastWrite;
    assert log[l - 1].hasPage && log[l - 1].page in init && |log[l - 1].before| == PAGE_SIZE by {
      LegalLogInv(log, init);
      TodoHead(Txns(log), log, init, t);
    }
    HistorySnoc(log, init, clr);
    CurrentNext(log, init, pages, ahead, clr);
  }

  lemma {:induction false} RedoNothing(log: seq<LogRecord>, pages: map<PageId, Page>, n: nat)
    requires n <= |log|
    ensures RedoAll(log, map[], pages, n) == pages
  {
    if n > 0 { RedoNothing(log, pages, n - 1); }
  }

  /** The next record of undo is the one that may be ahead. */
  lemma {:induction false} AheadIsNext(log: seq<LogRecord>, found: seq<LogRecord>, master: Lsn, r: LogRecord)
    requires log + [r] <= found + Undone(found, master) && found <= log
    ensures Ahead(log, found, master) == [] || Ahead(log, found, master) == [r]
    ensures Ahead(log + [r], found, master) == []
  {
    var total := found + Undone(found, master);
    assert (log + [r])[|log|] == r == total[|log|];
  }

  ghost function Ahead(log: seq<LogRecord>, found: seq<LogRecord>, master: Lsn): (ahead: seq<LogRecord>)
  {
    if |log| == |found| then FirstUndone(found, master) else []
  }

  lemma {:induction false} ClrOk(s: Restart, found: seq<LogRecord>, init: map<PageId, Image>, master: Lsn, r: LogRecord)
    requires Restarting(found, s, init, master) && r.kind.Clr? && s.log + [r] <= found + Undone(found, master)
    requires LegalLog(s.log + [r], init) && r.hasPage && r.page in s.pages
    ensures Restarting(found, s.(log := s.log + [r]), init, master)
    ensures IsVersion(found + Undone(found, master), init, r.page, Page(r.after, |s.log| + 1))
    ensures s.pages[r.page].lsn <= |s.log| + 1
  {
    hide LegalLog, Harmless, MasterOk, IsVersion, Undone;
    var total := found + Undone(found, master);
    assert (s.log + [r])[|s.log|] == r == total[|s.log|];
    GuardClr(s, total, init, |found|, master, r);
    assert FrameOk(s, total, init, r.page);
    NextVersion(total, init, |s.log|);
  }

  lemma {:induction false} NextVersion(log: seq<LogRecord>, init: map<PageId, Image>, i: nat)
    requires i < |log| && WritesPage(log[i], log[i].page) && log[i].page in init
    ensures IsVersion(log, init, log[i].page, Page(log[i].after, i + 1))
  {
  }

  lemma {:induction false} FinishOk(s: Restart, found: seq<LogRecord>, init: map<PageId, Image>, master: Lsn,
                                    r: LogRecord)
    requires Restarting(found, s, init, master) && r.kind.Abort? && s.log + [r] <= found + Undone(found, master)
    requires LegalLog(s.log + [r], init)
    ensures Restarting(found, FlushedTo(s.(log := s.log + [r]), |s.log| + 1), init, master)
  {
    hide LegalLog, Harmless, MasterOk, FramesOk, Undone;
    GuardAbort(s, found + Undone(found, master), init, |found|, master, r);
  }

  /** ---------- The recovery manager ---------- */

  class RecoveryManager {
    var log: seq<LogRecord>          // the log manager's records
    var durable: nat                 // how many of them the file surely holds
    var persistent: Lsn              // the log manager's persistent LSN
    const master: Lsn                // its master checkpoint record
    var pages: map<PageId, Page>     // the pages as the buffer pool shows them
    var disk: map<PageId, Page>
    var dirty: set<PageId>
    var txnTable: map<TxnId, TxnEntry>
    var dirtyPageTable: map<PageId, Lsn>
    ghost const found: seq<LogRecord>
    ghost const init: map<PageId, Image>

    ghost function Now(): Restart
      reads this
    {
      Restart(log, durable, persistent, pages, disk, dirty)
    }

    ghost function Total(): seq<LogRecord> { found + Undone(found, master) }

    ghost predicate Valid()
      reads this
    {
      Restarting(found, Now(), init, master)
    }

    /** Every page is current, but for the one that may show the record undo starts with. */
    ghost predicate PagesCurrent()
      reads this
    {
      CurrentBut(log, init, pages, Ahead(log, found, master))
    }

    /** The log file ends behind its last whole record, and so does the persistent LSN. */
    constructor (log: seq<LogRecord>, master: Lsn, disk: map<PageId, Page>, ghost init: map<PageId, Image>)
      requires CrashState(log, init, disk, master)
      ensures Valid() && found == log && this.init == init && this.master == master
      ensures Now() == Restart(log, |log|, |log| + 1, disk, disk, {})
    {
      this.log, durable, persistent, this.master := log, |log|, |log| + 1, master;
      pages, this.disk, dirty := disk, disk, {};
      txnTable, dirtyPageTable := map[], map[];
      found, this.init := log, init;
      new;
      GuardOpen(log, init, disk, master);
    }

    /** ---------- Log manager and buffer pool ---------- */

    method FlushUpTo(lsn: Lsn)
      modifies this`durable, this`persistent
      ensures Now() == FlushedTo(old(Now()), lsn)
    {
      if lsn <= persistent { return; }
      durable, persistent := |log|, Min(lsn, |log| + 1);
    }

    /** A dirty page goes to disk once FlushUpTo has returned for its LSN. */
    method FlushFrame(p: PageId)
      requires Valid() && p in pages
      modifies this`durable, this`persistent, this`disk, this`dirty
      ensures Valid() && dirty == old(dirty) - {p}
    {
      hide LegalLog, UndoExtends, Harmless, LogGrows, MasterOk;
      assert FrameOk(Now(), Total(), init, p);
      if p !in dirty { return; }
      GuardFlush(Now(), Total(), init, |found|, master, pages[p].lsn);
      FlushUpTo(pages[p].lsn);
      GuardWriteBack(Now(), Total(), init, |found|, master, p);
      disk, dirty := disk[p := pages[p]], dirty - {p};
    }

    /** Bringing a page in may write another one back. */
    method FetchPage(p: PageId)
      requires Valid() && p in pages
      modifies this`durable, this`persistent, this`disk, this`dirty
      ensures Valid()
    {
      hide Restarting;
      var victim: PageId := *;
      if victim in pages && victim != p { FlushFrame(victim); }
    }

    method FlushAllPages()
      requires Valid()
      modifies this`durable, this`persistent, this`disk, this`dirty
      ensures Valid() && disk == pages
    {
      hide Restarting;
      var todo := pages.Keys;
      while todo != {}
        invariant Valid() && todo <= pages.Keys && forall p :: p in pages && p in dirty ==> p in todo
      {
        var p :| p in todo;
        todo := todo - {p};
        FlushFrame(p);
      }
      AllClean(Now(), found, init, master);
    }

    method AppendRecord(r: LogRecord) returns (lsn: Lsn)
      modifies this`log
      ensures log == old(log) + [r] && lsn == |log|
    {
      log := log + [r];
      lsn := |log|;
    }

    method ApplyImage(p: PageId, image: Image, lsn: Lsn)
      requires Valid() && p in pages && |image| == PAGE_SIZE
      requires IsVersion(Total(), init, p, Page(image, lsn)) && pages[p].lsn <= lsn <= |log|
      modifies this`durable, this`persistent, this`disk, this`dirty, this`pages
      ensures Valid() && pages == old(pages)[p := Page(image, lsn)]
    {
      hide Guarded, LegalLog, UndoExtends, Harmless, IsVersion, Undone;
      FetchPage(p);
      GuardApply(Now(), Total(), init, |found|, master, p, Page(image, lsn));
      pages, dirty := pages[p := Page(image, lsn)], dirty + {p};
    }

    /** ---------- The three passes ---------- */

    method AnalyzeEndCheckpoint(rec: LogRecord)
      modifies this`txnTable, this`dirtyPageTable
      ensures txnTable == MergeTxns(old(txnTable), rec.activeTxns)
      ensures dirtyPageTable == MergeDirty(old(dirtyPageTable), rec.dirtyPages)
    {
      var xs, ds := rec.activeTxns, rec.dirtyPages;
      for i := 0 to |xs|
        invariant txnTable == MergeTxns(old(txnTable), xs[..i])
        invariant dirtyPageTable == old(dirtyPageTable)
      {
        var entry := EntryOf(txnTable, xs[i].txn);
        if !IsTxnEndState(entry.state) { entry := entry.(state := xs[i].state); }
        entry := entry.(lastLsn := Max(entry.lastLsn, xs[i].lastLsn));
        txnTable := txnTable[xs[i].txn := entry];
        assert xs[..i + 1][..i] == xs[..i];
      }
      assert xs[..|xs|] == xs;
      for i := 0 to |ds|
        invariant txnTable == MergeTxns(old(txnTable), xs)
        invariant dirtyPageTable == MergeDirty(old(dirtyPageTable), ds[..i])
      {
        if ds[i].page !in dirtyPageTable {
          dirtyPageTable := dirtyPageTable[ds[i].page := ds[i].recLsn];
        } else {
          dirtyPageTable := dirtyPageTable[ds[i].page := Min(dirtyPageTable[ds[i].page], ds[i].recLsn)];
        }
        assert ds[..i + 1][..i] == ds[..i];
      }
      assert ds[..|ds|] == ds;
    }

    method Analysis()
      modifies this`txnTable, this`dirtyPageTable
      ensures txnTable == TxnTable(log, master, |log|)
      ensures dirtyPageTable == DirtyTable(log, master, |log|)
    {
      txnTable, dirtyPageTable := map[], map[];
      for i := 0 to |log|
        invariant txnTable == TxnTable(log, master, i)
        invariant dirtyPageTable == DirtyTable(log, master, i)
      {
        var rec, lsn := log[i], i + 1;
        if master != 0 && lsn < master {
          continue;
        }
        match rec.kind
        case Begin => txnTable := txnTable[rec.txn := TxnEntry(Active, lsn)];
        case Commit => txnTable := txnTable[rec.txn := TxnEntry(Committed, lsn)];
        case Abort => txnTable := txnTable[rec.txn := TxnEntry(Aborted, lsn)];
        case EndCheckpoint => AnalyzeEndCheckpoint(rec);
        case BeginCheckpoint =>
        case Invalid =>
        case _ =>
          var entry := EntryOf(txnTable, rec.txn);
          if !IsTxnEndState(entry.state) { entry := entry.(state := Active); }
          entry := entry.(lastLsn := Max(entry.lastLsn, lsn));
          txnTable := txnTable[rec.txn := entry];
          if rec.hasPage {
            if rec.page !in dirtyPageTable {
              dirtyPageTable := dirtyPageTable[rec.page := lsn];
            } else {
              dirtyPageTable := dirtyPageTable[rec.page := Min(dirtyPageTable[rec.page], lsn)];
            }
          }
      }
    }

    method RedoStart() returns (start: Lsn)
      requires dirtyPageTable != map[]
      ensures forall p :: p in dirtyPageTable ==> start <= dirtyPageTable[p]
      ensures exists p :: p in dirtyPageTable && start == dirtyPageTable[p]
    {
      var todo := dirtyPageTable.Keys;
      var first :| first in todo;
      start := dirtyPageTable[first];
      while todo != {}
        invariant todo <= dirtyPageTable.Keys
        invariant forall p :: p in dirtyPageTable && p !in todo ==> start <= dirtyPageTable[p]
        invariant exists p :: p in dirtyPageTable && start == dirtyPageTable[p]
      {
        var p :| p in todo;
        start := Min(start, dirtyPageTable[p]);
        todo := todo - {p};
      }
    }

    method Redo()
      requires Valid() && log == found && PageRecordsOk(log, init)
      modifies this`pages, this`durable, this`persistent, this`disk, this`dirty
      ensures Valid() && pages == RedoAll(log, dirtyPageTable, old(pages), |log|)
    {
      hide Restarting, PageRecordsOk;
      if dirtyPageTable == map[] {
        RedoNothing(log, pages, |log|);
        return;
      }
      var start := RedoStart();
      ghost var was := pages;
      for i := 0 to |log|
        invariant Valid() && pages == RedoAll(log, dirtyPageTable, was, i)
      {
        var rec, lsn := log[i], i + 1;
        if lsn < start {
          continue;
        }
        if IsPageUpdateRecord(rec.kind) && rec.hasPage && rec.page in dirtyPageTable && rec.page in pages {
          FetchPage(rec.page);
        }
        if ShouldRedo(rec, lsn, dirtyPageTable, pages) {
          RedoRecordOk(Now(), found, init, master, i);
          ApplyImage(rec.page, rec.after, lsn);
        }
      }
      FlushAllPages();
    }

    /** The losers, each with its last LSN. */
    method InitialHeap() returns (heap: set<HeapItem>)
      ensures heap == FirstHeap(txnTable)
      ensures forall it :: it in heap <==>
                it.txn in txnTable && IsLoserState(txnTable[it.txn].state) && it.lsn == txnTable[it.txn].lastLsn != 0
    {
      heap := {};
      var todo := txnTable.Keys;
      while todo != {}
        invariant todo <= txnTable.Keys
        invariant forall it :: it in heap <==>
                    && it.txn in txnTable && it.txn !in todo
                    && IsLoserState(txnTable[it.txn].state) && it.lsn == txnTable[it.txn].lastLsn != 0
      {
        var t :| t in todo;
        todo := todo - {t};
        var entry := txnTable[t];
        if IsLoserState(entry.state) && entry.lastLsn != 0 {
          heap := heap + {HeapItem(entry.lastLsn, t)};
        }
      }
    }

    /** An ABORT record closes the transaction; its updates are all compensated. It is
        flushed, which leaves it volatile only if it is the first record since opening. */
    method FinishAbortingTxn(t: TxnId, prevLsn: Lsn)
      requires Valid() && PagesCurrent()
      requires t in Txns(log) && Txns(log)[t].todo == [] && LinkOk(log, t, prevLsn)
      requires t in txnTable && log + [MakeTxnRecord(Abort, t, prevLsn)] <= Total()
      modifies this`log, this`txnTable, this`durable, this`persistent
      ensures log == old(log) + [MakeTxnRecord(Abort, t, prevLsn)]
      ensures Valid() && PagesCurrent() && Txns(log) == Txns(old(log)) - {t}
      ensures txnTable == old(txnTable)[t := TxnEntry(Aborted, |log|)]
      ensures durable == |log| || |log| == |found| + 1
    {
      hide Restarting, Undone, CurrentBut, Ahead;
      StartsFrom(Now(), found, init, master);
      var abort := MakeTxnRecord(Abort, t, prevLsn);
      AheadIsNext(log, found, master, abort);
      HistorySnoc(log, init, abort);
      TxnsSnoc(log, abort);
      CurrentNext(log, init, pages, Ahead(log, found, master), abort);
      FinishOk(Now(), found, init, master, abort);
      PersistentBound(Now(), found, init, master);
      var lsn := AppendRecord(abort);
      FlushUpTo(lsn);
      CurrentIs(log, init, pages);
      txnTable := txnTable[t := TxnEntry(Aborted, lsn)];
    }

    /** A CLR and the before-image, for the newest uncompensated update of t. */
    method UndoRecord(l: Lsn, t: TxnId)
      requires Valid() && PagesCurrent()
      requires 1 <= l <= |log| && log[l - 1].kind.PageUpdate? && log[l - 1].hasPage
      requires t in Txns(log) && Txns(log)[t].todo != [] && Txns(log)[t].todo[0] == l
      requires t in txnTable && txnTable[t].lastLsn == Txns(log)[t].last
      requires var rec := log[l - 1];
               log + [MakeClrPageUndoRecord(t, txnTable[t].lastLsn, rec.prevLsn, rec.page, rec.before)] <= Total()
      modifies this`log, this`txnTable, this`pages, this`durable, this`persistent, this`disk, this`dirty
      ensures var rec := old(log)[l - 1];
              log == old(log) + [MakeClrPageUndoRecord(t, old(txnTable)[t].lastLsn, rec.prevLsn, rec.page, rec.before)]
      ensures Valid() && PagesCurrent()
      ensures txnTable == old(txnTable)[t := old(txnTable)[t].(lastLsn := |log|)]
    {
      hide Restarting, Txns, Chain, CurrentBut, Current, LegalLog, Undone, Ahead;
      var rec := log[l - 1];
      var clr := MakeClrPageUndoRecord(t, txnTable[t].lastLsn, rec.prevLsn, rec.page, rec.before);
      assert LegalLog(log, init) && found <= log by { StartsFrom(Now(), found, init, master); }
      AheadIsNext(log, found, master, clr);
      UndoIsLegal(log, init, pages, Ahead(log, found, master), l, t, clr);
      ClrOk(Now(), found, init, master, clr);
      var lsn := AppendRecord(clr);
      txnTable := txnTable[t := txnTable[t].(lastLsn := lsn)];
      ApplyImage(rec.page, rec.before, lsn);
      CurrentIs(log, init, pages);
    }

    /** Undo appends exactly the records that `Undone` says and leaves no transaction open. */
    method Undo()
      requires Valid() && PagesCurrent() && log == found
      requires txnTable == TxnTable(log, master, |log|) && AnalysisRight(log, master)
      modifies this`log, this`pages, this`txnTable, this`durable, this`persistent, this`disk, this`dirty
      ensures Valid() && log == Total() && Current(log, init, pages) && Txns(log) == map[] && disk == pages
    {
      hide Restarting, Txns, CurrentBut, Current, LegalLog, TxnTable, HeapOk, UndoRecords, TurnRecords, TurnTable,
          TurnHeap;
      var records := log;
      var heap := InitialHeap();
      assert LegalLog(log, init) by { StartsFrom(Now(), found, init, master); }
      InitialHeapOk(log, init, txnTable);
      ghost var bound: nat := |records| + 1;
      HeapBelow(Txns(log), log, |records|, txnTable, heap);
      while heap != {}
        invariant Valid() && PagesCurrent()
        invariant HeapOk(Txns(log), log, |records|, txnTable, heap)
        invariant forall it :: it in heap ==> it.lsn < bound
        invariant log + UndoRecords(records, |log|, txnTable, heap, bound) == Total()
        decreases bound
      {
        HasTop(heap);
        var item :| IsTop(heap, item);
        BelowTop(Txns(log), log, |records|, txnTable, heap, item);
        UndoTurn(Txns(log), log, records, txnTable, heap, bound, item);
        bound := item.lsn;
        heap := UndoItem(records, heap, item);
      }
      NothingLeft(Txns(log), log, records, txnTable, bound);
      AllCurrent(log, found, init, pages, master);
      FlushAllPages();
    }

    /** The crash theorem: from any log, disk and master record a crash can leave, recovery
        ends with every page holding its committed bytes, on disk, and with no transaction
        unfinished; a crash right after it leaves such a state again. */
    method Recover()
      requires Valid() && log == found && pages == disk && CrashState(log, init, disk, master)
      modifies this
      ensures Valid() && log == old(log) + Undone(old(log), master) && UndoExtends(old(log), log)
      ensures LegalLog(log, init) && Txns(log) == map[]
      ensures pages.Keys == init.Keys
      ensures forall p :: p in pages ==> pages[p].content == CommittedImage(old(log), init, p)
      ensures disk == pages && Current(log, init, pages)
      ensures FlushOk(log, durable, persistent) && AreVersions(log[..durable], init, disk)
      ensures forall n :: durable <= n <= |log| ==> CrashState(log[..n], init, disk, master)
    {
      hide Restarting, Undone, LegalLog, AnalysisRight, CommittedImage, Harmless, MasterOk, AreVersions;
      Analysis();
      LegalRecords(log, init);
      AnalysisExact(log, init, master);
      RedoRepeatsHistory(log, init, pages, master);
      Redo();
      Undo();
      StartsFrom(Now(), found, init, master);
      RecoveryFlushes(found, Now(), init, master);
      forall n | durable <= n <= |log| ensures CrashState(log[..n], init, disk, master) {
        RecoveryIsRestartable(found, Now(), init, master, n);
      }
      forall p | p in pages ensures pages[p].content == CommittedImage(old(log), init, p) {
        QuiescentIsCommitted(log, init, p);
        UndoKeepsCommitted(old(log), log, init, p);
      }
    }

    /** One turn of the undo loop: the popped item is moved on, or its transaction is
        closed. */
    method UndoItem(records: seq<LogRecord>, heap: set<HeapItem>, item: HeapItem) returns (rest: set<HeapItem>)
      requires Valid() && PagesCurrent() && records == found
      requires HeapOk(Txns(log), log, |records|, txnTable, heap) && item in heap
      requires log + TurnRecords(records, |log|, txnTable, item) <= Total()
      modifies this`log, this`pages, this`txnTable, this`durable, this`persistent, this`disk, this`dirty
      ensures Valid() && PagesCurrent()
      ensures log == old(log) + TurnRecords(records, |old(log)|, old(txnTable), item)
      ensures txnTable == TurnTable(records, |old(log)|, old(txnTable), item)
      ensures rest == TurnHeap(records, heap, item)
      ensures HeapOk(Txns(log), log, |records|, txnTable, rest)
      ensures forall it :: it in rest ==> it in heap - {item} || it.lsn < item.lsn
    {
      hide Restarting, Txns, Chain, CurrentBut, Current, LegalLog, Undone, Ahead, HeapOk, HeapOkBut, ItemOk;
      Popped(Txns(log), log, |records|, txnTable, heap, item);
      ghost var turn := TurnRecords(records, |log|, txnTable, item);
      ghost var undone := UndoneBy(records, txnTable, item);
      rest := heap - {item};
      var rec, t := records[item.lsn - 1], item.txn;
      assert log + undone <= log + turn;
      UndoOrWalk(records, rest, item);
      var next := NextLsn(rec);
      if next != 0 {
        Pushed(Txns(log), log, |records|, txnTable, rest, HeapItem(next, t));
        rest := rest + {HeapItem(next, t)};
      } else {
        var prevLsn := if rec.kind.Clr? || rec.kind.Begin? then item.lsn else txnTable[t].lastLsn;
        assert log + [MakeTxnRecord(Abort, t, prevLsn)] == old(log) + turn;
        Finish(records, rest, t, prevLsn);
      }
    }

    /** The record the item stands at is compensated, if it is a page change. */
    method UndoOrWalk(records: seq<LogRecord>, rest: set<HeapItem>, item: HeapItem)
      requires Valid() && PagesCurrent() && records == found
      requires HeapOkBut(Txns(log), log, |records|, txnTable, rest, item.txn)
      requires ItemOk(Txns(log), log, |records|, txnTable, item)
      requires log + UndoneBy(records, txnTable, item) <= Total()
      modifies this`log, this`txnTable, this`pages, this`durable, this`persistent, this`disk, this`dirty
      ensures Valid() && PagesCurrent()
      ensures log == old(log) + UndoneBy(records, old(txnTable), item)
      ensures item.txn in txnTable
      ensures txnTable == old(txnTable)[item.txn :=
          old(txnTable)[item.txn].(lastLsn := LastAfter(records, |old(log)|, old(txnTable), item))]
      ensures HeapOkBut(Txns(log), log, |records|, txnTable, rest, item.txn)
      ensures var rec := records[item.lsn - 1];
              if NextLsn(rec) != 0 then
                ItemOk(Txns(log), log, |records|, txnTable, HeapItem(NextLsn(rec), item.txn)) && NextLsn(rec) < item.lsn
              else
                && MayClose(Txns(log), log, txnTable, item.txn)
                && LinkOk(log, item.txn,
                          if rec.kind.Clr? || rec.kind.Begin? then item.lsn else txnTable[item.txn].lastLsn)
    {
      hide Restarting, Txns, Chain, CurrentBut, Current, LegalLog, Undone, Ahead, HeapOkBut, LinksOk, PageRecordsOk;
      StartsFrom(Now(), found, init, master);
      var rec := records[item.lsn - 1];
      assert rec == log[item.lsn - 1];
      if rec.kind.PageUpdate? && rec.hasPage {
        UndoUpdate(records, rest, item);
      } else {
        LegalLinks(log, init);
        LegalRecords(log, init);
        LastLink(log, init, item.txn);
        WalkStep(Txns(log), log, init, |records|, txnTable, item);
        assert txnTable[item.txn := txnTable[item.txn].(lastLsn := txnTable[item.txn].lastLsn)] == txnTable;
      }
    }

    /** FinishAbortingTxn seen from the undo loop. */
    method Finish(records: seq<LogRecord>, rest: set<HeapItem>, t: TxnId, prevLsn: Lsn)
      requires Valid() && PagesCurrent()
      requires HeapOkBut(Txns(log), log, |records|, txnTable, rest, t)
      requires t in Txns(log) && Txns(log)[t].todo == [] && LinkOk(log, t, prevLsn) && t in txnTable
      requires log + [MakeTxnRecord(Abort, t, prevLsn)] <= Total()
      modifies this`log, this`txnTable, this`durable, this`persistent
      ensures log == old(log) + [MakeTxnRecord(Abort, t, prevLsn)]
      ensures txnTable == old(txnTable)[t := TxnEntry(Aborted, |log|)]
      ensures Valid() && PagesCurrent()
      ensures HeapOk(Txns(log), log, |records|, txnTable, rest)
    {
      hide Restarting, CurrentBut, Ahead, Undone, Txns;
      ghost var was, table := log, txnTable;
      FinishAbortingTxn(t, prevLsn);
      RestKept(Txns(was), Txns(log), was, log[|was|], |records|, table, txnTable, rest, t);
    }

    /** UndoRecord seen from the undo loop. */
    method UndoUpdate(records: seq<LogRecord>, rest: set<HeapItem>, item: HeapItem)
      requires Valid() && PagesCurrent()
      requires HeapOkBut(Txns(log), log, |records|, txnTable, rest, item.txn)
      requires ItemOk(Txns(log), log, |records|, txnTable, item)
      requires log[item.lsn - 1].kind.PageUpdate? && log[item.lsn - 1].hasPage
      requires var rec := log[item.lsn - 1];
               log + [MakeClrPageUndoRecord(item.txn, txnTable[item.txn].lastLsn, rec.prevLsn, rec.page, rec.before)] <=
                   Total()
      modifies this`log, this`txnTable, this`pages, this`durable, this`persistent, this`disk, this`dirty
      ensures Valid() && PagesCurrent()
      ensures var rec := old(log)[item.lsn - 1];
              log == old(log) + [MakeClrPageUndoRecord(item.txn, old(txnTable)[item.txn].lastLsn, rec.prevLsn, rec.page,
                                                       rec.before)]
      ensures txnTable == old(txnTable)[item.txn := old(txnTable)[item.txn].(lastLsn := |log|)]
      ensures HeapOkBut(Txns(log), log, |records|, txnTable, rest, item.txn)
      ensures var prev := old(log)[item.lsn - 1].prevLsn;
              if prev != 0 then ItemOk(Txns(log), log, |records|, txnTable, HeapItem(prev, item.txn)) && prev < item.lsn
              else MayClose(Txns(log), log, txnTable, item.txn) && LinkOk(log, item.txn, txnTable[item.txn].lastLsn)
    {
      hide Restarting, Txns, Chain, CurrentBut, Ahead, Undone, HeapOkBut, LinksOk, LegalLog;
      ghost var was, table := log, txnTable;
      assert LinksOk(log) by {
        StartsFrom(Now(), found, init, master);
        LegalLinks(log, init);
      }
      TopOfTodo(Txns(log), log, |records|, txnTable, item);
      UndoRecord(item.lsn, item.txn);
      ghost var clr := log[|was|];
      assert log == was + [clr] && clr.kind.Clr? && clr.txn == item.txn;
      assert txnTable == table[item.txn := table[item.txn].(lastLsn := |was| + 1)];
      UndoUpdateOk(was, clr, |records|, table, rest, item);
    }
  }

  /** ---------- What the steps rely on ---------- */

  lemma {:induction false} StartsFrom(s: Restart, found: seq<LogRecord>, init: map<PageId, Image>, master: Lsn)
    requires Restarting(found, s, init, master)
    ensures LegalLog(s.log, init) && found <= s.log && UndoExtends(found, s.log)
    ensures s.pages.Keys == init.Keys
  {
  }

  lemma {:induction false} PersistentBound(s: Restart, found: seq<LogRecord>, init: map<PageId, Image>, master: Lsn)
    requires Restarting(found, s, init, master)
    ensures s.persistent <= |s.log| || s.persistent == |found| + 1
  {
  }

  lemma {:induction false} AllClean(s: Restart, found: seq<LogRecord>, init: map<PageId, Image>, master: Lsn)
    requires Restarting(found, s, init, master) && (forall p :: p in s.pages ==> p !in s.dirty)
    ensures s.disk == s.pages
  {
    hide LegalLog, Undone, Harmless, MasterOk, IsVersion, UndoExtends, LogGrows;
    forall p | p in s.pages ensures s.disk[p] == s.pages[p] {
      assert FrameOk(s, found + Undone(found, master), init, p);
    }
  }

  lemma {:induction false} RedoRecordOk(s: Restart, found: seq<LogRecord>, init: map<PageId, Image>, master: Lsn,
                                        i: nat)
    requires Restarting(found, s, init, master) && s.log == found && i < |s.log| && PageRecordsOk(s.log, init)
    requires IsPageUpdateRecord(s.log[i].kind) && s.log[i].hasPage
    ensures s.log[i].page in init && |s.log[i].after| == PAGE_SIZE
    ensures IsVersion(found + Undone(found, master), init, s.log[i].page, Page(s.log[i].after, i + 1))
  {
    var total := found + Undone(found, master);
    assert total[i] == s.log[i];
    NextVersion(total, init, i);
  }

  lemma {:induction false} CurrentIs(log: seq<LogRecord>, init: map<PageId, Image>, pages: map<PageId, Page>)
    requires Current(log, init, pages)
    ensures CurrentBut(log, init, pages, [])
  {
  }

  lemma {:induction false} AllCurrent(log: seq<LogRecord>, found: seq<LogRecord>, init: map<PageId, Image>,
                                      pages: map<PageId, Page>, master: Lsn)
    requires CurrentBut(log, init, pages, Ahead(log, found, master)) && log == found + Undone(found, master)
    ensures Current(log, init, pages)
  {
  }
}
