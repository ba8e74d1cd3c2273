/** The Undo pass of restart recovery as a function of the log: the heap of losers, the
    records it appends, and the state a crash leaves behind, be it a crash of the running
    engine or of recovery itself. */
module UndoPass {
  import opened WalRecords
  import opened History
  import opened HistoryProofs
  import opened Analysis

  /** ---------- What Undo appends ---------- */

  /** Where undo goes on after a record. */
  function NextLsn(r: LogRecord): Lsn {
    if r.kind.Clr? then r.undoNextLsn else if r.kind.Begin? then 0 else r.prevLsn
  }

  datatype HeapItem = HeapItem(lsn: Lsn, txn: TxnId)

  lemma {:induction false} HasTop(heap: set<HeapItem>)
    requires heap != {}
    ensures exists top :: IsTop(heap, top)
  {
    var a :| a in heap;
    var rest := heap - {a};
    assert forall x :: x in heap ==> x in rest || x == a;
    if rest != {} {
      HasTop(rest);
      var top :| IsTop(rest, top);
      assert IsTop(heap, if top.lsn < a.lsn then a else top);
    } else {
      assert IsTop(heap, a);
    }
  }

  /** The losers, each at its last record. */
  ghost function FirstHeap(table: map<TxnId, TxnEntry>): set<HeapItem> {
    set t | t in table && IsLoserState(table[t].state) && table[t].lastLsn != 0 :: HeapItem(table[t].lastLsn, t)
  }

  predicate IsTop(heap: set<HeapItem>, it: HeapItem) {
    it in heap && forall x :: x in heap ==> x.lsn <= it.lsn
  }

  ghost function TopOf(heap: set<HeapItem>): (it: HeapItem)
    requires heap != {}
    ensures IsTop(heap, it)
  {
    HasTop(heap);
    var it :| IsTop(heap, it);
    it
  }

  predicate Undoes(r: LogRecord) { r.kind.PageUpdate? && r.hasPage }

  /** The last LSN of the item's transaction once its record is undone behind n records. */
  ghost function LastAfter(records: seq<LogRecord>, n: nat, table: map<TxnId, TxnEntry>, it: HeapItem): Lsn
    requires it.txn in table && 1 <= it.lsn <= |records|
  {
    if Undoes(records[it.lsn - 1]) then n + 1 else table[it.txn].lastLsn
  }

  /** The CLR for the record the item stands at, if it is a page change. */
  ghost function UndoneBy(records: seq<LogRecord>, table: map<TxnId, TxnEntry>, it: HeapItem): seq<LogRecord>
    requires it.txn in table && 1 <= it.lsn <= |records|
  {
    var r := records[it.lsn - 1];
    if Undoes(r) then [MakeClrPageUndoRecord(it.txn, table[it.txn].lastLsn, r.prevLsn, r.page, r.before)] else []
  }

  /** What one turn of the undo loop appends behind n records for the popped item. */
  ghost function TurnRecords(records: seq<LogRecord>, n: nat, table: map<TxnId, TxnEntry>, it: HeapItem): seq<LogRecord>
    requires it.txn in table && 1 <= it.lsn <= |records|
  {
    var r := records[it.lsn - 1];
    var link := if r.kind.Clr? || r.kind.Begin? then it.lsn else LastAfter(records, n, table, it);
    UndoneBy(records, table, it) + (if NextLsn(r) == 0 then [MakeTxnRecord(Abort, it.txn, link)] else [])
  }

  ghost function TurnTable(records: seq<LogRecord>, n: nat, table: map<TxnId, TxnEntry>, it: HeapItem)
    : map<TxnId, TxnEntry>
    requires it.txn in table && 1 <= it.lsn <= |records|
  {
    if NextLsn(records[it.lsn - 1]) == 0 then
      table[it.txn := TxnEntry(Aborted, n + |TurnRecords(records, n, table, it)|)]
    else
      table[it.txn := table[it.txn].(lastLsn := LastAfter(records, n, table, it))]
  }

  ghost function TurnHeap(records: seq<LogRecord>, heap: set<HeapItem>, it: HeapItem): set<HeapItem>
    requires 1 <= it.lsn <= |records|
  {
    var next := NextLsn(records[it.lsn - 1]);
    heap - {it} + (if next == 0 then {} else {HeapItem(next, it.txn)})
  }

  ghost predicate Ready(records: seq<LogRecord>, table: map<TxnId, TxnEntry>, heap: set<HeapItem>, bound: nat) {
    heap != {} && forall it :: it in heap ==> 1 <= it.lsn <= |records| && it.lsn < bound && it.txn in table
  }

  /** What Undo still appends behind n records, from a heap whose items lie below `bound`. */
  ghost function UndoRecords(records: seq<LogRecord>, n: nat, table: map<TxnId, TxnEntry>, heap: set<HeapItem>,
                             bound: nat)
    : seq<LogRecord>
    decreases bound
  {
    if !Ready(records, table, heap, bound) then []
    else
      var it := TopOf(heap);
      var turn := TurnRecords(records, n, table, it);
      turn + UndoRecords(records, n + |turn|, TurnTable(records, n, table, it), TurnHeap(records, heap, it), it.lsn)
  }

  /** What recovery appends to the log it finds. */
  ghost function Undone(log: seq<LogRecord>, master: Lsn): seq<LogRecord> {
    var table := TxnTable(log, master, |log|);
    UndoRecords(log, |log|, table, FirstHeap(table), |log| + 1)
  }

  /** ---------- The state a crash leaves behind ---------- */

  /** The first record recovery appends. FlushUpTo takes the record at the end of the file it
      opened for durable, so the page of this one may reach the disk before the record does. */
  ghost function FirstUndone(log: seq<LogRecord>, master: Lsn): (first: seq<LogRecord>)
    ensures |first| <= 1
  {
    var undone := Undone(log, master);
    if undone == [] then [] else undone[..1]
  }

  /** Log, pages and master record a crash can leave, of the running engine or of recovery:
      the lists of the checkpoints do no harm, and every page is a version that the log, or
      the record recovery appends first, wrote. */
  ghost predicate CrashState(log: seq<LogRecord>, init: map<PageId, Image>, disk: map<PageId, Page>, master: Lsn) {
    && LegalLog(log, init)
    && AreVersions(log + FirstUndone(log, master), init, disk)
    && MasterOk(log, disk, master)
    && Harmless(log, master)
  }

  lemma {:induction false} VersionsGrow(log: seq<LogRecord>, log': seq<LogRecord>, init: map<PageId, Image>,
                                        pages: map<PageId, Page>)
    requires AreVersions(log, init, pages) && log <= log'
    ensures AreVersions(log', init, pages)
  {
  }

  lemma {:induction false} MasterGrows(log: seq<LogRecord>, log': seq<LogRecord>, disk: map<PageId, Page>,
                                       disk': map<PageId, Page>, master: Lsn)
    requires MasterOk(log, disk, master) && log <= log' && disk'.Keys == disk.Keys
    requires forall p :: p in disk ==> disk[p].lsn <= disk'[p].lsn
    ensures MasterOk(log', disk', master)
  {
    if master != 0 {
      var e :| Completes(log, disk, master, e);
      assert log'[..master] == log[..master];
      assert Completes(log', disk', master, e);
    }
  }

  /** The state the engine leaves: pages follow the log. */
  lemma {:induction false} PlainCrashState(log: seq<LogRecord>, init: map<PageId, Image>, disk: map<PageId, Page>,
                                           master: Lsn)
    requires LegalLog(log, init) && AreVersions(log, init, disk) && MasterOk(log, disk, master) && Harmless(log, master)
    ensures CrashState(log, init, disk, master)
  {
    VersionsGrow(log, log + FirstUndone(log, master), init, disk);
  }

  /** Only CLR and ABORT records were appended. */
  ghost predicate UndoExtends(log: seq<LogRecord>, log': seq<LogRecord>) {
    log <= log' && forall i :: |log| <= i < |log'| ==> log'[i].kind.Clr? || log'[i].kind.Abort?
  }

  /** Undo does not change what the log says must survive. */
  lemma {:induction false} UndoKeepsCommitted(log: seq<LogRecord>, log': seq<LogRecord>, init: map<PageId, Image>,
                                              p: PageId)
    requires UndoExtends(log, log') && p in init
    ensures CommittedImage(log', init, p) == CommittedImage(log, init, p)
    decreases |log'|
  {
    hide CommittedImage;
    if |log| < |log'| {
      var front, r := log'[..|log'| - 1], log'[|log'| - 1];
      UndoKeepsCommitted(log, front, init, p);
      CommittedSnoc(front, init, r, p);
      assert front + [r] == log';
    } else {
      assert log == log';
    }
  }

  /** With no live transaction left, the logged state is the committed state. */
  lemma {:induction false} QuiescentIsCommitted(log: seq<LogRecord>, init: map<PageId, Image>, p: PageId)
    requires LegalLog(log, init) && p in init && Txns(log) == map[]
    ensures Value(log, init, p) == CommittedImage(log, init, p)
  {
    LegalLogInv(log, init);
    assert PageOk(Txns(log), log, init, p);
    assert Settled(Txns(log), log, init, p);
  }

  /** ---------- What recovery keeps at every moment ---------- */

  /** The log manager, and the pages in the buffer pool and on disk, during recovery. */
  datatype Restart = Restart(
    log: seq<LogRecord>,
    durable: nat,                   // records the log file surely holds
    persistent: Lsn,                // the log manager's persistent LSN
    pages: map<PageId, Page>,       // pages through the buffer pool
    disk: map<PageId, Page>,
    dirty: set<PageId>)

  function FlushedTo(s: Restart, lsn: Lsn): Restart {
    if lsn <= s.persistent then s else s.(durable := |s.log|, persistent := Min(lsn, |s.log| + 1))
  }

  ghost predicate FrameOk(s: Restart, total: seq<LogRecord>, init: map<PageId, Image>, p: PageId)
    requires p in s.pages && p in s.disk && p in init
  {
    && IsVersion(total, init, p, s.pages[p]) && s.pages[p].lsn <= Max(|s.log|, s.persistent)
    && IsVersion(total, init, p, s.disk[p]) && s.disk[p].lsn <= Max(s.durable, s.persistent)
    && s.disk[p].lsn <= s.pages[p].lsn && (p !in s.dirty ==> s.disk[p] == s.pages[p])
  }

  ghost predicate FramesOk(s: Restart, total: seq<LogRecord>, init: map<PageId, Image>) {
    && s.pages.Keys == s.disk.Keys == init.Keys
    && forall p :: p in s.pages ==> FrameOk(s, total, init, p)
  }

  /** The log grows from its first `base` records towards `total`. Until the first real flush
      the persistent LSN is the one it was opened with, and no ABORT but the first record has
      been appended. */
  ghost predicate LogGrows(s: Restart, total: seq<LogRecord>, base: nat) {
    && base <= s.durable <= |s.log| && s.log <= total && 1 <= s.persistent
    && (s.persistent <= s.durable || (s.durable == base && s.persistent == base + 1 && NoAbortAfter(s.log, base)))
  }

  ghost predicate NoAbortAfter(log: seq<LogRecord>, base: nat) {
    forall i :: base < i < |log| ==> !log[i].kind.Abort?
  }

  ghost predicate Guarded(s: Restart, total: seq<LogRecord>, init: map<PageId, Image>, base: nat, master: Lsn) {
    LogGrows(s, total, base) && FramesOk(s, total, init) && MasterOk(total[..base], s.disk, master)
  }

  /** Recovery at any moment, from the log it found. */
  ghost predicate Restarting(found: seq<LogRecord>, s: Restart, init: map<PageId, Image>, master: Lsn) {
    && LegalLog(s.log, init) && UndoExtends(found, s.log) && Harmless(found, master)
    && Guarded(s, found + Undone(found, master), init, |found|, master)
  }

  lemma {:induction false} GuardOpen(log: seq<LogRecord>, init: map<PageId, Image>, disk: map<PageId, Page>,
                                     master: Lsn)
    requires CrashState(log, init, disk, master)
    ensures Guarded(Restart(log, |log|, |log| + 1, disk, disk, {}), log + Undone(log, master), init, |log|, master)
  {
    VersionsGrow(log + FirstUndone(log, master), log + Undone(log, master), init, disk);
  }

  lemma {:induction false} GuardClr(s: Restart, total: seq<LogRecord>, init: map<PageId, Image>, base: nat, master: Lsn,
                                    r: LogRecord)
    requires Guarded(s, total, init, base, master) && s.log + [r] <= total && r.kind.Clr?
    ensures Guarded(s.(log := s.log + [r]), total, init, base, master)
  {
  }

  lemma {:induction false} GuardAbort(s: Restart, total: seq<LogRecord>, init: map<PageId, Image>, base: nat,
                                      master: Lsn, r: LogRecord)
    requires Guarded(s, total, init, base, master) && s.log + [r] <= total && r.kind.Abort?
    ensures Guarded(FlushedTo(s.(log := s.log + [r]), |s.log| + 1), total, init, base, master)
  {
  }

  lemma {:induction false} GuardFlush(s: Restart, total: seq<LogRecord>, init: map<PageId, Image>, base: nat,
                                      master: Lsn, lsn: Lsn)
    requires Guarded(s, total, init, base, master) && lsn <= Max(|s.log|, s.persistent)
    ensures Guarded(FlushedTo(s, lsn), total, init, base, master)
    ensures lsn <= Max(FlushedTo(s, lsn).durable, FlushedTo(s, lsn).persistent)
  {
  }

  lemma {:induction false} GuardWriteBack(s: Restart, total: seq<LogRecord>, init: map<PageId, Image>, base: nat,
                                          master: Lsn, p: PageId)
    requires Guarded(s, total, init, base, master) && p in s.pages && s.pages[p].lsn <= Max(s.durable, s.persistent)
    ensures Guarded(s.(disk := s.disk[p := s.pages[p]], dirty := s.dirty - {p}), total, init, base, master)
  {
    var s' := s.(disk := s.disk[p := s.pages[p]], dirty := s.dirty - {p});
    MasterGrows(total[..base], total[..base], s.disk, s'.disk, master);
    forall q | q in s'.pages ensures FrameOk(s', total, init, q) { assert FrameOk(s, total, init, q); }
  }

  lemma {:induction false} GuardApply(s: Restart, total: seq<LogRecord>, init: map<PageId, Image>, base: nat,
                                      master: Lsn, p: PageId, page: Page)
    requires Guarded(s, total, init, base, master) && p in s.pages && IsVersion(total, init, p, page)
    requires s.pages[p].lsn <= page.lsn <= Max(|s.log|, s.persistent)
    ensures Guarded(s.(pages := s.pages[p := page], dirty := s.dirty + {p}), total, init, base, master)
  {
    hide MasterOk, NoAbortAfter, IsVersion;
    var s' := s.(pages := s.pages[p := page], dirty := s.dirty + {p});
    forall q | q in s'.pages ensures FrameOk(s', total, init, q) { assert FrameOk(s, total, init, q); }
  }

  /** Records of undo keep the lists harmless. */
  lemma {:induction false} UndoKeepsHarmless(log: seq<LogRecord>, log': seq<LogRecord>, init: map<PageId, Image>,
                                             master: Lsn)
    requires UndoExtends(log, log') && LegalLog(log', init) && Harmless(log, master) && master <= |log|
    ensures Harmless(log', master)
    decreases |log'|
  {
    hide Harmless;
    if |log| < |log'| {
      var front, r := log'[..|log'| - 1], log'[|log'| - 1];
      assert front + [r] == log';
      UndoKeepsHarmless(log, front, init, master);
      HarmlessSnoc(front, init, r, master);
    } else {
      assert log == log';
    }
  }

  /** Recovery may crash at any moment, with any of its page writes on disk and any part of
      the log beyond the durable records: what is left is a crash state in which the same
      bytes must survive, also when the first CLR is on its page and not in the log. */
  lemma {:induction false} RecoveryIsRestartable(log: seq<LogRecord>, s: Restart, init: map<PageId, Image>, master: Lsn,
                                                 n: nat)
    requires Restarting(log, s, init, master) && s.durable <= n <= |s.log|
    ensures CrashState(s.log[..n], init, s.disk, master)
    ensures forall p :: p in init ==> CommittedImage(s.log[..n], init, p) == CommittedImage(log, init, p)
  {
    hide CommittedImage, Harmless, LegalLog, FramesOk, MasterOk, AreVersions, Undone, FirstUndone;
    var log', total := s.log[..n], log + Undone(log, master);
    assert UndoExtends(log, log');
    LegalPrefix(s.log, init, n);
    forall p | p in init ensures CommittedImage(log', init, p) == CommittedImage(log, init, p) {
      UndoKeepsCommitted(log, log', init, p);
    }
    assert total[..|log|] == log;
    MasterGrows(log, log', s.disk, s.disk, master);
    MasterInLog(log, s.disk, master);
    UndoKeepsHarmless(log, log', init, master);
    if n == |log| { assert log' == log; }
    DiskVersions(log, s, init, master, n);
  }

  /** What FlushUpTo relies on: the persistent LSN names a durable record, or the first one
      behind them, and that one changes no page. */
  ghost predicate FlushOk(log: seq<LogRecord>, durable: nat, persistent: Lsn) {
    && durable <= |log| && 1 <= persistent
    && (persistent <= durable
        || (persistent == durable + 1 && (durable < |log| ==> !IsPageUpdateRecord(log[durable].kind))))
  }

  /** The last record of recovery is an ABORT. */
  lemma {:induction false} EndsWithAbort(found: seq<LogRecord>, log: seq<LogRecord>, init: map<PageId, Image>)
    requires UndoExtends(found, log) && LegalLog(log, init) && Txns(log) == map[] && |found| < |log|
    ensures log[|log| - 1].kind.Abort?
  {
    var front, r := log[..|log| - 1], log[|log| - 1];
    assert Enabled(front, init, r) && Txns(log) == ApplyTxn(Txns(front), |log|, r);
    assert r.kind.Clr? ==> r.txn in Txns(log);
  }

  /** Once recovery is done its pages are versions of durable records. */
  lemma {:induction false} RecoveryFlushes(found: seq<LogRecord>, s: Restart, init: map<PageId, Image>, master: Lsn)
    requires Restarting(found, s, init, master) && Txns(s.log) == map[] && s.log == found + Undone(found, master)
    ensures FlushOk(s.log, s.durable, s.persistent)
    ensures AreVersions(s.log[..s.durable], init, s.disk)
  {
    hide LegalLog, Txns, Undone, MasterOk, Harmless;
    if |found| < |s.log| { EndsWithAbort(found, s.log, init); }
    forall p | p in s.disk ensures s.disk[p].lsn <= s.durable { assert FrameOk(s, s.log, init, p); }
    VersionsIn(s.log, init, s.disk, s.durable);
  }

  lemma {:induction false} MasterInLog(log: seq<LogRecord>, disk: map<PageId, Page>, master: Lsn)
    requires MasterOk(log, disk, master)
    ensures master <= |log|
  {
  }

  lemma {:induction false} DiskVersions(log: seq<LogRecord>, s: Restart, init: map<PageId, Image>, master: Lsn, n: nat)
    requires Guarded(s, log + Undone(log, master), init, |log|, master) && s.durable <= n <= |s.log|
    ensures AreVersions(s.log[..n] + FirstUndone(s.log[..n], master), init, s.disk)
  {
    hide MasterOk, IsVersion;
    var total := log + Undone(log, master);
    if n == |log| {
      var first := log + FirstUndone(log, master);
      assert s.log[..n] == log && first == total[..|first|];
      forall p | p in s.disk ensures s.disk[p].lsn <= |first| {
        assert FrameOk(s, total, init, p);
        VersionLsn(total, init, p, s.disk[p]);
      }
      VersionsIn(total, init, s.disk, |first|);
    } else {
      assert s.log[..n] == total[..n];
      VersionsIn(total, init, s.disk, n);
      VersionsGrow(total[..n], s.log[..n] + FirstUndone(s.log[..n], master), init, s.disk);
    }
  }

  lemma {:induction false} VersionLsn(log: seq<LogRecord>, init: map<PageId, Image>, p: PageId, page: Page)
    requires p in init && IsVersion(log, init, p, page)
    ensures page.lsn <= |log|
  {
  }

  /** Versions of the first n records of a log. */
  lemma {:induction false} VersionsIn(log: seq<LogRecord>, init: map<PageId, Image>, pages: map<PageId, Page>, n: nat)
    requires AreVersions(log, init, pages) && n <= |log| && forall p :: p in pages ==> pages[p].lsn <= n
    ensures AreVersions(log[..n], init, pages)
  {
  }

  /** ---------- The heap during Undo ---------- */

  /** The item stands where the undo of its transaction goes on: the walk from its LSN
      meets exactly the updates that are not compensated yet. */
  ghost predicate ItemOk(live: map<TxnId, Live>, log: seq<LogRecord>, n: nat, table: map<TxnId, TxnEntry>,
                         it: HeapItem) {
    && it.txn in live && it.txn in table && table[it.txn].lastLsn == live[it.txn].last
    && 1 <= it.lsn <= n <= |log| && log[it.lsn - 1].txn == it.txn
    && Chain(log, it.lsn) == live[it.txn].todo
  }

  ghost predicate HasItem(heap: set<HeapItem>, t: TxnId) {
    exists it :: it in heap && it.txn == t
  }

  ghost predicate HeapOk(live: map<TxnId, Live>, log: seq<LogRecord>, n: nat, table: map<TxnId, TxnEntry>,
                         heap: set<HeapItem>) {
    && (forall it :: it in heap ==> ItemOk(live, log, n, table, it))
    && (forall t :: t in live ==> HasItem(heap, t))
    && (forall x, y :: x in heap && y in heap && x.txn == y.txn ==> x == y)
  }

  /** Records that do not concern the item's transaction leave it alone. */
  lemma {:induction false} ItemKept(live: map<TxnId, Live>, live': map<TxnId, Live>, log: seq<LogRecord>, r: LogRecord,
                                    n: nat, table: map<TxnId, TxnEntry>, table': map<TxnId, TxnEntry>, it: HeapItem)
    requires ItemOk(live, log, n, table, it)
    requires it.txn in live' && live'[it.txn] == live[it.txn] && it.txn in table' && table'[it.txn] == table[it.txn]
    ensures ItemOk(live', log + [r], n, table', it)
  {
    ChainSnoc(log, r, it.lsn);
    assert (log + [r])[it.lsn - 1] == log[it.lsn - 1];
  }

  /** Undoing the update an item stands at, and moving the item to the one before. */
  lemma {:induction false} UndoMoves(live: map<TxnId, Live>, log: seq<LogRecord>, n: nat, table: map<TxnId, TxnEntry>,
                                     it: HeapItem, r: LogRecord)
    requires ItemOk(live, log, n, table, it) && log[it.lsn - 1].kind.PageUpdate?
    requires LinkOk(log[..it.lsn - 1], it.txn, log[it.lsn - 1].prevLsn)
    requires r.kind.Clr? && r.txn == it.txn
    ensures live[it.txn].todo != [] && live[it.txn].todo[0] == it.lsn
    ensures var prev, live' := log[it.lsn - 1].prevLsn, ApplyTxn(live, |log| + 1, r);
            if prev == 0 then live'[it.txn].todo == []
            else prev < it.lsn &&
                 ItemOk(live', log + [r], n, table[it.txn := table[it.txn].(lastLsn := |log| + 1)],
                        HeapItem(prev, it.txn))
  {
    var prev := log[it.lsn - 1].prevLsn;
    ChainSnoc(log, r, prev);
    assert live[it.txn].todo[1..] == Chain(log, prev);
    if prev != 0 { assert (log + [r])[prev - 1] == log[prev - 1]; }
  }

  /** The heap without the item of transaction t. */
  ghost predicate HeapOkBut(live: map<TxnId, Live>, log: seq<LogRecord>, n: nat, table: map<TxnId, TxnEntry>,
                            rest: set<HeapItem>, t: TxnId)
  {
    && (forall it :: it in rest ==> ItemOk(live, log, n, table, it) && it.txn != t)
    && (forall u :: u in live && u != t ==> HasItem(rest, u))
    && (forall x, y :: x in rest && y in rest && x.txn == y.txn ==> x == y)
  }

  lemma {:induction false} Popped(live: map<TxnId, Live>, log: seq<LogRecord>, n: nat, table: map<TxnId, TxnEntry>,
                                  heap: set<HeapItem>, item: HeapItem)
    requires HeapOk(live, log, n, table, heap) && item in heap
    ensures HeapOkBut(live, log, n, table, heap - {item}, item.txn) && ItemOk(live, log, n, table, item)
    ensures 1 <= item.lsn <= n && item.txn in table
  {
  }

  lemma {:induction false} Pushed(live: map<TxnId, Live>, log: seq<LogRecord>, n: nat, table: map<TxnId, TxnEntry>,
                                  rest: set<HeapItem>, item: HeapItem)
    requires HeapOkBut(live, log, n, table, rest, item.txn) && ItemOk(live, log, n, table, item)
    ensures HeapOk(live, log, n, table, rest + {item})
  {
  }

  /** One more record, of transaction t. */
  lemma {:induction false} RestKept(live: map<TxnId, Live>, live': map<TxnId, Live>, log: seq<LogRecord>, r: LogRecord,
                                    n: nat, table: map<TxnId, TxnEntry>, table': map<TxnId, TxnEntry>,
                                    rest: set<HeapItem>, t: TxnId)
    requires HeapOkBut(live, log, n, table, rest, t)
    requires forall u :: u != t ==> (u in live <==> u in live') && (u in live ==> live'[u] == live[u])
    requires forall u :: u in table && u != t ==> u in table' && table'[u] == table[u]
    ensures HeapOkBut(live', log + [r], n, table', rest, t)
  {
    forall it | it in rest ensures ItemOk(live', log + [r], n, table', it) && it.txn != t {
      ItemKept(live, live', log, r, n, table, table', it);
    }
  }

  /** Items of different transactions have different LSNs. */
  lemma {:induction false} BelowTop(live: map<TxnId, Live>, log: seq<LogRecord>, n: nat, table: map<TxnId, TxnEntry>,
                                    heap: set<HeapItem>, item: HeapItem)
    requires HeapOk(live, log, n, table, heap) && item in heap
    requires forall x :: x in heap ==> x.lsn <= item.lsn
    ensures forall x :: x in heap - {item} ==> x.lsn < item.lsn
  {
  }

  lemma {:induction false} HeapBelow(live: map<TxnId, Live>, log: seq<LogRecord>, n: nat, table: map<TxnId, TxnEntry>,
                                     heap: set<HeapItem>)
    requires HeapOk(live, log, n, table, heap)
    ensures forall it :: it in heap ==> 1 <= it.lsn <= n && it.txn in table
  {
  }

  /** Only one item can be the top, so a turn of the loop is a step of the function. */
  lemma {:induction false} UndoTurn(live: map<TxnId, Live>, log: seq<LogRecord>, records: seq<LogRecord>,
                                    table: map<TxnId, TxnEntry>, heap: set<HeapItem>, bound: nat, item: HeapItem)
    requires HeapOk(live, log, |records|, table, heap) && item in heap
    requires forall x :: x in heap ==> x.lsn < bound
    requires forall x :: x in heap - {item} ==> x.lsn < item.lsn
    ensures 1 <= item.lsn <= |records| && item.txn in table
    ensures var n, turn := |log|, TurnRecords(records, |log|, table, item);
            UndoRecords(records, n, table, heap, bound) ==
            turn + UndoRecords(records, n + |turn|, TurnTable(records, n, table, item), TurnHeap(records, heap, item),
                               item.lsn)
  {
    hide UndoRecords, TurnRecords, TurnTable, TurnHeap, HeapOk;
    HeapBelow(live, log, |records|, table, heap);
    TopTurn(records, |log|, table, heap, bound, item);
  }

  lemma {:induction false} TopTurn(records: seq<LogRecord>, n: nat, table: map<TxnId, TxnEntry>, heap: set<HeapItem>,
                                   bound: nat, item: HeapItem)
    requires Ready(records, table, heap, bound) && item in heap
    requires forall x :: x in heap - {item} ==> x.lsn < item.lsn
    ensures var turn := TurnRecords(records, n, table, item);
            UndoRecords(records, n, table, heap, bound) ==
            turn + UndoRecords(records, n + |turn|, TurnTable(records, n, table, item), TurnHeap(records, heap, item),
                               item.lsn)
  {
    hide TurnRecords, TurnTable, TurnHeap;
    assert forall it :: it in heap ==> it == item || it in heap - {item};
  }

  lemma {:induction false} NothingLeft(live: map<TxnId, Live>, log: seq<LogRecord>, records: seq<LogRecord>,
                                       table: map<TxnId, TxnEntry>, bound: nat)
    requires HeapOk(live, log, |records|, table, {})
    ensures live == map[] && UndoRecords(records, |log|, table, {}, bound) == []
  {
    forall t ensures t !in live { assert t in live ==> HasItem({}, t); }
  }

  lemma {:induction false} TopOfTodo(live: map<TxnId, Live>, log: seq<LogRecord>, n: nat, table: map<TxnId, TxnEntry>,
                                     it: HeapItem)
    requires ItemOk(live, log, n, table, it) && log[it.lsn - 1].kind.PageUpdate?
    ensures live[it.txn].todo != [] && live[it.txn].todo[0] == it.lsn
  {
  }

  ghost predicate MayClose(live: map<TxnId, Live>, log: seq<LogRecord>, table: map<TxnId, TxnEntry>, t: TxnId) {
    t in live && live[t].todo == [] && t in table
  }

  lemma {:induction false} LinkAt(log: seq<LogRecord>, i: nat)
    requires LinksOk(log) && i < |log|
    ensures LinkOk(log[..i], log[i].txn, log[i].prevLsn)
  {
  }

  lemma {:induction false} UndoUpdateOk(log: seq<LogRecord>, clr: LogRecord, n: nat, table: map<TxnId, TxnEntry>,
                                        rest: set<HeapItem>, it: HeapItem)
    requires LinksOk(log) && HeapOkBut(Txns(log), log, n, table, rest, it.txn)
    requires ItemOk(Txns(log), log, n, table, it) && log[it.lsn - 1].kind.PageUpdate?
    requires clr.kind.Clr? && clr.txn == it.txn
    ensures var live', table' := Txns(log + [clr]), table[it.txn := table[it.txn].(lastLsn := |log| + 1)];
            && HeapOkBut(live', log + [clr], n, table', rest, it.txn)
            && var prev := log[it.lsn - 1].prevLsn;
               if prev != 0 then ItemOk(live', log + [clr], n, table', HeapItem(prev, it.txn)) && prev < it.lsn
               else MayClose(live', log + [clr], table', it.txn) && LinkOk(log + [clr], it.txn, |log| + 1)
  {
    hide LinksOk, Txns, Chain, HeapOkBut;
    var table' := table[it.txn := table[it.txn].(lastLsn := |log| + 1)];
    LinkAt(log, it.lsn - 1);
    TxnsSnoc(log, clr);
    UndoMoves(Txns(log), log, n, table, it, clr);
    RestKept(Txns(log), Txns(log + [clr]), log, clr, n, table, table', rest, it.txn);
  }

  /** Records that are not undone are walked over. */
  lemma {:induction false} WalkStep(live: map<TxnId, Live>, log: seq<LogRecord>, init: map<PageId, Image>, n: nat,
                                    table: map<TxnId, TxnEntry>, it: HeapItem)
    requires LinksOk(log) && PageRecordsOk(log, init) && ItemOk(live, log, n, table, it)
    requires LinkOk(log, it.txn, live[it.txn].last)
    requires log[it.lsn - 1].kind.PageUpdate? ==> !log[it.lsn - 1].hasPage
    ensures var next := NextLsn(log[it.lsn - 1]);
            if next != 0 then ItemOk(live, log, n, table, HeapItem(next, it.txn)) && next < it.lsn
            else MayClose(live, log, table, it.txn) && LinkOk(log, it.txn, table[it.txn].lastLsn)
  {
    var r := log[it.lsn - 1];
    assert IsPageUpdateRecord(r.kind) ==> r.hasPage;
    assert Chain(log, 0) == [];
    assert LinkOk(log[..it.lsn - 1], r.txn, r.prevLsn) &&
        (r.kind.Clr? ==> LinkOk(log[..it.lsn - 1], r.txn, r.undoNextLsn));
  }

  lemma {:induction false} LastLink(log: seq<LogRecord>, init: map<PageId, Image>, t: TxnId)
    requires LegalLog(log, init) && t in Txns(log)
    ensures LinkOk(log, t, Txns(log)[t].last)
  {
    LegalLogInv(log, init);
    assert LiveOk(log, t, Txns(log)[t]);
  }

  lemma {:induction false} LegalRecords(log: seq<LogRecord>, init: map<PageId, Image>)
    requires LegalLog(log, init)
    ensures PageRecordsOk(log, init)
  {
    LegalLogInv(log, init);
  }

  lemma {:induction false} InitialHeapOk(log: seq<LogRecord>, init: map<PageId, Image>, table: map<TxnId, TxnEntry>)
    requires LegalLog(log, init)
    requires forall t :: IsLoser(table, t) <==> t in Txns(log)
    requires forall t :: t in Txns(log) ==> t in table && table[t].lastLsn == Txns(log)[t].last
    ensures HeapOk(Txns(log), log, |log|, table, FirstHeap(table))
  {
    LegalLogInv(log, init);
    forall t | t in Txns(log)
      ensures HasItem(FirstHeap(table), t) && ItemOk(Txns(log), log, |log|, table, HeapItem(table[t].lastLsn, t))
    {
      assert LiveOk(log, t, Txns(log)[t]);
      assert HeapItem(table[t].lastLsn, t) in FirstHeap(table);
    }
  }

  /** ---------- Where the ABORT records point ---------- */

  /** A record undo may stand at: of the transaction, and neither its end nor a checkpoint. */
  ghost predicate WithinTxn(log: seq<LogRecord>, t: TxnId, l: Lsn) {
    && 1 <= l <= |log| && log[l - 1].txn == t
    && !IsTxnEndRecord(log[l - 1].kind) && !IsCheckpointRecord(log[l - 1].kind)
  }

  /** The walk back leaves a transaction only at its BEGIN record. */
  lemma {:induction false} WalkEndsAtBegin(log: seq<LogRecord>, init: map<PageId, Image>, t: TxnId, l: Lsn)
    requires LegalLog(log, init) && WithinTxn(log, t, l)
    ensures NextLsn(log[l - 1]) == 0 <==> log[l - 1].kind.Begin?
    ensures NextLsn(log[l - 1]) != 0 ==> WithinTxn(log, t, NextLsn(log[l - 1]))
  {
    hide LegalLog, Inv, Txns;
    var r := log[l - 1];
    LegalAt(log, init, l - 1);
    if r.kind.PageUpdate? {
      LinkWithin(log, init, l - 1);
    } else if r.kind.Clr? {
      ClrMatchesUpdate(log, init, l - 1);
      LinkWithin(log, init, Compensated(log, l - 1) - 1);
    }
  }

  lemma {:induction false} LinkWithin(log: seq<LogRecord>, init: map<PageId, Image>, i: nat)
    requires LegalLog(log, init) && i < |log| && log[i].kind.PageUpdate?
    ensures WithinTxn(log, log[i].txn, log[i].prevLsn)
  {
    hide LegalLog, Txns, PageOk, TodoComplete, PageRecordsOk;
    LegalAt(log, init, i);
    assert LiveOk(log[..i], log[i].txn, Txns(log[..i])[log[i].txn]);
  }

  lemma {:induction false} LastWithin(log: seq<LogRecord>, init: map<PageId, Image>, t: TxnId)
    requires LegalLog(log, init) && t in Txns(log)
    ensures WithinTxn(log, t, Txns(log)[t].last)
  {
    hide LegalLog, Txns, PageOk, TodoComplete, PageRecordsOk;
    LegalLogInv(log, init);
    assert LiveOk(log, t, Txns(log)[t]);
  }

  ghost predicate AllWithin(log: seq<LogRecord>, heap: set<HeapItem>) {
    forall it :: it in heap ==> WithinTxn(log, it.txn, it.lsn)
  }

  ghost predicate AbortsLink(log: seq<LogRecord>, undone: seq<LogRecord>) {
    forall i :: 0 <= i < |undone| && undone[i].kind.Abort? ==> LinksToBegin(log, undone[i])
  }

  ghost predicate LinksToBegin(log: seq<LogRecord>, r: LogRecord) {
    1 <= r.prevLsn <= |log| && log[r.prevLsn - 1].kind.Begin? && log[r.prevLsn - 1].txn == r.txn
  }

  lemma {:induction false} TurnWithin(log: seq<LogRecord>, init: map<PageId, Image>, n: nat,
                                      table: map<TxnId, TxnEntry>, heap: set<HeapItem>, it: HeapItem)
    requires LegalLog(log, init) && AllWithin(log, heap) && it in heap && it.txn in table && 1 <= it.lsn <= |log|
    ensures AbortsLink(log, TurnRecords(log, n, table, it)) && AllWithin(log, TurnHeap(log, heap, it))
  {
    hide LegalLog;
    WalkEndsAtBegin(log, init, it.txn, it.lsn);
  }

  lemma {:induction false} AbortsFrom(log: seq<LogRecord>, init: map<PageId, Image>, n: nat,
                                      table: map<TxnId, TxnEntry>, heap: set<HeapItem>, bound: nat)
    requires LegalLog(log, init) && AllWithin(log, heap)
    ensures AbortsLink(log, UndoRecords(log, n, table, heap, bound))
    decreases bound
  {
    hide LegalLog, AbortsLink, AllWithin, TurnRecords, TurnTable, TurnHeap;
    if !Ready(log, table, heap, bound) {
      NoneLink(log);
    } else {
      var it := TopOf(heap);
      TurnWithin(log, init, n, table, heap, it);
      var turn := TurnRecords(log, n, table, it);
      AbortsFrom(log, init, n + |turn|, TurnTable(log, n, table, it), TurnHeap(log, heap, it), it.lsn);
      BothLink(log, turn, UndoRecords(log, n + |turn|, TurnTable(log, n, table, it), TurnHeap(log, heap, it), it.lsn));
    }
  }

  lemma NoneLink(log: seq<LogRecord>)
    ensures AbortsLink(log, [])
  {
  }

  lemma BothLink(log: seq<LogRecord>, a: seq<LogRecord>, b: seq<LogRecord>)
    requires AbortsLink(log, a) && AbortsLink(log, b)
    ensures AbortsLink(log, a + b)
  {
  }

  /** Every ABORT record that recovery appends names the BEGIN record of its transaction. */
  lemma {:induction false} AbortsNameBegin(log: seq<LogRecord>, init: map<PageId, Image>, disk: map<PageId, Page>,
                                           master: Lsn)
    requires CrashState(log, init, disk, master)
    ensures AbortsLink(log, Undone(log, master))
  {
    hide LegalLog, Harmless, AreVersions, MasterOk, TxnTable, UndoRecords, Txns, AbortsLink, LiveOk, WithinTxn;
    AnalysisExact(log, init, master);
    var table := TxnTable(log, master, |log|);
    forall it | it in FirstHeap(table) ensures WithinTxn(log, it.txn, it.lsn) { LastWithin(log, init, it.txn); }
    AbortsFrom(log, init, |log|, table, FirstHeap(table), |log| + 1);
  }
}
