/** The running engine: transactions, logged page changes, rollback, page flushes and
    fuzzy checkpoints. Each method is one step that the others may interleave with;
    every step keeps `Valid`, and whatever a crash leaves of a valid engine is a
    state recovery repairs. */
module Engine {
  import opened WalRecords
  import opened History
  import opened HistoryProofs
  import opened Analysis
  import opened UndoPass
  import opened Recovery

  datatype ActiveTxn = ActiveTxn(state: TxnState, lastLsn: Lsn)

  /** How far CreateCheckpoint has got. */
  datatype Checkpoint =
    | Idle
    | Begun(beginLsn: Lsn)
    | TxnsRead(beginLsn: Lsn, txns: seq<CheckpointTxn>)
    | PagesRead(beginLsn: Lsn, txns: seq<CheckpointTxn>, dirty: seq<DirtyPage>)
    | Ended(beginLsn: Lsn)

  /** ---------- Relations between the parts of the engine ---------- */

  ghost predicate ActiveMatches(x: ActiveTxn, l: Live) {
    && x.lastLsn == l.last
    && (x.state.Active? || x.state.Waiting? || x.state.Aborting?)
    && (l.aborting ==> x.state.Aborting?)
  }

  ghost predicate TxnsMatch(active: map<TxnId, ActiveTxn>, live: map<TxnId, Live>) {
    active.Keys == live.Keys && forall t :: t in active ==> ActiveMatches(active[t], live[t])
  }

  /** The dirty page table has every page with a write that is not on disk, from the
      first such write on. */
  ghost predicate DirtyTableOk(log: seq<LogRecord>, disk: map<PageId, Page>, dirty: map<PageId, Lsn>) {
    && (forall p, i :: p in disk && 0 <= i < |log| && WritesPage(log[i], p) && disk[p].lsn < i + 1 ==>
               DirtyBy(dirty, p, i + 1))
    && forall p :: p in dirty ==> IsMissing(log, disk, p, dirty[p])
  }

  /** The record with this LSN writes the page and the disk does not have it. */
  ghost predicate IsMissing(log: seq<LogRecord>, disk: map<PageId, Page>, p: PageId, l: Lsn) {
    1 <= l <= |log| && WritesPage(log[l - 1], p) && p in disk && disk[p].lsn < l
  }

  /** The table has exactly the pages with a missing write, each from its first one on. */
  lemma {:induction false} DirtyTableExact(log: seq<LogRecord>, disk: map<PageId, Page>, dirty: map<PageId, Lsn>,
                                           p: PageId)
    requires DirtyTableOk(log, disk, dirty) && p in disk
    ensures p in dirty <==> LastWrite(log, p) > disk[p].lsn
    ensures p in dirty ==>
              IsMissing(log, disk, p, dirty[p]) && forall l :: IsMissing(log, disk, p, l) ==> dirty[p] <= l
  {
    if LastWrite(log, p) > disk[p].lsn { assert DirtyBy(dirty, p, LastWrite(log, p) - 1 + 1); }
    forall l | IsMissing(log, disk, p, l) ensures p in dirty && dirty[p] <= l { assert DirtyBy(dirty, p, l - 1 + 1); }
  }

  /** The list has each page of the table once, with its LSN. */
  ghost predicate IsDirtyList(ds: seq<DirtyPage>, dirty: map<PageId, Lsn>) {
    && (forall i :: 0 <= i < |ds| ==> ds[i].page in dirty && ds[i].recLsn == dirty[ds[i].page])
    && (forall i, j :: 0 <= i < j < |ds| ==> ds[i].page != ds[j].page)
    && forall p :: p in dirty ==> Covers(ds, p, dirty[p])
  }

  /** The list has every transaction of the table as it is there. */
  ghost predicate IsTxnList(xs: seq<CheckpointTxn>, active: map<TxnId, ActiveTxn>) {
    && (forall i :: 0 <= i < |xs| ==>
          xs[i].txn in active
          && xs[i] == CheckpointTxn(xs[i].txn, active[xs[i].txn].state, active[xs[i].txn].lastLsn))
    && forall t :: t in active ==> exists i :: 0 <= i < |xs| && xs[i].txn == t
  }

  ghost predicate ListCovers(log: seq<LogRecord>, disk: map<PageId, Page>, b: Lsn, list: seq<DirtyPage>) {
    b <= |log| && forall p :: p in disk && disk[p].lsn < LastWrite(log[..b], p) ==>
        Covers(list, p, LastWrite(log[..b], p))
  }

  ghost predicate ListTaken(log: seq<LogRecord>, b: Lsn, txns: seq<CheckpointTxn>) {
    exists a :: b <= a <= |log| && SnapshotOf(txns, Txns(log[..a]))
  }

  ghost predicate DurableEnd(log: seq<LogRecord>, durable: nat, disk: map<PageId, Page>, b: Lsn) {
    exists e: nat :: e < durable && Completes(log, disk, b, e)
  }

  ghost predicate CheckpointOk(log: seq<LogRecord>, durable: nat, disk: map<PageId, Page>, master: Lsn, c: Checkpoint) {
    match c
    case Idle => true
    case Begun(b) => BeganAt(log, master, b)
    case TxnsRead(b, xs) => BeganAt(log, master, b) && ListTaken(log, b, xs)
    case PagesRead(b, xs, ds) => BeganAt(log, master, b) && ListTaken(log, b, xs) && ListCovers(log, disk, b, ds)
    case Ended(b) =>
      1 <= b <= |log| && master <= b && DurableEnd(log, durable, disk, b) && HarmlessFrom(log, durable, b)
  }

  /** The running checkpoint began after the one the master record names, and no other
      checkpoint ended since. */
  ghost predicate BeganAt(log: seq<LogRecord>, master: Lsn, b: Lsn) {
    1 <= b <= |log| && master <= b && log[b - 1].kind.BeginCheckpoint? && log[b - 1].txn == 0 && NoListSince(log, b)
  }

  /** Whatever part of the log beyond the durable records a crash leaves, Analysis from the
      checkpoint is right. */
  ghost predicate HarmlessFrom(log: seq<LogRecord>, durable: nat, master: Lsn) {
    forall n :: durable <= n <= |log| ==> Harmless(log[..n], master)
  }

  ghost predicate DurableMaster(log: seq<LogRecord>, durable: nat, disk: map<PageId, Page>, master: Lsn) {
    master <= |log| && (master == 0 || DurableEnd(log, durable, disk, master)) && HarmlessFrom(log, durable, master)
  }

  /** ---------- Each part grows with the log ---------- */

  lemma {:induction false} ListTakenGrows(log: seq<LogRecord>, r: LogRecord, b: Lsn, xs: seq<CheckpointTxn>)
    requires ListTaken(log, b, xs)
    ensures ListTaken(log + [r], b, xs)
  {
    var a :| b <= a <= |log| && SnapshotOf(xs, Txns(log[..a]));
    assert (log + [r])[..a] == log[..a];
  }

  lemma {:induction false} EndGrows(log: seq<LogRecord>, durable: nat, durable': nat, r: LogRecord,
                                    disk: map<PageId, Page>, b: Lsn)
    requires DurableEnd(log, durable, disk, b) && durable <= durable'
    ensures DurableEnd(log + [r], durable', disk, b)
  {
    var e: nat :| e < durable && Completes(log, disk, b, e);
    assert (log + [r])[..b] == log[..b];
    assert Completes(log + [r], disk, b, e);
  }

  lemma {:induction false} HarmlessGrows(log: seq<LogRecord>, init: map<PageId, Image>, durable: nat, r: LogRecord,
                                         b: Lsn)
    requires HarmlessFrom(log, durable, b) && durable <= |log| && b <= |log|
    requires LegalLog(log + [r], init) && !r.kind.EndCheckpoint?
    ensures HarmlessFrom(log + [r], durable, b)
  {
    hide LegalLog, Harmless;
    assert log[..|log|] == log;
    HarmlessSnoc(log, init, r, b);
    HarmlessUpTo(log, durable, r, b);
  }

  lemma {:induction false} HarmlessUpTo(log: seq<LogRecord>, durable: nat, r: LogRecord, b: Lsn)
    requires HarmlessFrom(log, durable, b) && Harmless(log + [r], b)
    ensures HarmlessFrom(log + [r], durable, b)
  {
    hide Harmless;
    var ext := log + [r];
    forall n | durable <= n <= |ext| ensures Harmless(ext[..n], b) {
      if n <= |log| { assert ext[..n] == log[..n]; } else { assert ext[..n] == ext; }
    }
  }

  /** Any record but an END_CHECKPOINT leaves the checkpoint bookkeeping alone. */
  lemma {:induction false} CheckpointGrows(log: seq<LogRecord>, init: map<PageId, Image>, durable: nat, r: LogRecord,
                                           disk: map<PageId, Page>, master: Lsn, c: Checkpoint)
    requires CheckpointOk(log, durable, disk, master, c) && DurableMaster(log, durable, disk, master)
    requires LegalLog(log + [r], init) && !r.kind.EndCheckpoint? && durable <= |log|
    ensures CheckpointOk(log + [r], durable, disk, master, c) && DurableMaster(log + [r], durable, disk, master)
  {
    hide LegalLog, HarmlessFrom, DurableEnd, ListTaken;
    if !c.Idle? {
      if !c.Begun? && !c.Ended? { ListTakenGrows(log, r, c.beginLsn, c.txns); }
      assert (log + [r])[..c.beginLsn] == log[..c.beginLsn];
      if c.Ended? {
        EndGrows(log, durable, durable, r, disk, c.beginLsn);
        HarmlessGrows(log, init, durable, r, c.beginLsn);
      }
    }
    if master != 0 { EndGrows(log, durable, durable, r, disk, master); }
    HarmlessGrows(log, init, durable, r, master);
  }

  /** ---------- Writing one page back ---------- */

  lemma {:induction false} EndFlush(log: seq<LogRecord>, durable: nat, disk: map<PageId, Page>, p: PageId, page: Page,
                                    b: Lsn)
    requires DurableEnd(log, durable, disk, b) && p in disk && disk[p].lsn <= page.lsn
    ensures DurableEnd(log, durable, disk[p := page], b)
  {
    var e: nat :| e < durable && Completes(log, disk, b, e);
    assert Completes(log, disk[p := page], b, e);
  }

  lemma {:induction false} CheckpointFlush(log: seq<LogRecord>, durable: nat, disk: map<PageId, Page>, p: PageId,
                                           page: Page, master: Lsn, c: Checkpoint)
    requires DurableMaster(log, durable, disk, master) && CheckpointOk(log, durable, disk, master, c)
    requires p in disk && disk[p].lsn <= page.lsn
    ensures DurableMaster(log, durable, disk[p := page], master)
    ensures CheckpointOk(log, durable, disk[p := page], master, c)
  {
    if master != 0 { EndFlush(log, durable, disk, p, page, master); }
    if c.Ended? { EndFlush(log, durable, disk, p, page, c.beginLsn); }
  }

  lemma {:induction false} DirtyFlush(log: seq<LogRecord>, disk: map<PageId, Page>, dirty: map<PageId, Lsn>, p: PageId,
                                      page: Page)
    requires DirtyTableOk(log, disk, dirty) && page.lsn == LastWrite(log, p)
    ensures DirtyTableOk(log, disk[p := page], dirty - {p})
  {
  }

  /** A flushed page is the version of a durable record, no older than the one on disk. */
  lemma {:induction false} VersionsFlush(log: seq<LogRecord>, durable: nat, init: map<PageId, Image>,
                                         pages: map<PageId, Page>, disk: map<PageId, Page>, p: PageId)
    requires durable <= |log| && Current(log, init, pages) && AreVersions(log[..durable], init, disk)
    requires p in pages && pages[p].lsn <= durable
    ensures AreVersions(log[..durable], init, disk[p := pages[p]]) && disk[p].lsn <= pages[p].lsn
  {
  }

  /** ---------- States and steps ---------- */

  datatype State = State(
    log: seq<LogRecord>,
    durable: nat,                     // records the log file surely holds
    persistent: Lsn,                  // the log manager's persistent LSN
    pages: map<PageId, Page>,         // pages through the buffer pool
    disk: map<PageId, Page>,          // pages on disk
    dirty: map<PageId, Lsn>,          // the buffer pool's dirty page table
    active: map<TxnId, ActiveTxn>,
    nextTxnId: TxnId,
    master: Lsn,
    checkpoint: Checkpoint)

  ghost predicate LogOk(s: State, init: map<PageId, Image>) {
    && LegalLog(s.log, init) && s.durable <= |s.log|
    && TxnsMatch(s.active, Txns(s.log)) && (forall t :: t in s.active ==> t < s.nextTxnId)
  }

  ghost predicate PagesOk(s: State, init: map<PageId, Image>) {
    && s.durable <= |s.log|
    && Current(s.log, init, s.pages)
    && AreVersions(s.log[..s.durable], init, s.disk)
    && DirtyTableOk(s.log, s.disk, s.dirty)
  }

  ghost predicate CheckpointsOk(s: State) {
    DurableMaster(s.log, s.durable, s.disk, s.master) && CheckpointOk(s.log, s.durable, s.disk, s.master, s.checkpoint)
  }

  /** The persistent LSN is beyond the log only until the first record since opening. */
  ghost predicate FlushesOk(s: State) {
    && FlushOk(s.log, s.durable, s.persistent)
    && (s.persistent <= |s.log| || (s.active == map[] && s.checkpoint.Idle?))
  }

  ghost predicate Ok(s: State, init: map<PageId, Image>) {
    LogOk(s, init) && FlushesOk(s) && PagesOk(s, init) && CheckpointsOk(s)
  }

  /** What FlushUpTo(lsn) does: it flushes everything, or nothing. */
  function Flushed(s: State, lsn: Lsn): State {
    if lsn <= s.persistent then s else s.(durable := |s.log|, persistent := Min(lsn, |s.log| + 1))
  }

  lemma {:induction false} FlushLogOk(s: State, init: map<PageId, Image>, lsn: Lsn)
    requires Ok(s, init) && lsn <= |s.log|
    ensures Ok(Flushed(s, lsn), init)
  {
    if lsn > s.persistent { AllDurable(s, init); }
  }

  lemma {:induction false} AllDurable(s: State, init: map<PageId, Image>)
    requires LogOk(s, init) && PagesOk(s, init) && CheckpointsOk(s)
    ensures LogOk(s.(durable := |s.log|), init) && PagesOk(s.(durable := |s.log|), init)
    ensures CheckpointsOk(s.(durable := |s.log|))
  {
    hide LegalLog, Current, DirtyTableOk, Harmless, Txns;
    assert s.log[..|s.log|] == s.log;
    VersionsGrow(s.log[..s.durable], s.log, init, s.disk);
  }

  /** The write-ahead rule: no page change is the record that FlushUpTo leaves behind. */
  lemma {:induction false} WriteAhead(s: State, init: map<PageId, Image>, p: PageId)
    requires Ok(s, init) && p in s.pages && s.pages[p].lsn <= s.persistent
    ensures s.pages[p].lsn <= s.durable
  {
    hide LegalLog, AreVersions, DirtyTableOk, CheckpointsOk, TxnsMatch;
    assert IsCurrent(s.log, init, p, s.pages[p]);
  }

  lemma {:induction false} FlushPageOk(s: State, init: map<PageId, Image>, p: PageId)
    requires Ok(s, init) && p in s.pages && s.pages[p].lsn <= s.durable
    ensures Ok(s.(disk := s.disk[p := s.pages[p]], dirty := s.dirty - {p}), init)
  {
    VersionsFlush(s.log, s.durable, init, s.pages, s.disk, p);
    DirtyFlush(s.log, s.disk, s.dirty, p, s.pages[p]);
    CheckpointFlush(s.log, s.durable, s.disk, p, s.pages[p], s.master, s.checkpoint);
  }

  /** Records that are neither page changes nor END_CHECKPOINT. */
  lemma {:induction false} AppendOk(s: State, init: map<PageId, Image>, r: LogRecord, active: map<TxnId, ActiveTxn>,
                                    next: TxnId)
    requires Ok(s, init) && Enabled(s.log, init, r) && !IsPageUpdateRecord(r.kind) && !r.kind.EndCheckpoint?
    requires TxnsMatch(active, ApplyTxn(Txns(s.log), |s.log| + 1, r)) && forall t :: t in active ==> t < next
    ensures Ok(s.(log := s.log + [r], active := active, nextTxnId := next), init)
  {
    hide LegalLog, Txns, Current, AreVersions, DirtyTableOk, DurableMaster, CheckpointOk, Enabled, ApplyTxn, TxnsMatch;
    HistorySnoc(s.log, init, r);
    TxnsSnoc(s.log, r);
    CurrentSnoc(s.log, init, s.pages, r);
    DirtyQuiet(s.log, s.disk, s.dirty, r);
    CheckpointGrows(s.log, init, s.durable, r, s.disk, s.master, s.checkpoint);
    assert (s.log + [r])[..s.durable] == s.log[..s.durable];
  }

  lemma {:induction false} DirtyQuiet(log: seq<LogRecord>, disk: map<PageId, Page>, dirty: map<PageId, Lsn>,
                                      r: LogRecord)
    requires DirtyTableOk(log, disk, dirty) && !IsPageUpdateRecord(r.kind)
    ensures DirtyTableOk(log + [r], disk, dirty)
  {
  }

  /** UnpinPage with the dirty flag, after the page LSN was set. */
  function MarkDirty(dirty: map<PageId, Lsn>, p: PageId, lsn: Lsn): map<PageId, Lsn> {
    dirty[p := if p in dirty then Min(dirty[p], lsn) else lsn]
  }

  lemma {:induction false} DirtyWrite(log: seq<LogRecord>, disk: map<PageId, Page>, dirty: map<PageId, Lsn>,
                                      r: LogRecord)
    requires DirtyTableOk(log, disk, dirty) && IsPageUpdateRecord(r.kind) && r.hasPage
    requires r.page in disk && disk[r.page].lsn <= |log|
    ensures DirtyTableOk(log + [r], disk, MarkDirty(dirty, r.page, |log| + 1))
  {
  }

  /** The state after a page record: log, modify, mark dirty. */
  ghost function Written(s: State, r: LogRecord, x: ActiveTxn): State {
    s.(log := s.log + [r], pages := s.pages[r.page := Page(r.after, |s.log| + 1)],
       dirty := MarkDirty(s.dirty, r.page, |s.log| + 1), active := s.active[r.txn := x])
  }

  lemma {:induction false} WriteOk(s: State, init: map<PageId, Image>, r: LogRecord, x: ActiveTxn)
    requires Ok(s, init) && Enabled(s.log, init, r) && IsPageUpdateRecord(r.kind)
    requires r.txn in s.active && x.lastLsn == |s.log| + 1
    requires if r.kind.Clr? then x.state.Aborting? else x.state == s.active[r.txn].state
    ensures r.hasPage && r.page in s.pages
    ensures Ok(Written(s, r, x), init)
  {
    hide LegalLog, Current, DirtyTableOk, AreVersions, DurableMaster, CheckpointOk, Enabled, TxnsMatch;
    WriteLogOk(s, init, r, x);
    assert r.page in s.pages by { SamePages(s, init); }
    WritePagesOk(s.log, s.durable, init, s.pages, s.disk, s.dirty, r);
    CheckpointGrows(s.log, init, s.durable, r, s.disk, s.master, s.checkpoint);
  }

  lemma {:induction false} WriteLogOk(s: State, init: map<PageId, Image>, r: LogRecord, x: ActiveTxn)
    requires LogOk(s, init) && Enabled(s.log, init, r) && IsPageUpdateRecord(r.kind)
    requires r.txn in s.active && x.lastLsn == |s.log| + 1
    requires if r.kind.Clr? then x.state.Aborting? else x.state == s.active[r.txn].state
    ensures LogOk(Written(s, r, x), init) && r.hasPage && r.page in init
  {
    assert r.kind.Clr? ==> Txns(s.log)[r.txn].todo != [];
    assert LegalLog(s.log + [r], init) && r.hasPage && r.page in init by {
      HistorySnoc(s.log, init, r);
      LegalRecords(s.log + [r], init);
      assert (s.log + [r])[|s.log|] == r;
    }
    hide LegalLog, Enabled;
    WriteMatches(s.active, Txns(s.log), |s.log| + 1, r, x);
    TxnsSnoc(s.log, r);
  }

  lemma {:induction false} WritePagesOk(log: seq<LogRecord>, durable: nat, init: map<PageId, Image>,
                                        pages: map<PageId, Page>, disk: map<PageId, Page>, dirty: map<PageId, Lsn>,
                                        r: LogRecord)
    requires durable <= |log| && IsPageUpdateRecord(r.kind) && r.hasPage && r.page in pages
    requires Current(log, init, pages) && AreVersions(log[..durable], init, disk) && DirtyTableOk(log, disk, dirty)
    ensures Current(log + [r], init, pages[r.page := Page(r.after, |log| + 1)])
    ensures AreVersions((log + [r])[..durable], init, disk)
    ensures DirtyTableOk(log + [r], disk, MarkDirty(dirty, r.page, |log| + 1))
  {
    assert r.page in disk && disk[r.page].lsn <= |log| by {
      assert IsVersion(log[..durable], init, r.page, disk[r.page]);
    }
    hide Current, DirtyTableOk, AreVersions;
    assert WritesPage(r, r.page);
    CurrentSnoc(log, init, pages, r);
    DirtyWrite(log, disk, dirty, r);
    assert (log + [r])[..durable] == log[..durable];
  }

  lemma {:induction false} ChangeEnabled(s: State, init: map<PageId, Image>, r: LogRecord)
    requires Ok(s, init) && r.kind.PageUpdate? && r.hasPage && r.page in s.pages && r.txn in s.active
    requires !s.active[r.txn].state.Aborting? && r.prevLsn == s.active[r.txn].lastLsn
    requires r.before == s.pages[r.page].content && |r.before| == |r.after| == PAGE_SIZE
    requires Exclusive(Txns(s.log), s.log, r.txn, r.page)
    ensures Enabled(s.log, init, r)
  {
  }

  lemma {:induction false} PageLsnInLog(s: State, init: map<PageId, Image>, p: PageId)
    requires Ok(s, init) && p in s.pages
    ensures s.pages[p].lsn <= |s.log|
  {
  }

  lemma {:induction false} WriteMatches(active: map<TxnId, ActiveTxn>, live: map<TxnId, Live>, lsn: Lsn, r: LogRecord,
                                        x: ActiveTxn)
    requires TxnsMatch(active, live) && IsPageUpdateRecord(r.kind) && r.txn in active && x.lastLsn == lsn
    requires if r.kind.Clr? then x.state.Aborting? && live[r.txn].todo != [] else x.state == active[r.txn].state
    ensures TxnsMatch(active[r.txn := x], ApplyTxn(live, lsn, r))
  {
  }

  /** Transactions other than t are where they were, as far as they are still active. */
  ghost predicate OthersSame(active: map<TxnId, ActiveTxn>, active': map<TxnId, ActiveTxn>, t: TxnId) {
    forall u :: u in active' && u != t ==> u in active && active'[u] == active[u]
  }

  /** The log grew without new page changes: CLRs and end records only. */
  ghost predicate NoUpdatesSince(log: seq<LogRecord>, log': seq<LogRecord>) {
    log <= log' && forall i :: |log| <= i < |log'| ==> !log'[i].kind.PageUpdate?
  }

  lemma {:induction false} NoUpdatesGrows(log: seq<LogRecord>, log': seq<LogRecord>, r: LogRecord)
    requires NoUpdatesSince(log, log') && !r.kind.PageUpdate?
    ensures NoUpdatesSince(log, log' + [r])
  {
  }

  /** ---------- The engine ---------- */

  class Engine {
    var log: seq<LogRecord>
    var durable: nat
    var persistent: Lsn
    var pages: map<PageId, Page>
    var disk: map<PageId, Page>
    var dirty: map<PageId, Lsn>
    var active: map<TxnId, ActiveTxn>
    var nextTxnId: TxnId
    var master: Lsn
    var checkpoint: Checkpoint
    ghost const init: map<PageId, Image>

    ghost function Now(): State
      reads this
    {
      State(log, durable, persistent, pages, disk, dirty, active, nextTxnId, master, checkpoint)
    }

    ghost predicate Valid()
      reads this
    {
      Ok(Now(), init)
    }

    /** Opening the engine on what recovery leaves behind: its pages are flushed, the log
        manager is where it was, and transaction ids start again at 1. */
    constructor (log: seq<LogRecord>, durable: nat, persistent: Lsn, pages: map<PageId, Page>, master: Lsn,
                 ghost init: map<PageId, Image>)
      requires LegalLog(log, init) && Txns(log) == map[] && Current(log, init, pages)
      requires FlushOk(log, durable, persistent) && AreVersions(log[..durable], init, pages)
      requires forall n :: durable <= n <= |log| ==> CrashState(log[..n], init, pages, master)
      ensures Valid() && this.init == init
      ensures Now() == State(log, durable, persistent, pages, pages, map[], map[], 1, master, Idle)
    {
      this.log, this.durable, this.persistent, this.pages, this.disk := log, durable, persistent, pages, pages;
      this.dirty, this.active, this.nextTxnId := map[], map[], 1;
      this.master, this.checkpoint := master, Idle;
      this.init := init;
      new;
      OpenOk(Now(), init);
    }

    /** ---------- Log manager and buffer pool steps ---------- */

    /** A record is durable afterwards, unless it is the first one since opening, and that
        one changes no page. */
    method FlushUpTo(lsn: Lsn)
      requires FlushOk(log, durable, persistent) && lsn <= |log|
      modifies this`durable, this`persistent
      ensures Now() == Flushed(old(Now()), lsn) && FlushOk(log, durable, persistent)
      ensures old(Valid()) ==> Valid()
      ensures lsn <= durable || (lsn == persistent == old(durable) + 1 && !IsPageUpdateRecord(log[lsn - 1].kind))
    {
      hide Ok;
      if Valid() { FlushLogOk(Now(), init, lsn); }
      if lsn <= persistent { return; }
      durable, persistent := |log|, Min(lsn, |log| + 1);
    }

    /** A dirty page goes to disk after the log record its LSN names. */
    method FlushFrame(p: PageId)
      requires Valid() && p in pages
      modifies this`durable, this`persistent, this`disk, this`dirty
      ensures Valid() && old(durable) <= durable
      ensures p in old(dirty) ==>
                disk == old(disk)[p := pages[p]] && dirty == old(dirty) - {p} && pages[p].lsn <= durable
      ensures p !in old(dirty) ==> Now() == old(Now())
    {
      hide Ok;
      if p !in dirty { return; }
      PageLsnInLog(Now(), init, p);
      OkFlushes(Now(), init);
      FlushUpTo(pages[p].lsn);
      if pages[p].lsn <= persistent { WriteAhead(Now(), init, p); }
      WriteBack(p);
    }

    method WriteBack(p: PageId)
      requires Valid() && p in pages && pages[p].lsn <= durable
      modifies this`disk, this`dirty
      ensures Valid() && disk == old(disk)[p := pages[p]] && dirty == old(dirty) - {p}
    {
      hide Ok;
      FlushPageOk(Now(), init, p);
      disk := disk[p := pages[p]];
      dirty := dirty - {p};
    }

    /** ---------- Transactions ---------- */

    method Begin() returns (t: TxnId)
      requires Valid()
      modifies this`log, this`active, this`nextTxnId
      ensures Valid() && t == old(nextTxnId) && t !in old(active) && nextTxnId == t + 1
      ensures log == old(log) + [MakeTxnRecord(RecordType.Begin, t, 0)]
      ensures active == old(active)[t := ActiveTxn(Active, |log|)]
    {
      hide Ok;
      t := nextTxnId;
      var begin := MakeTxnRecord(RecordType.Begin, t, 0);
      BeginTxnOk(Now(), init, begin);
      nextTxnId := nextTxnId + 1;
      log, active := log + [begin], active[t := ActiveTxn(Active, |log| + 1)];
    }

    /** True means the COMMIT record is durable. */
    method Commit(t: TxnId) returns (ok: bool)
      requires Valid() && t in active
      modifies this`log, this`active, this`durable, this`persistent
      ensures Valid()
      ensures ok <==> !old(active)[t].state.Aborting?
      ensures ok ==> log == old(log) + [MakeTxnRecord(RecordType.Commit, t, old(active)[t].lastLsn)]
                     && active == old(active) - {t} && durable == |log|
      ensures !ok ==> Now() == old(Now())
    {
      if active[t].state.Aborting? { return false; }
      var commit := MakeTxnRecord(RecordType.Commit, t, active[t].lastLsn);
      hide Ok;
      OkFlushes(Now(), init);
      CommitOk(Now(), init, commit);
      log, active := log + [commit], active - {t};
      FlushUpTo(|log|);
      ok := true;
    }

    /** Appends a page record, stamps the page with its LSN and unpins it dirty. */
    method LogAndApply(r: LogRecord) returns (lsn: Lsn)
      requires Valid() && IsPageUpdateRecord(r.kind) && Enabled(log, init, r)
      requires r.txn in active && (r.kind.Clr? ==> active[r.txn].state.Aborting?)
      modifies this`log, this`active, this`pages, this`dirty
      ensures Valid() && lsn == |log| && log == old(log) + [r] && r.page in old(pages)
      ensures active == old(active)[r.txn := old(active)[r.txn].(lastLsn := lsn)]
      ensures pages == old(pages)[r.page := Page(r.after, lsn)] && dirty == MarkDirty(old(dirty), r.page, lsn)
    {
      hide Ok, Enabled;
      lsn := |log| + 1;
      WriteOk(Now(), init, r, active[r.txn].(lastLsn := lsn));
      log, active := log + [r], active[r.txn := active[r.txn].(lastLsn := lsn)];
      pages, dirty := pages[r.page := Page(r.after, lsn)], MarkDirty(dirty, r.page, lsn);
    }

    /** A logged change of page p: the caller's table lock makes t its only writer. */
    method ChangePage(t: TxnId, op: PageOp, p: PageId, after: Image) returns (lsn: Lsn)
      requires Valid() && t in active && !active[t].state.Aborting?
      requires p in pages && |pages[p].content| == |after| == PAGE_SIZE
      requires Exclusive(Txns(log), log, t, p)
      modifies this`log, this`active, this`pages, this`dirty
      ensures Valid() && lsn == |log|
      ensures log == old(log) + [MakePageImageLogRecord(PageUpdate(op), t, old(active)[t].lastLsn, p,
                                                        old(pages)[p].content, after)]
      ensures pages == old(pages)[p := Page(after, lsn)] && dirty == MarkDirty(old(dirty), p, lsn)
      ensures active == old(active)[t := old(active)[t].(lastLsn := lsn)]
    {
      var rec := MakePageImageLogRecord(PageUpdate(op), t, active[t].lastLsn, p, pages[p].content, after);
      ChangeEnabled(Now(), init, rec);
      lsn := LogAndApply(rec);
    }

    /** TryMarkAborting: from here on the transaction only compensates. */
    method MarkAborting(t: TxnId)
      requires Valid() && t in active
      modifies this`active
      ensures Valid() && active == old(active)[t := old(active)[t].(state := Aborting)]
    {
      active := active[t := active[t].(state := Aborting)];
      assert ActiveMatches(old(active)[t], Txns(log)[t]);
    }

    /** One turn of the rollback loop, at the record with LSN `current`. */
    method RollbackStep(t: TxnId, current: Lsn) returns (next: Lsn)
      requires Valid() && t in active && active[t].state.Aborting?
      requires Stands(Txns(log), log, t, current) && current != 0
      modifies this`log, this`active, this`pages, this`dirty
      ensures Valid() && t in active && active[t].state.Aborting? && active.Keys == old(active).Keys
      ensures Stands(Txns(log), log, t, next) && next < current
      ensures OthersSame(old(active), active, t) && NoUpdatesSince(old(log), log)
      ensures if old(log)[current - 1].kind.PageUpdate?
              then log == old(log) + [MakeClrPageUndoRecord(t, old(active)[t].lastLsn, old(log)[current - 1].prevLsn,
                                                            old(log)[current - 1].page, old(log)[current - 1].before)]
              else Now() == old(Now())
    {
      hide Ok, Enabled, MayAppend;
      var rec := log[current - 1];
      StandsHere(Now(), init, t, current);
      ClrEnabled(Now(), init, t, current);
      next := NextLsn(rec);
      if rec.kind.PageUpdate? && rec.hasPage {
        var clr := MakeClrPageUndoRecord(t, active[t].lastLsn, rec.prevLsn, rec.page, rec.before);
        StandsAfterClr(log, t, current, clr);
        var _ := LogAndApply(clr);
      }
    }

    /** RollbackTransaction: walks the transaction's records back and compensates every
        page change, then flushes the pages. */
    method RollbackTransaction(t: TxnId)
      requires Valid() && t in active && active[t].state.Aborting?
      modifies this`log, this`active, this`pages, this`dirty, this`disk, this`durable, this`persistent
      ensures Valid() && t in active && active[t].state.Aborting? && active.Keys == old(active).Keys
      ensures t in Txns(log) && Txns(log)[t].todo == [] && LinkOk(log, t, active[t].lastLsn)
      ensures OthersSame(old(active), active, t) && NoUpdatesSince(old(log), log)
    {
      hide Ok;
      StandsAtLast(Now(), init, t);
      var current := active[t].lastLsn;
      while current != 0
        invariant Valid() && t in active && active[t].state.Aborting? && active.Keys == old(active).Keys
        invariant Stands(Txns(log), log, t, current)
        invariant OthersSame(old(active), active, t) && NoUpdatesSince(old(log), log)
        decreases current
      {
        current := RollbackStep(t, current);
      }
      assert Chain(log, 0) == [];
      StandsAtLast(Now(), init, t);
      FlushAllPages();
    }

    /** Afterwards no page is dirty and the disk has every page. */
    method FlushAllPages()
      requires Valid()
      modifies this`disk, this`durable, this`persistent, this`dirty
      ensures Valid() && disk == pages && forall p :: p in pages ==> p !in dirty
    {
      hide Ok;
      SamePages(Now(), init);
      var todo := pages.Keys;
      while todo != {}
        invariant Valid() && todo <= pages.Keys && disk.Keys == pages.Keys
        invariant forall p :: p in pages && p !in todo ==> p !in dirty
      {
        var p :| p in todo;
        todo := todo - {p};
        FlushFrame(p);
      }
      forall p | p in pages ensures disk[p] == pages[p] { CleanIsOnDisk(Now(), init, p); }
    }

    /** True means the transaction is rolled back and its ABORT record is durable. */
    method Abort(t: TxnId)
      requires Valid() && t in active
      modifies this`log, this`active, this`pages, this`dirty, this`disk, this`durable, this`persistent
      ensures Valid() && active.Keys == old(active).Keys - {t}
      ensures OthersSame(old(active), active, t) && NoUpdatesSince(old(log), log)
      ensures durable == |log| && |log| > 0 && log[|log| - 1].kind.Abort? && log[|log| - 1].txn == t
    {
      hide Ok, Txns, LinkOk, NoUpdatesSince;
      if !active[t].state.Aborting? { MarkAborting(t); }
      RollbackTransaction(t);
      NoUpdatesGrows(old(log), log, MakeTxnRecord(RecordType.Abort, t, active[t].lastLsn));
      OkFlushes(Now(), init);
      AppendAbort(t);
      OkFlushes(Now(), init);
      FlushUpTo(|log|);
    }

    method AppendAbort(t: TxnId)
      requires Valid() && t in active && t in Txns(log) && Txns(log)[t].todo == [] && LinkOk(log, t, active[t].lastLsn)
      modifies this`log, this`active
      ensures Valid() && active == old(active) - {t}
      ensures log == old(log) + [MakeTxnRecord(RecordType.Abort, t, old(active)[t].lastLsn)]
    {
      var abort := MakeTxnRecord(RecordType.Abort, t, active[t].lastLsn);
      hide Ok;
      AbortOk(Now(), init, abort);
      log, active := log + [abort], active - {t};
    }

    /** ---------- CreateCheckpoint, one step at a time ---------- */

    method CheckpointBegin()
      requires Valid() && checkpoint.Idle?
      modifies this`log, this`checkpoint
      ensures Valid() && log == old(log) + [MakeTxnRecord(RecordType.BeginCheckpoint, 0, 0)]
      ensures checkpoint == Begun(|log|)
    {
      hide Ok;
      var begin := MakeTxnRecord(RecordType.BeginCheckpoint, 0, 0);
      BeginOk(Now(), init, begin);
      log, checkpoint := log + [begin], Begun(|log| + 1);
    }

    /** GetTransactionTableSnapshot. */
    method CheckpointReadTxns()
      requires Valid() && checkpoint.Begun?
      modifies this`checkpoint
      ensures Valid() && checkpoint.TxnsRead? && checkpoint.beginLsn == old(checkpoint).beginLsn
      ensures SnapshotOf(checkpoint.txns, Txns(log)) && IsTxnList(checkpoint.txns, active)
    {
      hide Ok;
      var xs: seq<CheckpointTxn>, todo := [], active.Keys;
      while todo != {}
        invariant todo <= active.Keys
        invariant forall i :: 0 <= i < |xs| ==>
            xs[i].txn in active && xs[i] == CheckpointTxn(xs[i].txn, active[xs[i].txn].state, active[xs[i].txn].lastLsn)
        invariant forall t :: t in active && t !in todo ==> exists i :: 0 <= i < |xs| && xs[i].txn == t
      {
        var t :| t in todo;
        todo := todo - {t};
        ghost var was := xs;
        xs := xs + [CheckpointTxn(t, active[t].state, active[t].lastLsn)];
        assert xs[|was|].txn == t;
        forall u | u in active && u !in todo ensures exists i :: 0 <= i < |xs| && xs[i].txn == u {
          if u != t {
            var i :| 0 <= i < |was| && was[i].txn == u;
            assert xs[i].txn == u;
          }
        }
      }
      SnapshotOk(Now(), init, checkpoint.beginLsn, xs);
      checkpoint := TxnsRead(checkpoint.beginLsn, xs);
    }

    /** GetDirtyPageTableSnapshot. */
    method CheckpointReadPages()
      requires Valid() && checkpoint.TxnsRead?
      modifies this`checkpoint
      ensures Valid() && checkpoint.PagesRead? && checkpoint.beginLsn == old(checkpoint).beginLsn
      ensures checkpoint.txns == old(checkpoint).txns && IsDirtyList(checkpoint.dirty, dirty)
    {
      hide Ok;
      var ds: seq<DirtyPage>, todo := [], dirty.Keys;
      while todo != {}
        invariant todo <= dirty.Keys
        invariant forall p :: p in dirty && p !in todo ==> Covers(ds, p, dirty[p])
        invariant forall i :: 0 <= i < |ds| ==>
                    ds[i].page in dirty && ds[i].page !in todo && ds[i].recLsn == dirty[ds[i].page]
        invariant forall i, j :: 0 <= i < j < |ds| ==> ds[i].page != ds[j].page
      {
        var p :| p in todo;
        todo := todo - {p};
        ghost var was := ds;
        ds := ds + [DirtyPage(p, dirty[p])];
        forall q | q in dirty && q !in todo ensures Covers(ds, q, dirty[q]) {
          if q == p {
            assert ds[|was|].page == p;
          } else {
            var i :| 0 <= i < |was| && was[i].page == q && was[i].recLsn <= dirty[q];
            assert ds[i].page == q;
          }
        }
      }
      DirtyListOk(Now(), init, checkpoint.beginLsn, ds);
      checkpoint := PagesRead(checkpoint.beginLsn, checkpoint.txns, ds);
    }

    /** The END_CHECKPOINT record is appended and flushed. */
    method CheckpointEnd()
      requires Valid() && checkpoint.PagesRead?
      modifies this`log, this`durable, this`persistent, this`checkpoint
      ensures Valid() && checkpoint == Ended(old(checkpoint).beginLsn) && durable == |log|
      ensures log == old(log) + [MakeEndCheckpoint(old(checkpoint).beginLsn, old(checkpoint).txns,
                                                   old(checkpoint).dirty)]
    {
      hide Ok;
      var end := MakeEndCheckpoint(checkpoint.beginLsn, checkpoint.txns, checkpoint.dirty);
      OkFlushes(Now(), init);
      EndOk(Now(), init, end);
      log := log + [end];
      FlushUpTo(|log|);
      checkpoint := Ended(checkpoint.beginLsn);
    }

    /** The master record is made to name the finished checkpoint; writing it flushes the
        log file. */
    method CheckpointSetMaster()
      requires Valid() && checkpoint.Ended?
      modifies this`master, this`checkpoint, this`durable
      ensures Valid() && master == old(checkpoint).beginLsn && checkpoint == Idle && durable == |log|
    {
      hide Ok;
      SetMasterOk(Now(), init);
      master, checkpoint, durable := checkpoint.beginLsn, Idle, |log|;
    }
  }

  lemma {:induction false} OkFlushes(s: State, init: map<PageId, Image>)
    requires Ok(s, init)
    ensures FlushesOk(s)
  {
  }

  lemma {:induction false} SetMasterOk(s: State, init: map<PageId, Image>)
    requires Ok(s, init) && s.checkpoint.Ended?
    ensures Ok(s.(master := s.checkpoint.beginLsn, checkpoint := Idle, durable := |s.log|), init)
  {
    hide LogOk, PagesOk, HarmlessFrom, DurableEnd;
    AllDurable(s, init);
    NewMaster(s.(durable := |s.log|), init);
  }

  lemma {:induction false} NewMaster(s: State, init: map<PageId, Image>)
    requires LogOk(s, init) && PagesOk(s, init) && CheckpointsOk(s) && s.checkpoint.Ended?
    ensures var s' := s.(master := s.checkpoint.beginLsn, checkpoint := Idle);
            LogOk(s', init) && PagesOk(s', init) && CheckpointsOk(s')
  {
  }

  lemma {:induction false} CleanIsOnDisk(s: State, init: map<PageId, Image>, p: PageId)
    requires Ok(s, init) && p in s.pages && p !in s.dirty
    ensures p in s.disk && s.disk[p] == s.pages[p]
  {
    hide LegalLog, CheckpointsOk, TxnsMatch;
    var l := LastWrite(s.log, p);
    assert IsCurrent(s.log, init, p, s.pages[p]) && IsVersion(s.log[..s.durable], init, p, s.disk[p]);
    if l > 0 { assert !DirtyBy(s.dirty, p, l - 1 + 1); }
  }

  lemma {:induction false} OpenOk(s: State, init: map<PageId, Image>)
    requires LegalLog(s.log, init) && Txns(s.log) == map[] && Current(s.log, init, s.pages)
    requires FlushOk(s.log, s.durable, s.persistent) && AreVersions(s.log[..s.durable], init, s.disk)
    requires forall n :: s.durable <= n <= |s.log| ==> CrashState(s.log[..n], init, s.disk, s.master)
    requires s.disk == s.pages && s.dirty == map[] && s.active == map[] && s.checkpoint == Idle
    ensures Ok(s, init)
  {
    hide LegalLog, Txns, Harmless, FirstUndone, AreVersions, MasterOk, DurableEnd;
    assert CrashState(s.log[..s.durable], init, s.disk, s.master);
    OpenMaster(s.log, s.durable, s.disk, s.master);
    forall n | s.durable <= n <= |s.log| ensures Harmless(s.log[..n], s.master) {
      assert CrashState(s.log[..n], init, s.disk, s.master);
    }
    CurrentIsClean(s.log, init, s.pages);
  }

  lemma {:induction false} OpenMaster(log: seq<LogRecord>, durable: nat, disk: map<PageId, Page>, master: Lsn)
    requires durable <= |log| && MasterOk(log[..durable], disk, master)
    ensures master <= |log| && (master != 0 ==> DurableEnd(log, durable, disk, master))
  {
    if master != 0 {
      var e :| Completes(log[..durable], disk, master, e);
      assert log[..durable][..master] == log[..master];
      assert Completes(log, disk, master, e);
    }
  }

  lemma {:induction false} CurrentIsClean(log: seq<LogRecord>, init: map<PageId, Image>, pages: map<PageId, Page>)
    requires Current(log, init, pages)
    ensures DirtyTableOk(log, pages, map[])
  {
    hide Value;
    forall p, i | p in pages && 0 <= i < |log| && WritesPage(log[i], p) ensures pages[p].lsn >= i + 1 {
      assert IsCurrent(log, init, p, pages[p]);
    }
  }

  lemma {:induction false} SamePages(s: State, init: map<PageId, Image>)
    requires Ok(s, init)
    ensures s.pages.Keys == s.disk.Keys == init.Keys
  {
  }

  lemma {:induction false} BeginOk(s: State, init: map<PageId, Image>, r: LogRecord)
    requires Ok(s, init) && s.checkpoint.Idle? && r == MakeTxnRecord(RecordType.BeginCheckpoint, 0, 0)
    ensures Ok(s.(log := s.log + [r], checkpoint := Begun(|s.log| + 1)), init)
  {
    AppendOk(s, init, r, s.active, s.nextTxnId);
    assert (s.log + [r])[|s.log|] == r;
  }

  lemma {:induction false} SnapshotOk(s: State, init: map<PageId, Image>, b: Lsn, xs: seq<CheckpointTxn>)
    requires Ok(s, init) && s.checkpoint == Begun(b)
    requires forall i :: 0 <= i < |xs| ==>
        xs[i].txn in s.active && xs[i] ==
            CheckpointTxn(xs[i].txn, s.active[xs[i].txn].state, s.active[xs[i].txn].lastLsn)
    requires forall t :: t in s.active ==> exists i :: 0 <= i < |xs| && xs[i].txn == t
    ensures SnapshotOf(xs, Txns(s.log))
    ensures Ok(s.(checkpoint := TxnsRead(b, xs)), init)
  {
    forall i | 0 <= i < |xs| ensures EntryMatches(xs[i], Txns(s.log)) {
      assert ActiveMatches(s.active[xs[i].txn], Txns(s.log)[xs[i].txn]);
    }
    assert s.log[..|s.log|] == s.log;
    assert ListTaken(s.log, b, xs);
  }

  lemma {:induction false} DirtyListOk(s: State, init: map<PageId, Image>, b: Lsn, ds: seq<DirtyPage>)
    requires Ok(s, init) && s.checkpoint.TxnsRead? && s.checkpoint.beginLsn == b
    requires forall p :: p in s.dirty ==> Covers(ds, p, s.dirty[p])
    ensures Ok(s.(checkpoint := PagesRead(b, s.checkpoint.txns, ds)), init)
  {
    DirtyListCovers(s.log, s.disk, s.dirty, b, ds);
  }

  lemma {:induction false} DirtyListCovers(log: seq<LogRecord>, disk: map<PageId, Page>, dirty: map<PageId, Lsn>,
                                           b: Lsn, ds: seq<DirtyPage>)
    requires DirtyTableOk(log, disk, dirty) && b <= |log|
    requires forall p :: p in dirty ==> Covers(ds, p, dirty[p])
    ensures ListCovers(log, disk, b, ds)
  {
  }

  /** The state once END_CHECKPOINT is in the log and flushed. */
  ghost function WithEnd(s: State, r: LogRecord): State
    requires s.checkpoint.PagesRead?
  {
    s.(log := s.log + [r], durable := |s.log| + 1, persistent := |s.log| + 1,
       checkpoint := Ended(s.checkpoint.beginLsn))
  }

  lemma {:induction false} EndOk(s: State, init: map<PageId, Image>, r: LogRecord)
    requires Ok(s, init) && s.checkpoint.PagesRead?
    requires r == MakeEndCheckpoint(s.checkpoint.beginLsn, s.checkpoint.txns, s.checkpoint.dirty)
    ensures FlushOk(s.log + [r], s.durable, s.persistent)
    ensures Ok(WithEnd(s, r), init)
  {
    EndEnabled(s, init, r);
    hide LogOk, PagesOk, CheckpointsOk;
    EndLogOk(s, init, r);
    EndPagesOk(s, init, r);
    EndCheckpointsOk(s, init, r);
  }

  lemma {:induction false} EndLogOk(s: State, init: map<PageId, Image>, r: LogRecord)
    requires LogOk(s, init) && s.checkpoint.PagesRead? && Enabled(s.log, init, r) && r.kind.EndCheckpoint?
    ensures LogOk(WithEnd(s, r), init)
  {
    HistorySnoc(s.log, init, r);
    TxnsSnoc(s.log, r);
  }

  lemma {:induction false} EndPagesOk(s: State, init: map<PageId, Image>, r: LogRecord)
    requires PagesOk(s, init) && s.checkpoint.PagesRead? && r.kind.EndCheckpoint?
    ensures PagesOk(WithEnd(s, r), init)
  {
    hide Current, AreVersions;
    var log' := s.log + [r];
    CurrentSnoc(s.log, init, s.pages, r);
    assert log'[..|log'|] == log';
    VersionsGrow(s.log[..s.durable], log', init, s.disk);
  }

  lemma {:induction false} EndCheckpointsOk(s: State, init: map<PageId, Image>, r: LogRecord)
    requires CheckpointsOk(s) && LogOk(s, init) && s.checkpoint.PagesRead?
    requires r == MakeEndCheckpoint(s.checkpoint.beginLsn, s.checkpoint.txns, s.checkpoint.dirty)
    ensures CheckpointsOk(WithEnd(s, r))
  {
    hide LegalLog, Harmless, Txns, ListTaken, ListCovers, DurableEnd, NoListSince, TxnsMatch;
    var b, log' := s.checkpoint.beginLsn, s.log + [r];
    EndDurable(s.log, s.disk, b, r);
    if s.master != 0 { EndGrows(s.log, s.durable, |s.log| + 1, r, s.disk, s.master); }
    ListsDoNoHarm(s.log, init, s.master, b, r);
    assert log'[..|log'|] == log';
  }

  lemma {:induction false} EndDurable(log: seq<LogRecord>, disk: map<PageId, Page>, b: Lsn, r: LogRecord)
    requires 1 <= b <= |log| && r.kind.EndCheckpoint? && r.prevLsn == b && ListCovers(log, disk, b, r.dirtyPages)
    ensures DurableEnd(log + [r], |log| + 1, disk, b)
  {
    var log' := log + [r];
    assert log'[..b] == log[..b] && log'[|log|] == r;
    assert Completes(log', disk, b, |log|);
  }

  /** The transaction table was read after BEGIN_CHECKPOINT: its list harms neither the
      checkpoint in force nor the new one. */
  lemma {:induction false} ListsDoNoHarm(log: seq<LogRecord>, init: map<PageId, Image>, master: Lsn, b: Lsn,
                                         r: LogRecord)
    requires LegalLog(log, init) && HarmlessFrom(log, |log|, master) && BeganAt(log, master, b)
    requires r.kind.EndCheckpoint? && ListTaken(log, b, r.activeTxns)
    ensures Harmless(log + [r], master) && Harmless(log + [r], b)
  {
    hide LegalLog, Harmless, Txns, SnapshotOf;
    var a :| b <= a <= |log| && SnapshotOf(r.activeTxns, Txns(log[..a]));
    assert log[..|log|] == log;
    SnapshotIsOk(log, init, b, a, r.activeTxns);
    HarmlessEnd(log, init, r, master, b);
    HarmlessNew(log, init, r, b);
  }

  lemma {:induction false} EndEnabled(s: State, init: map<PageId, Image>, r: LogRecord)
    requires Ok(s, init) && s.checkpoint.PagesRead?
    requires r == MakeEndCheckpoint(s.checkpoint.beginLsn, s.checkpoint.txns, s.checkpoint.dirty)
    ensures Enabled(s.log, init, r)
  {
  }

  /** A page without uncompensated updates shows its committed bytes, also while other
      transactions run: rollback and commit leave nothing else behind. */
  lemma {:induction false} QuietPageIsCommitted(s: State, init: map<PageId, Image>, p: PageId)
    requires Ok(s, init) && p in s.pages
    requires forall t :: t in Txns(s.log) ==> !Touches(s.log, Txns(s.log)[t].todo, p)
    ensures p in init && s.pages[p].content == CommittedImage(s.log, init, p)
  {
    hide AreVersions, DirtyTableOk, CheckpointsOk;
    LegalLogInv(s.log, init);
    assert PageOk(Txns(s.log), s.log, init, p);
    assert Settled(Txns(s.log), s.log, init, p);
  }

  /** ---------- Crash and restart ---------- */

  /** Whatever part of the log beyond the durable records reached the disk, a crash of a
      valid engine leaves a state that recovery accepts. */
  lemma {:induction false} CrashLeavesCrashState(s: State, init: map<PageId, Image>, n: nat)
    requires Ok(s, init) && s.durable <= n <= |s.log|
    ensures CrashState(s.log[..n], init, s.disk, s.master)
  {
    hide LegalLog, Harmless, Current, DirtyTableOk, TxnsMatch, CheckpointOk;
    LegalPrefix(s.log, init, n);
    VersionsGrow(s.log[..s.durable], s.log[..n], init, s.disk);
    if s.master != 0 {
      var e: nat :| e < s.durable && Completes(s.log, s.disk, s.master, e);
      assert s.log[..n][..s.master] == s.log[..s.master];
      assert Completes(s.log[..n], s.disk, s.master, e);
    }
    PlainCrashState(s.log[..n], init, s.disk, s.master);
  }

  /** Crash at any moment, with any tail of the unflushed log on disk, then recover and
      open again: every page holds the bytes of its last committed update. */
  method CrashAndRestart(e: Engine, n: nat) returns (e': Engine)
    requires e.Valid() && e.durable <= n <= |e.log|
    ensures fresh(e') && e'.Valid() && e'.init == e.init && e'.active == map[]
    ensures UndoExtends(e.log[..n], e'.log)
    ensures e'.pages.Keys == e.init.Keys
    ensures forall p :: p in e'.pages ==> e'.pages[p].content == CommittedImage(e.log[..n], e.init, p)
  {
    CrashLeavesCrashState(e.Now(), e.init, n);
    hide Ok, CrashState, LegalLog, Txns, Current, AreVersions, CommittedImage, FlushOk;
    var recovery := new RecoveryManager(e.log[..n], e.master, e.disk, e.init);
    recovery.Recover();
    e' := new Engine(recovery.log, recovery.durable, recovery.persistent, recovery.pages, recovery.master, e.init);
  }

  lemma {:induction false} BeginTxnOk(s: State, init: map<PageId, Image>, r: LogRecord)
    requires Ok(s, init) && r.kind.Begin? && r.txn == s.nextTxnId && r.prevLsn == 0
    ensures r.txn !in s.active
    ensures Ok(s.(log := s.log + [r], active := s.active[r.txn := ActiveTxn(Active, |s.log| + 1)],
                  nextTxnId := r.txn + 1), init)
  {
    AppendOk(s, init, r, s.active[r.txn := ActiveTxn(Active, |s.log| + 1)], r.txn + 1);
  }

  lemma {:induction false} CommitOk(s: State, init: map<PageId, Image>, r: LogRecord)
    requires Ok(s, init) && r.kind.Commit? && r.txn in s.active && !s.active[r.txn].state.Aborting?
    requires r.prevLsn == s.active[r.txn].lastLsn
    ensures Ok(s.(log := s.log + [r], active := s.active - {r.txn}), init)
  {
    assert ActiveMatches(s.active[r.txn], Txns(s.log)[r.txn]);
    EndMatches(s.active, Txns(s.log), |s.log| + 1, r);
    AppendOk(s, init, r, s.active - {r.txn}, s.nextTxnId);
  }

  lemma {:induction false} AbortOk(s: State, init: map<PageId, Image>, r: LogRecord)
    requires Ok(s, init) && r.kind.Abort? && r.txn in s.active
    requires r.txn in Txns(s.log) && Txns(s.log)[r.txn].todo == [] && LinkOk(s.log, r.txn, r.prevLsn)
    ensures Ok(s.(log := s.log + [r], active := s.active - {r.txn}), init)
  {
    EndMatches(s.active, Txns(s.log), |s.log| + 1, r);
    AppendOk(s, init, r, s.active - {r.txn}, s.nextTxnId);
  }

  lemma {:induction false} EndMatches(active: map<TxnId, ActiveTxn>, live: map<TxnId, Live>, lsn: Lsn, r: LogRecord)
    requires TxnsMatch(active, live) && IsTxnEndRecord(r.kind)
    ensures TxnsMatch(active - {r.txn}, ApplyTxn(live, lsn, r))
  {
  }

  /** The rollback stands where the uncompensated updates of t are met. */
  ghost predicate Stands(live: map<TxnId, Live>, log: seq<LogRecord>, t: TxnId, l: Lsn) {
    t in live && l <= |log| && LinkOk(log, t, l) && Chain(log, l) == live[t].todo
  }

  lemma {:induction false} StandsFacts(log: seq<LogRecord>, init: map<PageId, Image>, t: TxnId, l: Lsn)
    requires LegalLog(log, init) && Stands(Txns(log), log, t, l) && l != 0
    ensures log[l - 1].kind.PageUpdate? ==>
              log[l - 1].hasPage && Txns(log)[t].todo != [] && Txns(log)[t].todo[0] == l
              && Txns(log)[t].todo[1..] == Chain(log, log[l - 1].prevLsn)
    ensures NextLsn(log[l - 1]) < l && LinkOk(log, t, NextLsn(log[l - 1]))
    ensures !log[l - 1].kind.PageUpdate? ==> Stands(Txns(log), log, t, NextLsn(log[l - 1]))
  {
    var r := log[l - 1];
    LegalLinks(log, init);
    LegalRecords(log, init);
    assert LinkOk(log[..l - 1], r.txn, r.prevLsn) && (r.kind.Clr? ==> LinkOk(log[..l - 1], r.txn, r.undoNextLsn));
    assert IsPageUpdateRecord(r.kind) ==> r.hasPage;
    assert Chain(log, 0) == [];
  }

  lemma {:induction false} ClrEnabled(s: State, init: map<PageId, Image>, t: TxnId, l: Lsn)
    requires Ok(s, init) && t in s.active && 1 <= l <= |s.log|
    ensures t in Txns(s.log)
    ensures s.log[l - 1].kind.PageUpdate? && Txns(s.log)[t].todo != [] && Txns(s.log)[t].todo[0] == l ==>
              var rec := s.log[l - 1];
              Enabled(s.log, init, MakeClrPageUndoRecord(t, s.active[t].lastLsn, rec.prevLsn, rec.page, rec.before))
  {
  }

  lemma {:induction false} StandsHere(s: State, init: map<PageId, Image>, t: TxnId, l: Lsn)
    requires Ok(s, init) && Stands(Txns(s.log), s.log, t, l) && l != 0
    ensures s.log[l - 1].kind.PageUpdate? ==>
              s.log[l - 1].hasPage && Txns(s.log)[t].todo != [] && Txns(s.log)[t].todo[0] == l
              && Txns(s.log)[t].todo[1..] == Chain(s.log, s.log[l - 1].prevLsn)
    ensures NextLsn(s.log[l - 1]) < l && LinkOk(s.log, t, NextLsn(s.log[l - 1]))
    ensures !s.log[l - 1].kind.PageUpdate? ==> Stands(Txns(s.log), s.log, t, NextLsn(s.log[l - 1]))
  {
    StandsFacts(s.log, init, t, l);
  }

  lemma {:induction false} StandsAtLast(s: State, init: map<PageId, Image>, t: TxnId)
    requires Ok(s, init) && t in s.active
    ensures Stands(Txns(s.log), s.log, t, s.active[t].lastLsn) && s.active[t].lastLsn <= |s.log|
  {
    hide PagesOk, CheckpointsOk, FlushesOk, LegalLog, Txns, PageOk, TodoComplete, PageRecordsOk, TodoOk;
    assert ActiveMatches(s.active[t], Txns(s.log)[t]);
    LegalLogInv(s.log, init);
    assert LiveOk(s.log, t, Txns(s.log)[t]);
  }

  lemma {:induction false} StandsAfterClr(log: seq<LogRecord>, t: TxnId, l: Lsn, clr: LogRecord)
    requires t in Txns(log) && clr.kind.Clr? && clr.txn == t && 1 <= l <= |log|
    requires Txns(log)[t].todo != [] && Txns(log)[t].todo[1..] == Chain(log, log[l - 1].prevLsn)
    requires log[l - 1].prevLsn < l && LinkOk(log, t, log[l - 1].prevLsn)
    ensures Stands(Txns(log + [clr]), log + [clr], t, log[l - 1].prevLsn)
  {
    var prev := log[l - 1].prevLsn;
    TxnsSnoc(log, clr);
    ChainSnoc(log, clr, prev);
    if prev != 0 { assert (log + [clr])[prev - 1] == log[prev - 1]; }
  }
}
