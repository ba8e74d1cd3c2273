/** The state a crash leaves behind, and what the Analysis pass of restart recovery
    concludes from it. */
module Analysis {
  import opened WalRecords
  import opened History
  import opened HistoryProofs

  /** ---------- The state a crash leaves behind ---------- */

  /** The page is as some record of the log left it, or as it was created. The record
      is in the log: this is the write-ahead rule. */
  ghost predicate IsVersion(log: seq<LogRecord>, init: map<PageId, Image>, p: PageId, page: Page)
    requires p in init
  {
    if page.lsn == 0 then page.content == init[p]
    else page.lsn <= |log| && WritesPage(log[page.lsn - 1], p) && page.content == log[page.lsn - 1].after
  }

  ghost predicate AreVersions(log: seq<LogRecord>, init: map<PageId, Image>, pages: map<PageId, Page>) {
    pages.Keys == init.Keys && forall p :: p in pages ==> IsVersion(log, init, p, pages[p])
  }

  ghost predicate Covers(dirty: seq<DirtyPage>, p: PageId, l: Lsn) {
    exists i :: 0 <= i < |dirty| && dirty[i].page == p && dirty[i].recLsn <= l
  }

  /** The END_CHECKPOINT at index e completes the checkpoint the master record names,
      and its dirty page list has every page whose last earlier write is not on disk. */
  ghost predicate Completes(log: seq<LogRecord>, disk: map<PageId, Page>, master: Lsn, e: nat) {
    && 1 <= master <= e < |log|
    && log[e].kind.EndCheckpoint? && log[e].prevLsn == master
    && forall p :: p in disk && LastWrite(log[..master], p) > disk[p].lsn ==>
         Covers(log[e].dirtyPages, p, LastWrite(log[..master], p))
  }

  ghost predicate MasterOk(log: seq<LogRecord>, disk: map<PageId, Page>, master: Lsn) {
    master == 0 || exists e :: Completes(log, disk, master, e)
  }

  /** ---------- What Analysis computes ---------- */

  datatype TxnEntry = TxnEntry(state: TxnState, lastLsn: Lsn)

  predicate IsTxnEndState(s: TxnState) { s.Committed? || s.Aborted? }

  predicate IsLoserState(s: TxnState) { s.Active? || s.Waiting? || s.Aborting? }

  function Max(a: Lsn, b: Lsn): Lsn { if a < b then b else a }

  function Min(a: Lsn, b: Lsn): Lsn { if b < a then b else a }

  /** Looking up a missing transaction creates a default entry. */
  function EntryOf(txns: map<TxnId, TxnEntry>, t: TxnId): TxnEntry {
    if t in txns then txns[t] else TxnEntry(Active, 0)
  }

  function NotePageRecord(txns: map<TxnId, TxnEntry>, t: TxnId, lsn: Lsn): map<TxnId, TxnEntry> {
    var e := EntryOf(txns, t);
    txns[t := TxnEntry(if IsTxnEndState(e.state) then e.state else Active, Max(e.lastLsn, lsn))]
  }

  function NoteSnapshot(txns: map<TxnId, TxnEntry>, x: CheckpointTxn): map<TxnId, TxnEntry> {
    var e := EntryOf(txns, x.txn);
    txns[x.txn := TxnEntry(if IsTxnEndState(e.state) then e.state else x.state, Max(e.lastLsn, x.lastLsn))]
  }

  function NoteDirty(dirty: map<PageId, Lsn>, p: PageId, lsn: Lsn): map<PageId, Lsn> {
    dirty[p := if p in dirty then Min(dirty[p], lsn) else lsn]
  }

  function MergeTxns(txns: map<TxnId, TxnEntry>, xs: seq<CheckpointTxn>): map<TxnId, TxnEntry> {
    if xs == [] then txns else NoteSnapshot(MergeTxns(txns, xs[..|xs| - 1]), xs[|xs| - 1])
  }

  function MergeDirty(dirty: map<PageId, Lsn>, xs: seq<DirtyPage>): map<PageId, Lsn> {
    if xs == [] then dirty
    else NoteDirty(MergeDirty(dirty, xs[..|xs| - 1]), xs[|xs| - 1].page, xs[|xs| - 1].recLsn)
  }

  function AnalyzeTxn(txns: map<TxnId, TxnEntry>, lsn: Lsn, r: LogRecord): map<TxnId, TxnEntry> {
    match r.kind
    case Begin => txns[r.txn := TxnEntry(Active, lsn)]
    case Commit => txns[r.txn := TxnEntry(Committed, lsn)]
    case Abort => txns[r.txn := TxnEntry(Aborted, lsn)]
    case PageUpdate(_) => NotePageRecord(txns, r.txn, lsn)
    case Clr => NotePageRecord(txns, r.txn, lsn)
    case EndCheckpoint => MergeTxns(txns, r.activeTxns)
    case _ => txns
  }

  function AnalyzeDirty(dirty: map<PageId, Lsn>, lsn: Lsn, r: LogRecord): map<PageId, Lsn> {
    if IsPageUpdateRecord(r.kind) && r.hasPage then NoteDirty(dirty, r.page, lsn)
    else if r.kind.EndCheckpoint? then MergeDirty(dirty, r.dirtyPages)
    else dirty
  }

  /** The tables after the records with LSN master..n. */
  function TxnTable(log: seq<LogRecord>, master: Lsn, n: nat): map<TxnId, TxnEntry>
    requires n <= |log|
  {
    if n == 0 || n < master then map[]
    else AnalyzeTxn(TxnTable(log, master, n - 1), n, log[n - 1])
  }

  function DirtyTable(log: seq<LogRecord>, master: Lsn, n: nat): map<PageId, Lsn>
    requires n <= |log|
  {
    if n == 0 || n < master then map[]
    else AnalyzeDirty(DirtyTable(log, master, n - 1), n, log[n - 1])
  }

  /** ---------- The transaction table ---------- */

  ghost predicate IsTxnRecord(r: LogRecord) { !IsCheckpointRecord(r.kind) }

  predicate IsControl(kind: RecordType) { kind.Begin? || kind.Commit? || kind.Abort? }

  ghost predicate IsLoser(txns: map<TxnId, TxnEntry>, t: TxnId) { t in txns && IsLoserState(txns[t].state) }

  /** Analysis hands exactly the open transactions to Undo, each with its last LSN. */
  ghost predicate AnalysisRight(log: seq<LogRecord>, master: Lsn) {
    var txns, live := TxnTable(log, master, |log|), Txns(log);
    forall t :: (IsLoser(txns, t) <==> t in live) && (t in live ==> txns[t].lastLsn == live[t].last)
  }

  ghost function ListedFor(xs: seq<CheckpointTxn>, t: TxnId): seq<CheckpointTxn> {
    if xs == [] then []
    else if xs[|xs| - 1].txn == t then ListedFor(xs[..|xs| - 1], t) + [xs[|xs| - 1]]
    else ListedFor(xs[..|xs| - 1], t)
  }

  /** What the checkpoints from `master` on list for t after its last BEGIN, COMMIT or ABORT
      from there on. */
  ghost function Listing(log: seq<LogRecord>, master: Lsn, n: nat, t: TxnId): seq<CheckpointTxn>
    requires n <= |log|
  {
    if n == 0 || n < master then []
    else if log[n - 1].kind.EndCheckpoint? then Listing(log, master, n - 1, t) + ListedFor(log[n - 1].activeTxns, t)
    else if log[n - 1].txn == t && IsControl(log[n - 1].kind) then []
    else Listing(log, master, n - 1, t)
  }

  /** The last record of t from `master` on, 0 if there is none. */
  ghost function OwnLast(log: seq<LogRecord>, master: Lsn, n: nat, t: TxnId): (l: Lsn)
    requires n <= |log|
    ensures l <= n && (l != 0 ==> l >= master && log[l - 1].txn == t && IsTxnRecord(log[l - 1]))
    ensures forall i :: l <= i < n && master <= i + 1 ==> log[i].txn != t || !IsTxnRecord(log[i])
  {
    if n == 0 || n < master then 0
    else if log[n - 1].txn == t && IsTxnRecord(log[n - 1]) then n
    else OwnLast(log, master, n - 1, t)
  }

  /** The last BEGIN, COMMIT or ABORT of t from `master` on ends it. */
  ghost predicate EndedSince(log: seq<LogRecord>, master: Lsn, n: nat, t: TxnId)
    requires n <= |log|
  {
    if n == 0 || n < master then false
    else if log[n - 1].txn == t && IsControl(log[n - 1].kind) then !log[n - 1].kind.Begin?
    else EndedSince(log, master, n - 1, t)
  }

  ghost predicate AllRunning(xs: seq<CheckpointTxn>) { forall i :: 0 <= i < |xs| ==> IsLoserState(xs[i].state) }

  ghost predicate NoneAbove(xs: seq<CheckpointTxn>, l: Lsn) { forall i :: 0 <= i < |xs| ==> xs[i].lastLsn <= l }

  ghost predicate ListsLast(xs: seq<CheckpointTxn>, l: Lsn) { exists i :: 0 <= i < |xs| && xs[i].lastLsn == l }

  ghost function MaxLast(xs: seq<CheckpointTxn>): Lsn {
    if xs == [] then 0 else Max(MaxLast(xs[..|xs| - 1]), xs[|xs| - 1].lastLsn)
  }

  /** What the checkpoints list for t does no harm. An open transaction must be listed as
      running and never ahead of itself, and with its last LSN if it has no record from the
      checkpoint on. A closed one must not be listed as running, unless its end lies there
      too or it is also listed as ended. */
  ghost predicate HarmlessAt(live: map<TxnId, Live>, t: TxnId, xs: seq<CheckpointTxn>, own: Lsn, ended: bool) {
    if t in live then AllRunning(xs) && NoneAbove(xs, live[t].last) && (own != 0 || ListsLast(xs, live[t].last))
    else ended || xs == [] || !AllRunning(xs)
  }

  ghost predicate ListsHarmless(log: seq<LogRecord>, master: Lsn, t: TxnId) {
    var n := |log|;
    HarmlessAt(Txns(log), t, Listing(log, master, n, t), OwnLast(log, master, n, t), EndedSince(log, master, n, t))
  }

  ghost predicate Harmless(log: seq<LogRecord>, master: Lsn) { forall t :: ListsHarmless(log, master, t) }

  lemma {:induction false} MaxLastIs(xs: seq<CheckpointTxn>, l: Lsn)
    ensures MaxLast(xs) <= l <==> NoneAbove(xs, l)
    ensures l != 0 && NoneAbove(xs, l) ==> (MaxLast(xs) == l <==> ListsLast(xs, l))
  {
    if xs != [] {
      var k := |xs| - 1;
      MaxLastIs(xs[..k], l);
      assert forall i :: 0 <= i < k ==> xs[..k][i] == xs[i];
      assert ListsLast(xs, l) <==> xs[k].lastLsn == l || ListsLast(xs[..k], l) by {
        if ListsLast(xs[..k], l) {
          var i :| 0 <= i < k && xs[..k][i].lastLsn == l;
          assert xs[i].lastLsn == l;
        }
      }
    }
  }

  lemma {:induction false} MaxLastConcat(xs: seq<CheckpointTxn>, ys: seq<CheckpointTxn>)
    ensures MaxLast(xs + ys) == Max(MaxLast(xs), MaxLast(ys))
    ensures AllRunning(xs + ys) <==> AllRunning(xs) && AllRunning(ys)
  {
    if ys == [] {
      assert xs + ys == xs;
    } else {
      var k := |ys| - 1;
      MaxLastConcat(xs, ys[..k]);
      assert (xs + ys)[..|xs + ys| - 1] == xs + ys[..k];
      RunningConcat(xs, ys);
    }
  }

  lemma RunningConcat(xs: seq<CheckpointTxn>, ys: seq<CheckpointTxn>)
    ensures AllRunning(xs + ys) <==> AllRunning(xs) && AllRunning(ys)
  {
    if AllRunning(xs + ys) {
      assert forall i :: 0 <= i < |xs| ==> xs[i] == (xs + ys)[i];
      assert forall i :: 0 <= i < |ys| ==> ys[i] == (xs + ys)[|xs| + i];
    }
  }

  /** Merging a list: the entry of t is left alone, or raised by what is listed for t. */
  lemma {:induction false} MergeIs(txns: map<TxnId, TxnEntry>, xs: seq<CheckpointTxn>, t: TxnId)
    ensures var ys, was, now := ListedFor(xs, t), EntryOf(txns, t), MergeTxns(txns, xs);
            && (t in now <==> t in txns || ys != [])
            && EntryOf(now, t).lastLsn == Max(was.lastLsn, MaxLast(ys))
            && (IsLoserState(EntryOf(now, t).state) <==> IsLoserState(was.state) && AllRunning(ys))
  {
    if xs != [] {
      var k := |xs| - 1;
      MergeIs(txns, xs[..k], t);
      if xs[k].txn == t {
        RunningConcat(ListedFor(xs[..k], t), [xs[k]]);
        assert (ListedFor(xs[..k], t) + [xs[k]])[..|ListedFor(xs[..k], t)|] == ListedFor(xs[..k], t);
      }
    }
  }

  /** What the lists, the last record and the last end or beginning say about an entry. */
  ghost predicate EntryIs(txns: map<TxnId, TxnEntry>, t: TxnId, xs: seq<CheckpointTxn>, own: Lsn, ended: bool) {
    && (t in txns <==> own != 0 || xs != [])
    && (ended ==> own != 0 && !IsLoser(txns, t))
    && (!ended && t in txns ==> (IsLoser(txns, t) <==> AllRunning(xs)) && txns[t].lastLsn == Max(own, MaxLast(xs)))
  }

  lemma {:induction false} EntryAtEnd(txns: map<TxnId, TxnEntry>, t: TxnId, xs: seq<CheckpointTxn>, own: Lsn,
                                      ended: bool, lsn: Lsn, r: LogRecord)
    requires EntryIs(txns, t, xs, own, ended) && r.kind.EndCheckpoint?
    ensures EntryIs(AnalyzeTxn(txns, lsn, r), t, xs + ListedFor(r.activeTxns, t), own, ended)
  {
    hide MaxLast, AllRunning, ListedFor, MergeTxns;
    var ys := ListedFor(r.activeTxns, t);
    MergeIs(txns, r.activeTxns, t);
    MaxLastConcat(xs, ys);
    NothingListed(xs);
  }

  lemma NothingListed(xs: seq<CheckpointTxn>)
    ensures xs == [] ==> MaxLast(xs) == 0 && AllRunning(xs)
  {
  }

  lemma {:induction false} EntryAtOwn(txns: map<TxnId, TxnEntry>, t: TxnId, xs: seq<CheckpointTxn>, own: Lsn,
                                      ended: bool, lsn: Lsn, r: LogRecord)
    requires EntryIs(txns, t, xs, own, ended) && r.txn == t && IsTxnRecord(r) && !r.kind.Invalid? && own < lsn
    ensures EntryIs(AnalyzeTxn(txns, lsn, r), t, if IsControl(r.kind) then [] else xs, lsn,
                    if IsControl(r.kind) then !r.kind.Begin? else ended)
  {
    hide MaxLast, AllRunning;
    NothingListed([]);
    NothingListed(xs);
  }

  lemma {:induction false} EntryAtOther(txns: map<TxnId, TxnEntry>, t: TxnId, xs: seq<CheckpointTxn>, own: Lsn,
                                        ended: bool, lsn: Lsn, r: LogRecord)
    requires EntryIs(txns, t, xs, own, ended) && !r.kind.EndCheckpoint? && (r.txn != t || !IsTxnRecord(r))
    ensures EntryIs(AnalyzeTxn(txns, lsn, r), t, xs, own, ended)
  {
    hide MaxLast, AllRunning;
  }

  /** The table entry of a transaction, read off the log. */
  lemma {:induction false} TableIs(log: seq<LogRecord>, master: Lsn, n: nat, t: TxnId)
    requires n <= |log| && forall i :: 0 <= i < |log| ==> !log[i].kind.Invalid?
    ensures EntryIs(TxnTable(log, master, n), t, Listing(log, master, n, t), OwnLast(log, master, n, t),
                    EndedSince(log, master, n, t))
  {
    if n != 0 && n >= master {
      TableIs(log, master, n - 1, t);
      var r, txns, xs := log[n - 1], TxnTable(log, master, n - 1), Listing(log, master, n - 1, t);
      var own, ended := OwnLast(log, master, n - 1, t), EndedSince(log, master, n - 1, t);
      hide EntryIs, AnalyzeTxn;
      if r.kind.EndCheckpoint? {
        EntryAtEnd(txns, t, xs, own, ended, n, r);
      } else if r.txn == t && IsTxnRecord(r) {
        EntryAtOwn(txns, t, xs, own, ended, n, r);
      } else {
        EntryAtOther(txns, t, xs, own, ended, n, r);
      }
    }
  }

  lemma {:induction false} MergeKeepsEnd(txns: map<TxnId, TxnEntry>, xs: seq<CheckpointTxn>, t: TxnId)
    requires t in txns && IsTxnEndState(txns[t].state)
    ensures t in MergeTxns(txns, xs) && MergeTxns(txns, xs)[t].state == txns[t].state
  {
    if xs != [] { MergeKeepsEnd(txns, xs[..|xs| - 1], t); }
  }

  /** A transaction whose last BEGIN, COMMIT or ABORT from `master` on is a COMMIT is in the
      table as committed, and as aborted if it is an ABORT, whatever the checkpoints list. */
  lemma {:induction false} EndStateIs(log: seq<LogRecord>, master: Lsn, n: nat, t: TxnId, end: Lsn)
    requires 1 <= end <= n <= |log| && master <= end
    requires log[end - 1].txn == t && IsTxnEndRecord(log[end - 1].kind)
    requires forall i :: end <= i < n ==> log[i].txn != t || !IsControl(log[i].kind)
    ensures var txns := TxnTable(log, master, n);
            t in txns && txns[t].state == if log[end - 1].kind.Commit? then Committed else Aborted
  {
    if n > end {
      EndStateIs(log, master, n - 1, t, end);
      if log[n - 1].kind.EndCheckpoint? { MergeKeepsEnd(TxnTable(log, master, n - 1), log[n - 1].activeTxns, t); }
    }
  }

  /** Without a record of its own a transaction does not change. */
  lemma {:induction false} Unchanged(log: seq<LogRecord>, init: map<PageId, Image>, t: TxnId, a: nat, n: nat)
    requires LegalLog(log, init) && a <= n <= |log|
    requires forall i :: a <= i < n ==> log[i].txn != t || !IsTxnRecord(log[i])
    ensures t in Txns(log[..a]) <==> t in Txns(log[..n])
    ensures t in Txns(log[..n]) ==> Txns(log[..a])[t] == Txns(log[..n])[t]
  {
    hide LegalLog, Txns, Inv, MayAppend;
    if a < n {
      Unchanged(log, init, t, a, n - 1);
      LegalAt(log, init, n - 1);
    }
  }

  lemma {:induction false} LastInRange(log: seq<LogRecord>, init: map<PageId, Image>, t: TxnId, n: nat)
    requires LegalLog(log, init) && n <= |log| && t in Txns(log[..n])
    ensures var l := Txns(log[..n])[t].last;
            && 1 <= l <= n && log[l - 1].txn == t && IsTxnRecord(log[l - 1])
            && forall i :: l <= i < n ==> log[i].txn != t || !IsTxnRecord(log[i])
  {
    LegalPrefix(log, init, n);
    LegalLogInv(log[..n], init);
    assert LiveOk(log[..n], t, Txns(log[..n])[t]);
    forall i | Txns(log[..n])[t].last <= i < n ensures log[i].txn != t || !IsTxnRecord(log[i]) {
      assert log[..n][i] == log[i];
    }
  }

  /** What legality says about the records of t from `master` on. */
  ghost predicate OwnRight(live: map<TxnId, Live>, t: TxnId, own: Lsn, ended: bool) {
    && (t in live ==> !ended && live[t].last >= 1 && (own != 0 ==> own == live[t].last))
    && (t !in live && own != 0 ==> ended)
  }

  lemma {:induction false} OwnStep(live: map<TxnId, Live>, log: seq<LogRecord>, init: map<PageId, Image>, r: LogRecord,
                                   t: TxnId, own: Lsn, ended: bool)
    requires MayAppend(live, log, init, r) && OwnRight(live, t, own, ended)
    ensures if r.txn == t && IsTxnRecord(r)
            then OwnRight(ApplyTxn(live, |log| + 1, r), t, |log| + 1,
                          if IsControl(r.kind) then !r.kind.Begin? else ended)
            else OwnRight(ApplyTxn(live, |log| + 1, r), t, own, ended)
  {
  }

  lemma {:induction false} OwnFacts(log: seq<LogRecord>, init: map<PageId, Image>, master: Lsn, n: nat, t: TxnId)
    requires LegalLog(log, init) && n <= |log|
    ensures OwnRight(Txns(log[..n]), t, OwnLast(log, master, n, t), EndedSince(log, master, n, t))
  {
    hide LegalLog, Txns, MayAppend, ApplyTxn;
    if n != 0 && n >= master {
      OwnFacts(log, init, master, n - 1, t);
      LegalAt(log, init, n - 1);
      hide OwnRight;
      OwnStep(Txns(log[..n - 1]), log[..n - 1], init, log[n - 1], t, OwnLast(log, master, n - 1, t),
              EndedSince(log, master, n - 1, t));
    } else if t in Txns(log[..n]) {
      LastInRange(log, init, t, n);
    }
  }

  lemma {:induction false} NoInvalid(log: seq<LogRecord>, init: map<PageId, Image>)
    requires LegalLog(log, init)
    ensures forall i :: 0 <= i < |log| ==> !log[i].kind.Invalid?
  {
    forall i | 0 <= i < |log| ensures !log[i].kind.Invalid? { LegalAt(log, init, i); }
  }

  /** Analysis is right if and only if the lists do no harm. */
  lemma {:induction false} AnalysisExact(log: seq<LogRecord>, init: map<PageId, Image>, master: Lsn)
    requires LegalLog(log, init)
    ensures AnalysisRight(log, master) <==> Harmless(log, master)
  {
    NoInvalid(log, init);
    forall t ensures RightFor(log, master, t) <==> ListsHarmless(log, master, t) { ExactFor(log, init, master, t); }
    hide ListsHarmless;
    RightForAll(log, master);
  }

  lemma {:induction false} RightForAll(log: seq<LogRecord>, master: Lsn)
    ensures AnalysisRight(log, master) <==> forall t :: RightFor(log, master, t)
  {
    hide TxnTable, Txns;
    if forall t :: RightFor(log, master, t) {
      forall t ensures (IsLoser(TxnTable(log, master, |log|), t) <==> t in Txns(log))
                       && (t in Txns(log) ==> TxnTable(log, master, |log|)[t].lastLsn == Txns(log)[t].last)
      {
        assert RightFor(log, master, t);
      }
    }
  }

  ghost predicate RightFor(log: seq<LogRecord>, master: Lsn, t: TxnId) {
    var txns, live := TxnTable(log, master, |log|), Txns(log);
    (IsLoser(txns, t) <==> t in live) && (t in live ==> txns[t].lastLsn == live[t].last)
  }

  lemma {:induction false} ExactFor(log: seq<LogRecord>, init: map<PageId, Image>, master: Lsn, t: TxnId)
    requires LegalLog(log, init) && forall i :: 0 <= i < |log| ==> !log[i].kind.Invalid?
    ensures RightFor(log, master, t) <==> ListsHarmless(log, master, t)
  {
    hide LegalLog, Txns, Listing, EndedSince, OwnLast, TxnTable;
    var n := |log|;
    assert log[..n] == log;
    TableIs(log, master, n, t);
    OwnFacts(log, init, master, n, t);
    if t in Txns(log) { MaxLastIs(Listing(log, master, n, t), Txns(log)[t].last); }
  }

  /** ---------- Lists that do no harm ---------- */

  /** Only what is about t matters to the listing of t. */
  lemma {:induction false} OtherRecord(log: seq<LogRecord>, r: LogRecord, master: Lsn, n: nat, t: TxnId)
    requires n <= |log|
    ensures Listing(log + [r], master, n, t) == Listing(log, master, n, t)
    ensures OwnLast(log + [r], master, n, t) == OwnLast(log, master, n, t)
    ensures EndedSince(log + [r], master, n, t) == EndedSince(log, master, n, t)
  {
    if n != 0 && n >= master { OtherRecord(log, r, master, n - 1, t); }
  }

  /** Any record but an END_CHECKPOINT keeps the lists harmless. */
  lemma {:induction false} HarmlessSnoc(log: seq<LogRecord>, init: map<PageId, Image>, r: LogRecord, master: Lsn)
    requires LegalLog(log + [r], init) && Harmless(log, master) && master <= |log| && !r.kind.EndCheckpoint?
    ensures Harmless(log + [r], master)
  {
    forall t ensures ListsHarmless(log + [r], master, t) { HarmlessStep(log, init, r, master, t); }
  }

  lemma {:induction false} HarmlessMove(live: map<TxnId, Live>, log: seq<LogRecord>, init: map<PageId, Image>,
                                        r: LogRecord, t: TxnId, xs: seq<CheckpointTxn>, own: Lsn, ended: bool)
    requires MayAppend(live, log, init, r) && !r.kind.EndCheckpoint? && HarmlessAt(live, t, xs, own, ended)
    requires t in live ==> live[t].last <= |log|
    ensures var live', lsn := ApplyTxn(live, |log| + 1, r), |log| + 1;
            if r.txn == t && IsTxnRecord(r) then
              if IsControl(r.kind) then HarmlessAt(live', t, [], lsn, !r.kind.Begin?)
              else HarmlessAt(live', t, xs, lsn, ended)
            else HarmlessAt(live', t, xs, own, ended)
  {
  }

  lemma {:induction false} HarmlessStep(log: seq<LogRecord>, init: map<PageId, Image>, r: LogRecord, master: Lsn,
                                        t: TxnId)
    requires LegalLog(log + [r], init) && ListsHarmless(log, master, t) && master <= |log| && !r.kind.EndCheckpoint?
    ensures ListsHarmless(log + [r], master, t)
  {
    var ext, n := log + [r], |log|;
    assert ext[..n] == log && ext[n] == r && ext[..n + 1] == ext;
    OtherRecord(log, r, master, n, t);
    var xs, own, ended := Listing(log, master, n, t), OwnLast(log, master, n, t), EndedSince(log, master, n, t);
    hide LegalLog, Txns, MayAppend, ApplyTxn, AllRunning, NoneAbove, ListsLast;
    LegalAt(ext, init, n);
    if t in Txns(log) { LastInRange(ext, init, t, n); }
    HarmlessMove(Txns(log), log, init, r, t, xs, own, ended);
  }

  /** A list entry that is right when END_CHECKPOINT is appended behind this log: from
      record `from` on, the transaction has records of its own, or it is still where the
      entry says. */
  ghost predicate ListedOk(log: seq<LogRecord>, from: Lsn, x: CheckpointTxn) {
    var live, own := Txns(log), OwnLast(log, from, |log|, x.txn);
    if x.txn in live then
      IsLoserState(x.state) && x.lastLsn <= live[x.txn].last && (own != 0 || x.lastLsn == live[x.txn].last)
    else own != 0 || !IsLoserState(x.state)
  }

  ghost predicate AllListedOk(log: seq<LogRecord>, from: Lsn, xs: seq<CheckpointTxn>) {
    forall i :: 0 <= i < |xs| ==> ListedOk(log, from, xs[i])
  }

  /** Every open transaction without a record from `from` on is listed. */
  ghost predicate ListsOpen(log: seq<LogRecord>, from: Lsn, xs: seq<CheckpointTxn>) {
    forall t :: t in Txns(log) && OwnLast(log, from, |log|, t) == 0 ==> ListsLast(ListedFor(xs, t), Txns(log)[t].last)
  }

  ghost predicate NoListSince(log: seq<LogRecord>, from: Lsn) {
    forall i :: 0 <= i < |log| && from <= i + 1 ==> !log[i].kind.EndCheckpoint?
  }

  lemma {:induction false} ListedForIn(xs: seq<CheckpointTxn>, t: TxnId)
    ensures forall x :: x in ListedFor(xs, t) ==> x in xs && x.txn == t
    ensures forall i :: 0 <= i < |xs| && xs[i].txn == t ==> xs[i] in ListedFor(xs, t)
  {
    if xs != [] {
      var k := |xs| - 1;
      ListedForIn(xs[..k], t);
      assert forall i :: 0 <= i < k ==> xs[..k][i] == xs[i];
    }
  }

  lemma {:induction false} OwnFromEarlier(log: seq<LogRecord>, master: Lsn, from: Lsn, n: nat, t: TxnId)
    requires n <= |log| && master <= from && OwnLast(log, from, n, t) != 0
    ensures OwnLast(log, master, n, t) != 0
  {
    var l := OwnLast(log, from, n, t);
    assert log[l - 1].txn == t && IsTxnRecord(log[l - 1]);
  }

  /** What is listed for one transaction, given that every entry is right. */
  lemma {:induction false} ListedForOk(log: seq<LogRecord>, from: Lsn, xs: seq<CheckpointTxn>, t: TxnId)
    requires AllListedOk(log, from, xs)
    ensures t in Txns(log) ==> AllRunning(ListedFor(xs, t)) && NoneAbove(ListedFor(xs, t), Txns(log)[t].last)
    ensures t !in Txns(log) && ListedFor(xs, t) != [] && AllRunning(ListedFor(xs, t)) ==>
              OwnLast(log, from, |log|, t) != 0
  {
    hide OwnLast, Txns, ListedFor;
    ListedForIn(xs, t);
    var ys := ListedFor(xs, t);
    forall i | 0 <= i < |ys| ensures ys[i].txn == t && ListedOk(log, from, ys[i]) {
      assert ys[i] in xs;
      var k :| 0 <= k < |xs| && xs[k] == ys[i];
    }
    if ys != [] { assert ListedOk(log, from, ys[0]); }
  }

  /** A list of right entries keeps the lists harmless for the checkpoint in force. */
  lemma {:induction false} HarmlessEnd(log: seq<LogRecord>, init: map<PageId, Image>, r: LogRecord, master: Lsn,
                                       from: Lsn)
    requires LegalLog(log, init) && Harmless(log, master) && master <= |log| && master <= from
    requires r.kind.EndCheckpoint? && AllListedOk(log, from, r.activeTxns)
    ensures Harmless(log + [r], master)
  {
    hide LegalLog, ListsHarmless, AllListedOk;
    forall t ensures ListsHarmless(log + [r], master, t) { HarmlessEndFor(log, init, r, master, from, t); }
  }

  lemma {:induction false} HarmlessEndFor(log: seq<LogRecord>, init: map<PageId, Image>, r: LogRecord, master: Lsn,
                                          from: Lsn, t: TxnId)
    requires LegalLog(log, init) && ListsHarmless(log, master, t) && master <= |log| && master <= from
    requires r.kind.EndCheckpoint? && AllListedOk(log, from, r.activeTxns)
    ensures ListsHarmless(log + [r], master, t)
  {
    hide LegalLog, Txns, Listing, OwnLast, EndedSince, ListedFor, AllListedOk, HarmlessAt, AllRunning, NoneAbove;
    var n, ys := |log|, ListedFor(r.activeTxns, t);
    EndListing(log, r, master, t);
    OwnFacts(log, init, master, n, t);
    assert log[..n] == log;
    ListedForOk(log, from, r.activeTxns, t);
    if OwnLast(log, from, n, t) != 0 { OwnFromEarlier(log, master, from, n, t); }
    HarmlessMore(Txns(log), t, Listing(log, master, n, t), ys, OwnLast(log, master, n, t),
                 EndedSince(log, master, n, t));
  }

  lemma {:induction false} EndListing(log: seq<LogRecord>, r: LogRecord, master: Lsn, t: TxnId)
    requires r.kind.EndCheckpoint? && master <= |log| + 1
    ensures var ext, n := log + [r], |log|;
            && Txns(ext) == Txns(log)
            && Listing(ext, master, n + 1, t) == Listing(log, master, n, t) + ListedFor(r.activeTxns, t)
            && OwnLast(ext, master, n + 1, t) == OwnLast(log, master, n, t)
            && EndedSince(ext, master, n + 1, t) == EndedSince(log, master, n, t)
  {
    OtherRecord(log, r, master, |log|, t);
    TxnsSnoc(log, r);
  }

  lemma {:induction false} HarmlessMore(live: map<TxnId, Live>, t: TxnId, xs: seq<CheckpointTxn>,
                                        ys: seq<CheckpointTxn>, own: Lsn, ended: bool)
    requires HarmlessAt(live, t, xs, own, ended) && OwnRight(live, t, own, ended)
    requires t in live ==> AllRunning(ys) && NoneAbove(ys, live[t].last)
    requires t !in live && ys != [] && AllRunning(ys) ==> own != 0
    ensures HarmlessAt(live, t, xs + ys, own, ended)
  {
    RunningConcat(xs, ys);
    if t in live && ListsLast(xs, live[t].last) {
      var i :| 0 <= i < |xs| && xs[i].lastLsn == live[t].last;
      assert (xs + ys)[i].lastLsn == live[t].last;
    }
  }

  /** A complete list of right entries is harmless for its own checkpoint. */
  lemma {:induction false} HarmlessNew(log: seq<LogRecord>, init: map<PageId, Image>, r: LogRecord, from: Lsn)
    requires LegalLog(log, init) && r.kind.EndCheckpoint? && from <= |log| && NoListSince(log, from)
    requires AllListedOk(log, from, r.activeTxns) && ListsOpen(log, from, r.activeTxns)
    ensures Harmless(log + [r], from)
  {
    hide LegalLog, AllListedOk, Txns, Listing, OwnLast, EndedSince, ListedFor, AllRunning, NoneAbove, ListsLast;
    forall t ensures ListsHarmless(log + [r], from, t) {
      var n, ys := |log|, ListedFor(r.activeTxns, t);
      EndListing(log, r, from, t);
      NothingListedYet(log, from, n, t);
      assert [] + ys == ys;
      OwnFacts(log, init, from, n, t);
      assert log[..n] == log;
      ListedForOk(log, from, r.activeTxns, t);
    }
  }

  lemma {:induction false} NothingListedYet(log: seq<LogRecord>, from: Lsn, n: nat, t: TxnId)
    requires n <= |log| && NoListSince(log, from)
    ensures Listing(log, from, n, t) == []
  {
    if n > 0 { NothingListedYet(log, from, n - 1, t); }
  }

  ghost predicate EntryMatches(e: CheckpointTxn, live: map<TxnId, Live>) {
    && e.txn in live
    && e.lastLsn == live[e.txn].last
    && (e.state == Active || e.state == Waiting || e.state == Aborting)
  }

  /** The list has exactly the open transactions. */
  ghost predicate SnapshotOf(entries: seq<CheckpointTxn>, live: map<TxnId, Live>) {
    && (forall i :: 0 <= i < |entries| ==> EntryMatches(entries[i], live))
    && (forall t :: t in live ==> exists i :: 0 <= i < |entries| && entries[i].txn == t)
  }

  lemma {:induction false} EntryStaysOk(log: seq<LogRecord>, init: map<PageId, Image>, from: Lsn, a: nat,
                                        x: CheckpointTxn)
    requires LegalLog(log, init) && from <= a <= |log| && EntryMatches(x, Txns(log[..a]))
    ensures ListedOk(log, from, x)
  {
    hide LegalLog, Txns;
    var t, n := x.txn, |log|;
    assert log[..n] == log;
    LastInRange(log, init, t, a);
    if t in Txns(log) { LastInRange(log, init, t, n); }
    if forall i :: a <= i < n ==> log[i].txn != t || !IsTxnRecord(log[i]) {
      Unchanged(log, init, t, a, n);
    }
  }

  /** A table read after BEGIN_CHECKPOINT is right and complete whenever the list is
      appended, whatever happened in between. */
  lemma {:induction false} SnapshotIsOk(log: seq<LogRecord>, init: map<PageId, Image>, from: Lsn, a: nat,
                                        xs: seq<CheckpointTxn>)
    requires LegalLog(log, init) && from <= a <= |log| && SnapshotOf(xs, Txns(log[..a]))
    ensures AllListedOk(log, from, xs) && ListsOpen(log, from, xs)
  {
    hide LegalLog, Txns, ListedOk, ListedFor, ListsLast;
    forall i | 0 <= i < |xs| ensures ListedOk(log, from, xs[i]) { EntryStaysOk(log, init, from, a, xs[i]); }
    forall t | t in Txns(log) && OwnLast(log, from, |log|, t) == 0
      ensures ListsLast(ListedFor(xs, t), Txns(log)[t].last)
    {
      OpenIsListed(log, init, from, a, xs, t);
    }
  }

  lemma {:induction false} OpenIsListed(log: seq<LogRecord>, init: map<PageId, Image>, from: Lsn, a: nat,
                                        xs: seq<CheckpointTxn>, t: TxnId)
    requires LegalLog(log, init) && from <= a <= |log| && SnapshotOf(xs, Txns(log[..a]))
    requires t in Txns(log) && OwnLast(log, from, |log|, t) == 0
    ensures ListsLast(ListedFor(xs, t), Txns(log)[t].last)
  {
    hide LegalLog, Txns, ListedFor;
    assert log[..|log|] == log;
    Unchanged(log, init, t, a, |log|);
    ListedForIn(xs, t);
    var i :| 0 <= i < |xs| && xs[i].txn == t;
    assert EntryMatches(xs[i], Txns(log[..a]));
    var k :| 0 <= k < |ListedFor(xs, t)| && ListedFor(xs, t)[k] == xs[i];
  }

  /** ---------- The dirty page table ---------- */

  ghost predicate DirtyBy(dirty: map<PageId, Lsn>, p: PageId, l: Lsn) { p in dirty && dirty[p] <= l }

  lemma {:induction false} MergeDirtyIs(dirty: map<PageId, Lsn>, xs: seq<DirtyPage>, p: PageId, l: Lsn)
    ensures DirtyBy(MergeDirty(dirty, xs), p, l) <==> DirtyBy(dirty, p, l) || Covers(xs, p, l)
  {
    if xs != [] {
      var k := |xs| - 1;
      MergeDirtyIs(dirty, xs[..k], p, l);
      assert Covers(xs, p, l) <==> Covers(xs[..k], p, l) || (xs[k].page == p && xs[k].recLsn <= l) by {
        if Covers(xs[..k], p, l) {
          var i :| 0 <= i < k && xs[..k][i].page == p && xs[..k][i].recLsn <= l;
          assert xs[i].page == p;
        }
        if Covers(xs, p, l) && !(xs[k].page == p && xs[k].recLsn <= l) {
          var i :| 0 <= i < |xs| && xs[i].page == p && xs[i].recLsn <= l;
          assert xs[..k][i].page == p;
        }
      }
    }
  }

  /** Some END_CHECKPOINT from `master` on lists the page from an LSN no later than l. */
  ghost predicate ListedDirty(log: seq<LogRecord>, master: Lsn, n: nat, p: PageId, l: Lsn)
    requires n <= |log|
  {
    exists e :: 0 <= e < n && ListsAt(log[e], master, e, p, l)
  }

  ghost predicate ListsAt(r: LogRecord, master: Lsn, e: nat, p: PageId, l: Lsn) {
    master <= e + 1 && r.kind.EndCheckpoint? && Covers(r.dirtyPages, p, l)
  }

  ghost predicate WrittenIn(log: seq<LogRecord>, master: Lsn, n: nat, p: PageId, l: Lsn)
    requires n <= |log|
  {
    exists i :: 0 <= i < n && master <= i + 1 <= l && WritesPage(log[i], p)
  }

  /** The dirty page table, read off the log. */
  lemma {:induction false} DirtyIs(log: seq<LogRecord>, master: Lsn, n: nat, p: PageId, l: Lsn)
    requires n <= |log|
    ensures DirtyBy(DirtyTable(log, master, n), p, l) <==>
            WrittenIn(log, master, n, p, l) || ListedDirty(log, master, n, p, l)
  {
    if n != 0 && n >= master {
      DirtyIs(log, master, n - 1, p, l);
      MergeDirtyIs(DirtyTable(log, master, n - 1), log[n - 1].dirtyPages, p, l);
      hide MergeDirty, Covers;
      assert ListedDirty(log, master, n, p, l) <==>
             ListedDirty(log, master, n - 1, p, l) || ListsAt(log[n - 1], master, n - 1, p, l);
      assert WrittenIn(log, master, n, p, l) <==>
             WrittenIn(log, master, n - 1, p, l) || (n <= l && WritesPage(log[n - 1], p));
    }
  }

  /** A page is in the dirty page table in time for its last write if and only if that write
      lies at or behind the checkpoint or a checkpoint from there on lists it in time. */
  lemma {:induction false} DirtyExact(log: seq<LogRecord>, master: Lsn, p: PageId)
    requires LastWrite(log, p) > 0
    ensures var l := LastWrite(log, p);
            DirtyBy(DirtyTable(log, master, |log|), p, l) <==> l >= master || ListedDirty(log, master, |log|, p, l)
  {
    DirtyIs(log, master, |log|, p, LastWrite(log, p));
  }

  /** Every page whose last write did not reach the disk is in the dirty page table,
      from an LSN no later than that write. */
  lemma {:induction false} AnalysisFindsDirty(log: seq<LogRecord>, init: map<PageId, Image>, disk: map<PageId, Page>,
                                              master: Lsn, p: PageId)
    requires MasterOk(log, disk, master)
    requires p in disk && LastWrite(log, p) > disk[p].lsn
    ensures DirtyBy(DirtyTable(log, master, |log|), p, LastWrite(log, p))
  {
    hide LastWrite, DirtyTable, Covers;
    var l := LastWrite(log, p);
    if l < master {
      var e: nat :| Completes(log, disk, master, e);
      LastWritePrefix(log, master, p);
      assert ListsAt(log[e], master, e, p, l);
    }
    DirtyExact(log, master, p);
  }
}
