/** Legal histories of the write-ahead log.

    A log is a sequence of records; the record at index i has LSN i + 1. `Txns`
    replays the transaction bookkeeping of a log, `Enabled` says which record may
    be appended next (by normal processing, by a rollback or by restart undo), and
    `LegalLog` is the set of logs that arise that way, whatever the checkpoints list.
    `CommittedImage` says, without looking at any of that bookkeeping, what a page must
    hold after a crash. */
module History {
  import opened WalRecords

  /** What the log says about a transaction that has begun and not ended: its last
      record, its updates that no CLR compensates (newest first), and whether it has
      started to roll back. */
  datatype Live = Live(last: Lsn, todo: seq<Lsn>, aborting: bool)

  ghost function ApplyTxn(live: map<TxnId, Live>, lsn: Lsn, r: LogRecord): map<TxnId, Live> {
    if r.kind.Begin? then
      live[r.txn := Live(lsn, [], false)]
    else if r.kind.Commit? || r.kind.Abort? then
      live - {r.txn}
    else if r.txn !in live then
      live
    else if IsUndoablePageRecord(r.kind) then
      live[r.txn := live[r.txn].(last := lsn, todo := [lsn] + live[r.txn].todo)]
    else if r.kind.Clr? && live[r.txn].todo != [] then
      live[r.txn := Live(lsn, live[r.txn].todo[1..], true)]
    else
      live
  }

  ghost function Txns(log: seq<LogRecord>): map<TxnId, Live> {
    if log == [] then map[]
    else ApplyTxn(Txns(log[..|log| - 1]), |log|, log[|log| - 1])
  }

  predicate WritesPage(r: LogRecord, p: PageId) {
    IsPageUpdateRecord(r.kind) && r.hasPage && r.page == p
  }

  /** LSN of the last record that writes page p, 0 if there is none. */
  ghost function LastWrite(log: seq<LogRecord>, p: PageId): (l: Lsn)
    ensures l <= |log|
    ensures l > 0 ==> WritesPage(log[l - 1], p)
    ensures forall i :: l <= i < |log| ==> !WritesPage(log[i], p)
  {
    if log == [] then 0
    else if WritesPage(log[|log| - 1], p) then |log|
    else LastWrite(log[..|log| - 1], p)
  }

  /** The bytes page p has once every record of the log is applied in order. */
  ghost function Value(log: seq<LogRecord>, init: map<PageId, Image>, p: PageId): Image
    requires p in init
  {
    var l := LastWrite(log, p);
    if l == 0 then init[p] else log[l - 1].after
  }

  /** The page is touched by an uncompensated update in the list. */
  ghost predicate Touches(log: seq<LogRecord>, todo: seq<Lsn>, p: PageId) {
    exists k :: 0 <= k < |todo| && UpdateOn(log, todo[k], p)
  }

  ghost predicate UpdateOn(log: seq<LogRecord>, l: Lsn, p: PageId) {
    1 <= l <= |log| && log[l - 1].page == p
  }

  /** Page exclusivity: no other live transaction has an uncompensated update on p. */
  ghost predicate Exclusive(live: map<TxnId, Live>, log: seq<LogRecord>, t: TxnId, p: PageId) {
    forall u :: u in live && u != t ==> !Touches(log, live[u].todo, p)
  }

  /** A back link names an earlier record of the same transaction, or nothing. */
  ghost predicate LinkOk(log: seq<LogRecord>, t: TxnId, l: Lsn) {
    l != 0 ==> l <= |log| && log[l - 1].txn == t
  }

  ghost predicate LinksOk(log: seq<LogRecord>) {
    forall i :: 0 <= i < |log| ==>
      && LinkOk(log[..i], log[i].txn, log[i].prevLsn)
      && (log[i].kind.Clr? ==> LinkOk(log[..i], log[i].txn, log[i].undoNextLsn))
  }

  /** Record r may follow a log whose live transactions are `live`. */
  ghost predicate MayAppend(live: map<TxnId, Live>, log: seq<LogRecord>, init: map<PageId, Image>, r: LogRecord) {
    match r.kind
    case Invalid => false
    case Begin => r.txn !in live && r.prevLsn == 0
    case Commit => r.txn in live && !live[r.txn].aborting && r.prevLsn == live[r.txn].last
    case Abort => r.txn in live && live[r.txn].todo == [] && LinkOk(log, r.txn, r.prevLsn)
    case BeginCheckpoint => r.prevLsn == 0
    case EndCheckpoint =>
      && 1 <= r.prevLsn <= |log|
      && log[r.prevLsn - 1].kind.BeginCheckpoint? && log[r.prevLsn - 1].txn == r.txn
    case Clr =>
      && r.hasPage && r.txn in live && live[r.txn].todo != []
      && r.prevLsn == live[r.txn].last
      && 1 <= live[r.txn].todo[0] <= |log|
      && var u := log[live[r.txn].todo[0] - 1];
      r.page == u.page && r.after == u.before && r.undoNextLsn == u.prevLsn
    case _ =>
      && r.hasPage && r.page in init && |r.before| == |r.after| == PAGE_SIZE
      && r.txn in live && !live[r.txn].aborting
      && r.prevLsn == live[r.txn].last
      && r.before == Value(log, init, r.page)
      && Exclusive(live, log, r.txn, r.page)
  }

  ghost predicate Enabled(log: seq<LogRecord>, init: map<PageId, Image>, r: LogRecord) {
    MayAppend(Txns(log), log, init, r)
  }

  ghost predicate LegalLog(log: seq<LogRecord>, init: map<PageId, Image>) {
    log == [] ||
    (LegalLog(log[..|log| - 1], init) && Enabled(log[..|log| - 1], init, log[|log| - 1]))
  }

  /** ---------- What must survive a crash ---------- */

  ghost predicate NoBegin(log: seq<LogRecord>, t: TxnId, i: int, j: int)
    requires -1 <= i && j <= |log|
  {
    forall k :: i < k < j ==> !(log[k].kind.Begin? && log[k].txn == t)
  }

  /** The transaction that wrote record i committed. Transaction ids start again at 1
      when the engine is reopened, so the COMMIT must belong to the same incarnation:
      no BEGIN of that id lies between the record and the COMMIT. */
  ghost predicate Winner(log: seq<LogRecord>, i: int)
    requires 0 <= i < |log|
  {
    exists j :: i < j < |log| && log[j].kind.Commit? && log[j].txn == log[i].txn
             && NoBegin(log, log[i].txn, i, j)
  }

  ghost predicate WinnerUpdate(log: seq<LogRecord>, i: int, p: PageId)
    requires 0 <= i < |log|
  {
    IsUndoablePageRecord(log[i].kind) && WritesPage(log[i], p) && Winner(log, i)
  }

  /** LSN of the last update of page p by a committed transaction, looking at the
      first n records; 0 if there is none. */
  ghost function LastCommitted(log: seq<LogRecord>, p: PageId, n: nat): (l: Lsn)
    requires n <= |log|
    ensures l <= n
    ensures l > 0 ==> WinnerUpdate(log, l - 1, p)
    ensures forall i :: l <= i < n ==> !WinnerUpdate(log, i, p)
  {
    if n == 0 then 0
    else if WinnerUpdate(log, n - 1, p) then n
    else LastCommitted(log, p, n - 1)
  }

  ghost function CommittedImage(log: seq<LogRecord>, init: map<PageId, Image>, p: PageId): Image
    requires p in init
  {
    var l := LastCommitted(log, p, |log|);
    if l == 0 then init[p] else log[l - 1].after
  }

  /** ---------- Invariants of a legal history ---------- */

  /** The updates met when undo walks back from LSN l. */
  ghost function Chain(log: seq<LogRecord>, l: Lsn): seq<Lsn>
    decreases l
  {
    if l == 0 || l > |log| then []
    else
      var r := log[l - 1];
      if r.kind.Clr? then (if r.undoNextLsn < l then Chain(log, r.undoNextLsn) else [])
      else if r.kind.Begin? then []
      else
        var rest := if r.prevLsn < l then Chain(log, r.prevLsn) else [];
        if IsUndoablePageRecord(r.kind) then [l] + rest else rest
  }

  ghost predicate TodoOk(log: seq<LogRecord>, t: TxnId, todo: seq<Lsn>) {
    forall k :: 0 <= k < |todo| ==> TodoEntryOk(log, t, todo[k])
  }

  ghost predicate TodoEntryOk(log: seq<LogRecord>, t: TxnId, l: Lsn) {
    && 1 <= l <= |log|
    && IsUndoablePageRecord(log[l - 1].kind) && log[l - 1].hasPage && log[l - 1].txn == t
    && |log[l - 1].before| == PAGE_SIZE
    && 1 <= log[l - 1].prevLsn < l
    && NoBegin(log, t, l - 1, |log|)
  }

  ghost predicate LiveOk(log: seq<LogRecord>, t: TxnId, x: Live) {
    && 1 <= x.last <= |log|
    && log[x.last - 1].txn == t
    && !IsTxnEndRecord(log[x.last - 1].kind) && !IsCheckpointRecord(log[x.last - 1].kind)
    && (forall i :: x.last <= i < |log| ==> log[i].txn != t || IsCheckpointRecord(log[i].kind))
    && TodoOk(log, t, x.todo)
    && Chain(log, x.last) == x.todo
  }

  /** Every update of the current incarnation of a transaction that is not rolling
      back is still on its list. */
  ghost predicate TodoComplete(log: seq<LogRecord>, t: TxnId, x: Live) {
    !x.aborting ==>
      forall i :: 0 <= i < |log| && CurrentUpdate(log, t, i) ==> i + 1 in x.todo
  }

  ghost predicate CurrentUpdate(log: seq<LogRecord>, t: TxnId, i: int)
    requires 0 <= i < |log|
  {
    log[i].txn == t && IsUndoablePageRecord(log[i].kind) && NoBegin(log, t, i, |log|)
  }

  /** The oldest uncompensated update of a page remembers its committed bytes. */
  ghost predicate OldestRemembers(log: seq<LogRecord>, init: map<PageId, Image>, todo: seq<Lsn>, p: PageId)
    requires p in init
  {
    forall k :: 0 <= k < |todo| && IsOldest(log, todo, p, k) ==> log[todo[k] - 1].before == CommittedImage(log, init, p)
  }

  ghost predicate IsOldest(log: seq<LogRecord>, todo: seq<Lsn>, p: PageId, k: int)
    requires 0 <= k < |todo|
  {
    UpdateOn(log, todo[k], p) && forall m :: k < m < |todo| ==> !UpdateOn(log, todo[m], p)
  }

  /** A page without uncompensated updates holds its committed bytes. */
  ghost predicate Settled(live: map<TxnId, Live>, log: seq<LogRecord>, init: map<PageId, Image>, p: PageId)
    requires p in init
  {
    (forall t :: t in live ==> !Touches(log, live[t].todo, p)) ==> Value(log, init, p) == CommittedImage(log, init, p)
  }

  ghost predicate AllRemember(live: map<TxnId, Live>, log: seq<LogRecord>, init: map<PageId, Image>, p: PageId)
    requires p in init
  {
    forall t :: t in live ==> OldestRemembers(log, init, live[t].todo, p)
  }

  /** A transaction that is not rolling back wrote its pages last. */
  ghost predicate WroteLast(live: map<TxnId, Live>, log: seq<LogRecord>, p: PageId) {
    forall t :: t in live && !live[t].aborting && Touches(log, live[t].todo, p) ==> LastWrite(log, p) in live[t].todo
  }

  ghost predicate OneOwner(live: map<TxnId, Live>, log: seq<LogRecord>, p: PageId) {
    forall t, u :: t in live && u in live && Touches(log, live[t].todo, p) && Touches(log, live[u].todo, p) ==> t == u
  }

  ghost predicate PageOk(live: map<TxnId, Live>, log: seq<LogRecord>, init: map<PageId, Image>, p: PageId)
    requires p in init
  {
    Settled(live, log, init, p) && AllRemember(live, log, init, p) && WroteLast(live, log, p) && OneOwner(live, log, p)
  }

  ghost predicate Inv(live: map<TxnId, Live>, log: seq<LogRecord>, init: map<PageId, Image>) {
    && (forall t :: t in live ==> LiveOk(log, t, live[t]) && TodoComplete(log, t, live[t]))
    && (forall p :: p in init ==> PageOk(live, log, init, p))
    && PageRecordsOk(log, init)
  }

  ghost predicate PageRecordsOk(log: seq<LogRecord>, init: map<PageId, Image>) {
    (forall i :: 0 <= i < |log| && IsPageUpdateRecord(log[i].kind) ==>
          log[i].hasPage && log[i].page in init && |log[i].after| == PAGE_SIZE)
  }
}
