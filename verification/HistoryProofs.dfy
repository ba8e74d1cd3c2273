/** Every legal history satisfies `Inv`, so what undo restores is exactly the
    committed bytes of each page. */
module HistoryProofs {
  import opened WalRecords
  import opened History

  /** ---------- How each derived notion grows by one record ---------- */

  lemma {:induction false} TxnsSnoc(log: seq<LogRecord>, r: LogRecord)
    ensures Txns(log + [r]) == ApplyTxn(Txns(log), |log| + 1, r)
  {
  }

  lemma {:induction false} HistorySnoc(log: seq<LogRecord>, init: map<PageId, Image>, r: LogRecord)
    requires LegalLog(log, init) && Enabled(log, init, r)
    ensures LegalLog(log + [r], init)
  {
  }

  lemma {:induction false} LastWriteSnoc(log: seq<LogRecord>, r: LogRecord, p: PageId)
    ensures LastWrite(log + [r], p) == if WritesPage(r, p) then |log| + 1 else LastWrite(log, p)
  {
  }

  lemma {:induction false} ValueSnoc(log: seq<LogRecord>, init: map<PageId, Image>, r: LogRecord, p: PageId)
    requires p in init
    ensures Value(log + [r], init, p) == if WritesPage(r, p) then r.after else Value(log, init, p)
  {
  }

  lemma {:induction false} ChainSnoc(log: seq<LogRecord>, r: LogRecord, l: Lsn)
    requires l <= |log|
    ensures Chain(log + [r], l) == Chain(log, l)
    decreases l
  {
    if l > 0 {
      var x := log[l - 1];
      assert (log + [r])[l - 1] == x;
      if x.undoNextLsn < l { ChainSnoc(log, r, x.undoNextLsn); }
      if x.prevLsn < l { ChainSnoc(log, r, x.prevLsn); }
    }
  }

  lemma {:induction false} NoBeginSnoc(log: seq<LogRecord>, r: LogRecord, t: TxnId, i: int, j: int)
    requires -1 <= i && j <= |log|
    ensures NoBegin(log + [r], t, i, j) == NoBegin(log, t, i, j)
  {
    var ext := log + [r];
    if NoBegin(ext, t, i, j) {
      forall k | i < k < j ensures !(log[k].kind.Begin? && log[k].txn == t) {
        assert ext[k] == log[k];
      }
    }
  }

  /** A record becomes a winner exactly when the COMMIT of its incarnation arrives. */
  lemma {:induction false} WinnerSnoc(log: seq<LogRecord>, r: LogRecord, i: int)
    requires 0 <= i < |log|
    ensures Winner(log + [r], i) <==>
            Winner(log, i) || (r.kind.Commit? && r.txn == log[i].txn && NoBegin(log, r.txn, i, |log|))
  {
    var ext := log + [r];
    var t := log[i].txn;
    if Winner(log, i) {
      var j :| i < j < |log| && log[j].kind.Commit? && log[j].txn == t && NoBegin(log, t, i, j);
      NoBeginSnoc(log, r, t, i, j);
      assert ext[j] == log[j];
    }
    if r.kind.Commit? && r.txn == t && NoBegin(log, t, i, |log|) {
      NoBeginSnoc(log, r, t, i, |log|);
      assert ext[|log|] == r;
    }
    if Winner(ext, i) {
      var j :| i < j < |ext| && ext[j].kind.Commit? && ext[j].txn == t && NoBegin(ext, t, i, j);
      NoBeginSnoc(log, r, t, i, j);
    }
  }

  lemma {:induction false} LastCommittedSame(log: seq<LogRecord>, r: LogRecord, p: PageId, n: nat)
    requires n <= |log|
    requires forall i :: 0 <= i < n && WritesPage(log[i], p) && IsUndoablePageRecord(log[i].kind) ==>
               (Winner(log + [r], i) <==> Winner(log, i))
    ensures LastCommitted(log + [r], p, n) == LastCommitted(log, p, n)
  {
    if n > 0 {
      assert (log + [r])[n - 1] == log[n - 1];
      LastCommittedSame(log, r, p, n - 1);
    }
  }

  /** Only a COMMIT can change the committed bytes of a page. */
  lemma {:induction false} CommittedSnoc(log: seq<LogRecord>, init: map<PageId, Image>, r: LogRecord, p: PageId)
    requires p in init
    requires r.kind.Commit? ==>
               forall i :: 0 <= i < |log| && CurrentUpdate(log, r.txn, i) ==> log[i].page != p
    ensures CommittedImage(log + [r], init, p) == CommittedImage(log, init, p)
  {
    forall i | 0 <= i < |log| && WritesPage(log[i], p) && IsUndoablePageRecord(log[i].kind)
      ensures Winner(log + [r], i) <==> Winner(log, i)
    {
      WinnerSnoc(log, r, i);
    }
    LastCommittedSame(log, r, p, |log|);
    assert !Winner(log + [r], |log|);
  }

  /** The COMMIT of the transaction that wrote a page last makes that write the
      committed one. */
  lemma {:induction false} CommittedByCommit(log: seq<LogRecord>, init: map<PageId, Image>, r: LogRecord, p: PageId)
    requires p in init && r.kind.Commit?
    requires LastWrite(log, p) > 0
    requires CurrentUpdate(log, r.txn, LastWrite(log, p) - 1)
    ensures CommittedImage(log + [r], init, p) == Value(log, init, p)
  {
    var ext := log + [r];
    var l := LastWrite(log, p);
    WinnerSnoc(log, r, l - 1);
    assert ext[l - 1] == log[l - 1];
    assert WinnerUpdate(ext, l - 1, p);
    var c := LastCommitted(ext, p, |ext|);
    assert forall i :: l <= i < |ext| ==> !WritesPage(ext[i], p);
    assert c == l;
  }

  /** ---------- Preservation of the invariant, part by part ---------- */

  lemma {:induction false} LiveOkOther(log: seq<LogRecord>, r: LogRecord, t: TxnId, x: Live)
    requires LiveOk(log, t, x)
    requires r.txn != t || IsCheckpointRecord(r.kind)
    ensures LiveOk(log + [r], t, x)
  {
    var ext := log + [r];
    ChainSnoc(log, r, x.last);
    forall k | 0 <= k < |x.todo| ensures TodoEntryOk(ext, t, x.todo[k]) {
      assert TodoEntryOk(log, t, x.todo[k]);
      NoBeginSnoc(log, r, t, x.todo[k] - 1, |log|);
    }
  }

  lemma {:induction false} LiveOkClr(log: seq<LogRecord>, r: LogRecord, t: TxnId, x: Live)
    requires LiveOk(log, t, x) && x.todo != [] && r.kind.Clr? && r.txn == t
    requires 1 <= x.todo[0] <= |log| && r.undoNextLsn == log[x.todo[0] - 1].prevLsn
    ensures LiveOk(log + [r], t, Live(|log| + 1, x.todo[1..], true))
  {
    var ext := log + [r];
    assert TodoEntryOk(log, t, x.todo[0]);
    ChainHead(log, x.last);
    ChainSnoc(log, r, r.undoNextLsn);
    assert ext[|log|] == r;
    assert Chain(ext, |ext|) == Chain(ext, r.undoNextLsn) == x.todo[1..];
    forall k | 0 <= k < |x.todo[1..]| ensures TodoEntryOk(ext, t, x.todo[1..][k]) {
      assert TodoEntryOk(log, t, x.todo[k + 1]);
      NoBeginSnoc(log, r, t, x.todo[k + 1] - 1, |log|);
    }
  }

  lemma {:induction false} LiveOkUpdate(log: seq<LogRecord>, r: LogRecord, t: TxnId, x: Live)
    requires LiveOk(log, t, x) && r.kind.PageUpdate? && r.txn == t
    requires r.prevLsn == x.last && r.hasPage && |r.before| == PAGE_SIZE
    ensures LiveOk(log + [r], t, Live(|log| + 1, [|log| + 1] + x.todo, false))
  {
    var ext := log + [r];
    ChainSnoc(log, r, x.last);
    assert ext[|log|] == r;
    assert Chain(ext, |ext|) == [|ext|] + Chain(ext, x.last);
    forall k | 0 <= k < |x.todo| + 1 ensures TodoEntryOk(ext, t, ([|ext|] + x.todo)[k]) {
      if k > 0 {
        assert TodoEntryOk(log, t, x.todo[k - 1]);
        NoBeginSnoc(log, r, t, x.todo[k - 1] - 1, |log|);
      }
    }
  }

  lemma {:induction false} LiveOkStep(live: map<TxnId, Live>, log: seq<LogRecord>, init: map<PageId, Image>,
                                      r: LogRecord, t: TxnId)
    requires forall u :: u in live ==> LiveOk(log, u, live[u])
    requires MayAppend(live, log, init, r)
    requires t in ApplyTxn(live, |log| + 1, r)
    ensures LiveOk(log + [r], t, ApplyTxn(live, |log| + 1, r)[t])
  {
    if r.txn != t || IsCheckpointRecord(r.kind) {
      LiveOkOther(log, r, t, live[t]);
    } else if r.kind.Clr? {
      LiveOkClr(log, r, t, live[t]);
    } else if r.kind.PageUpdate? {
      LiveOkUpdate(log, r, t, live[t]);
    } else {
      assert (log + [r])[|log|] == r;
    }
  }

  /** The first update met from l heads the rest of the walk. */
  lemma {:induction false} ChainHead(log: seq<LogRecord>, l: Lsn)
    requires Chain(log, l) != []
    ensures 1 <= Chain(log, l)[0] <= |log| && Chain(log, l)[0] <= l
    ensures Chain(log, Chain(log, l)[0]) == Chain(log, l)
    ensures var u := log[Chain(log, l)[0] - 1];
            Chain(log, l)[1..] == if u.prevLsn < Chain(log, l)[0] then Chain(log, u.prevLsn) else []
    decreases l
  {
    var r := log[l - 1];
    if !IsUndoablePageRecord(r.kind) {
      var next := if r.kind.Clr? then r.undoNextLsn else r.prevLsn;
      assert next < l && Chain(log, l) == Chain(log, next);
      ChainHead(log, next);
    } else {
      var rest := if r.prevLsn < l then Chain(log, r.prevLsn) else [];
      assert Chain(log, l) == [l] + rest;
    }
  }

  lemma {:induction false} TodoCompleteStep(log: seq<LogRecord>, r: LogRecord, t: TxnId, x: Live, x': Live)
    requires TodoComplete(log, t, x)
    requires !(r.kind.Begin? && r.txn == t)
    requires x'.aborting || x' == x.(last := x'.last) || x' == x.(last := x'.last, todo := [|log| + 1] + x.todo)
    requires r.kind.PageUpdate? && r.txn == t && !x'.aborting ==> x'.todo == [|log| + 1] + x.todo
    ensures TodoComplete(log + [r], t, x')
  {
    var ext := log + [r];
    if !x'.aborting {
      forall i | 0 <= i < |ext| && CurrentUpdate(ext, t, i) ensures i + 1 in x'.todo {
        if i < |log| {
          NoBeginSnoc(log, r, t, i, |log|);
          assert CurrentUpdate(log, t, i);
          assert i + 1 in x.todo;
        }
      }
    }
  }

  lemma {:induction false} TodoCompleteBegin(log: seq<LogRecord>, r: LogRecord, t: TxnId, x: Live)
    requires r.kind.Begin? && r.txn == t
    ensures TodoComplete(log + [r], t, x)
  {
    var ext := log + [r];
    assert ext[|log|] == r;
    forall i | 0 <= i < |ext| ensures !CurrentUpdate(ext, t, i) {
      if i < |log| { assert !NoBegin(ext, t, i, |ext|); }
    }
  }

  lemma {:induction false} TouchesOld(log: seq<LogRecord>, r: LogRecord, t: TxnId, x: Live, p: PageId)
    requires LiveOk(log, t, x)
    ensures Touches(log + [r], x.todo, p) == Touches(log, x.todo, p)
    ensures forall k :: 0 <= k < |x.todo| ==> UpdateOn(log + [r], x.todo[k], p) == UpdateOn(log, x.todo[k], p)
  {
  }

  /** A list that does not change keeps remembering an unchanged committed image. */
  lemma {:induction false} OldestOld(log: seq<LogRecord>, init: map<PageId, Image>, r: LogRecord, t: TxnId, x: Live,
                                     p: PageId)
    requires p in init && LiveOk(log, t, x)
    requires OldestRemembers(log, init, x.todo, p)
    requires CommittedImage(log + [r], init, p) == CommittedImage(log, init, p)
    ensures OldestRemembers(log + [r], init, x.todo, p)
  {
  }

  /** What one more record leaves alone, for all lists of the log before it. */
  lemma {:induction false} Frame(live: map<TxnId, Live>, log: seq<LogRecord>, init: map<PageId, Image>, r: LogRecord,
                                 p: PageId)
    requires Inv(live, log, init) && p in init
    ensures forall u :: u in live ==> Touches(log + [r], live[u].todo, p) == Touches(log, live[u].todo, p)
    ensures CommittedImage(log + [r], init, p) == CommittedImage(log, init, p) ==> AllRemember(live, log + [r], init, p)
  {
    forall u | u in live
      ensures Touches(log + [r], live[u].todo, p) == Touches(log, live[u].todo, p)
      ensures CommittedImage(log + [r], init, p) == CommittedImage(log, init, p) ==>
                OldestRemembers(log + [r], init, live[u].todo, p)
    {
      assert LiveOk(log, u, live[u]) && PageOk(live, log, init, p);
      TouchesOld(log, r, u, live[u], p);
      if CommittedImage(log + [r], init, p) == CommittedImage(log, init, p) {
        OldestOld(log, init, r, u, live[u], p);
      }
    }
  }

  lemma {:induction false} NothingTouched(log: seq<LogRecord>, p: PageId)
    ensures !Touches(log, [], p)
  {
  }

  /** BEGIN, ABORT and checkpoint records: lists appear or disappear only empty. */
  lemma {:induction false} PageOkQuiet(live: map<TxnId, Live>, live': map<TxnId, Live>, log: seq<LogRecord>,
                                       init: map<PageId, Image>, r: LogRecord, p: PageId)
    requires Inv(live, log, init) && p in init
    requires !IsPageUpdateRecord(r.kind) && !r.kind.Commit?
    requires forall t :: t in live' ==> (t in live && live'[t] == live[t]) || live'[t].todo == []
    requires forall t :: t in live ==> (t in live' && live'[t] == live[t]) || live[t].todo == []
    ensures PageOk(live', log + [r], init, p)
  {
    var ext := log + [r];
    ValueSnoc(log, init, r, p);
    LastWriteSnoc(log, r, p);
    CommittedSnoc(log, init, r, p);
    Frame(live, log, init, r, p);
    assert PageOk(live, log, init, p);
    NothingTouched(ext, p);
    NothingTouched(log, p);
    forall t | t in live' ensures Touches(ext, live'[t].todo, p) ==> t in live && live'[t] == live[t] {}
    forall t | t in live && Touches(log, live[t].todo, p) ensures t in live' && Touches(ext, live'[t].todo, p) {}
    assert Settled(live', ext, init, p);
  }

  lemma {:induction false} PushTouches(log: seq<LogRecord>, r: LogRecord, todo: seq<Lsn>, p: PageId)
    ensures Touches(log + [r], [|log| + 1] + todo, p) <==> r.page == p || Touches(log + [r], todo, p)
  {
    var ext := log + [r];
    var todo' := [|ext|] + todo;
    if r.page == p { assert UpdateOn(ext, todo'[0], p); }
    if Touches(ext, todo, p) {
      var k :| 0 <= k < |todo| && UpdateOn(ext, todo[k], p);
      assert UpdateOn(ext, todo'[k + 1], p);
    }
    if Touches(ext, todo', p) {
      var k :| 0 <= k < |todo'| && UpdateOn(ext, todo'[k], p);
      if k > 0 { assert UpdateOn(ext, todo[k - 1], p); }
    }
  }

  lemma {:induction false} PushOldest(log: seq<LogRecord>, init: map<PageId, Image>, r: LogRecord, todo: seq<Lsn>,
                                      p: PageId)
    requires p in init
    requires OldestRemembers(log + [r], init, todo, p)
    requires r.page == p && !Touches(log + [r], todo, p) ==> r.before == CommittedImage(log + [r], init, p)
    ensures OldestRemembers(log + [r], init, [|log| + 1] + todo, p)
  {
    var ext := log + [r];
    var todo' := [|ext|] + todo;
    hide CommittedImage;
    forall k | 0 <= k < |todo'| && IsOldest(ext, todo', p, k)
      ensures ext[todo'[k] - 1].before == CommittedImage(ext, init, p)
    {
      if k > 0 {
        forall m | k - 1 < m < |todo| ensures !UpdateOn(ext, todo[m], p) {
          assert !UpdateOn(ext, todo'[m + 1], p);
        }
        assert IsOldest(ext, todo, p, k - 1);
      } else {
        forall m | 0 <= m < |todo| ensures !UpdateOn(ext, todo[m], p) {
          assert !UpdateOn(ext, todo'[m + 1], p);
        }
      }
    }
  }

  lemma {:induction false} PageOkUpdate(live: map<TxnId, Live>, live': map<TxnId, Live>, log: seq<LogRecord>,
                                        init: map<PageId, Image>, r: LogRecord, p: PageId)
    requires r.txn in live && live' == live[r.txn := Live(|log| + 1, [|log| + 1] + live[r.txn].todo, false)]
    requires p in init && r.kind.PageUpdate? && Inv(live, log, init) && MayAppend(live, log, init, r)
    ensures PageOk(live', log + [r], init, p)
  {
    hide LastCommitted, LastWrite, CommittedImage;
    CommittedSnoc(log, init, r, p);
    Frame(live, log, init, r, p);
    PushTouches(log, r, live[r.txn].todo, p);
    assert PageOk(live, log, init, p);
    if r.page == p && !Touches(log, live[r.txn].todo, p) {
      assert forall u :: u in live ==> !Touches(log, live[u].todo, p);
    }
    PushOldest(log, init, r, live[r.txn].todo, p);
    UpdateOwners(live, live', log, init, r, p);
  }

  /** Ownership after an update, from who touched the page before it. */
  lemma {:induction false} UpdateOwners(live: map<TxnId, Live>, live': map<TxnId, Live>, log: seq<LogRecord>,
                                        init: map<PageId, Image>, r: LogRecord, p: PageId)
    requires p in init && r.kind.PageUpdate? && r.hasPage && r.txn in live && !live[r.txn].aborting
    requires live' == live[r.txn := Live(|log| + 1, [|log| + 1] + live[r.txn].todo, false)]
    requires Settled(live, log, init, p) && WroteLast(live, log, p) && OneOwner(live, log, p)
    requires r.page == p ==> Exclusive(live, log, r.txn, p)
    requires forall u :: u in live ==> Touches(log + [r], live[u].todo, p) == Touches(log, live[u].todo, p)
    requires Touches(log + [r], live'[r.txn].todo, p) <==> r.page == p || Touches(log + [r], live[r.txn].todo, p)
    requires CommittedImage(log + [r], init, p) == CommittedImage(log, init, p)
    ensures Settled(live', log + [r], init, p) && WroteLast(live', log + [r], p) && OneOwner(live', log + [r], p)
  {
    hide LastCommitted, LastWrite, CommittedImage, Value;
    var ext := log + [r];
    ValueSnoc(log, init, r, p);
    LastWriteSnoc(log, r, p);
    if forall u :: u in live' ==> !Touches(ext, live'[u].todo, p) {
      assert r.txn in live';
      forall u | u in live ensures !Touches(log, live[u].todo, p) { assert u in live'; }
    }
  }

  lemma {:induction false} PopTouches(log: seq<LogRecord>, todo: seq<Lsn>, p: PageId)
    requires todo != []
    ensures Touches(log, todo, p) <==> UpdateOn(log, todo[0], p) || Touches(log, todo[1..], p)
  {
  }

  lemma {:induction false} PopOldest(log: seq<LogRecord>, init: map<PageId, Image>, todo: seq<Lsn>, p: PageId)
    requires p in init && todo != [] && OldestRemembers(log, init, todo, p)
    ensures OldestRemembers(log, init, todo[1..], p)
    ensures UpdateOn(log, todo[0], p) && !Touches(log, todo[1..], p) ==>
              log[todo[0] - 1].before == CommittedImage(log, init, p)
  {
  }

  lemma {:induction false} PageOkClr(live: map<TxnId, Live>, live': map<TxnId, Live>, log: seq<LogRecord>,
                                     init: map<PageId, Image>, r: LogRecord, p: PageId)
    requires p in init && r.kind.Clr? && r.hasPage && r.txn in live && live[r.txn].todo != []
    requires PageOk(live, log, init, p)
    requires forall u :: u in live ==> Touches(log + [r], live[u].todo, p) == Touches(log, live[u].todo, p)
    requires CommittedImage(log + [r], init, p) == CommittedImage(log, init, p)
    requires AllRemember(live, log + [r], init, p)
    requires 1 <= live[r.txn].todo[0] <= |log|
    requires r.page == log[live[r.txn].todo[0] - 1].page && r.after == log[live[r.txn].todo[0] - 1].before
    requires live' == live[r.txn := Live(|log| + 1, live[r.txn].todo[1..], true)]
    ensures PageOk(live', log + [r], init, p)
  {
    hide LastCommitted, LastWrite, CommittedImage, Value;
    var ext := log + [r];
    var todo := live[r.txn].todo;
    PopTouches(ext, todo, p);
    PopOldest(ext, init, todo, p);
    assert ext[todo[0] - 1] == log[todo[0] - 1];
    assert UpdateOn(ext, todo[0], p) <==> r.page == p;
    assert AllRemember(live', ext, init, p);
    ClrOwners(live, live', log, init, r, p);
  }

  /** Ownership after a CLR, from who touched the page before it. */
  lemma {:induction false} ClrOwners(live: map<TxnId, Live>, live': map<TxnId, Live>, log: seq<LogRecord>,
                                     init: map<PageId, Image>, r: LogRecord, p: PageId)
    requires p in init && r.kind.Clr? && r.hasPage && r.txn in live && live[r.txn].todo != []
    requires live' == live[r.txn := Live(|log| + 1, live[r.txn].todo[1..], true)]
    requires Settled(live, log, init, p) && WroteLast(live, log, p) && OneOwner(live, log, p)
    requires forall u :: u in live ==> Touches(log + [r], live[u].todo, p) == Touches(log, live[u].todo, p)
    requires Touches(log + [r], live[r.txn].todo, p) <==> r.page == p || Touches(log + [r], live'[r.txn].todo, p)
    requires CommittedImage(log + [r], init, p) == CommittedImage(log, init, p)
    requires r.page == p && !Touches(log + [r], live'[r.txn].todo, p) ==> r.after == CommittedImage(log, init, p)
    ensures Settled(live', log + [r], init, p) && WroteLast(live', log + [r], p) && OneOwner(live', log + [r], p)
  {
    hide LastCommitted, LastWrite, CommittedImage, Value;
    var ext := log + [r];
    ValueSnoc(log, init, r, p);
    LastWriteSnoc(log, r, p);
    if forall u :: u in live' ==> !Touches(ext, live'[u].todo, p) {
      assert r.txn in live';
      if r.page != p {
        forall u | u in live ensures !Touches(log, live[u].todo, p) { assert u in live'; }
      }
    }
    forall u | u in live' && !live'[u].aborting && Touches(ext, live'[u].todo, p)
      ensures LastWrite(ext, p) in live'[u].todo
    {
      assert u != r.txn && Touches(log, live[u].todo, p);
    }
  }

  /** The last write of a page that a committing transaction touched is one of its own
      updates, with no BEGIN after it. */
  lemma {:induction false} LastWriteIsCurrent(live: map<TxnId, Live>, log: seq<LogRecord>, init: map<PageId, Image>,
                                              t: TxnId, p: PageId)
    requires Inv(live, log, init) && p in init
    requires t in live && !live[t].aborting && Touches(log, live[t].todo, p)
    ensures LastWrite(log, p) > 0 && CurrentUpdate(log, t, LastWrite(log, p) - 1)
  {
    assert PageOk(live, log, init, p);
    var l := LastWrite(log, p);
    var todo := live[t].todo;
    assert LiveOk(log, t, live[t]);
    var k :| 0 <= k < |todo| && todo[k] == l;
    assert TodoEntryOk(log, t, todo[k]);
  }

  lemma {:induction false} UntouchedNotCurrent(log: seq<LogRecord>, t: TxnId, x: Live, p: PageId)
    requires TodoComplete(log, t, x) && !x.aborting && !Touches(log, x.todo, p)
    ensures forall i :: 0 <= i < |log| && CurrentUpdate(log, t, i) ==> log[i].page != p
  {
  }

  /** The committing transaction touched the page: its last write becomes committed. */
  lemma {:induction false} CommitTouched(live: map<TxnId, Live>, live': map<TxnId, Live>, log: seq<LogRecord>,
                                         init: map<PageId, Image>, r: LogRecord, p: PageId)
    requires live' == live - {r.txn} && r.txn in live && p in init && r.kind.Commit?
    requires OneOwner(live, log, p) && Touches(log, live[r.txn].todo, p)
    requires forall u :: u in live ==> Touches(log + [r], live[u].todo, p) == Touches(log, live[u].todo, p)
    requires CommittedImage(log + [r], init, p) == Value(log, init, p)
    ensures PageOk(live', log + [r], init, p)
  {
  }

  lemma {:induction false} CommitUntouched(live: map<TxnId, Live>, live': map<TxnId, Live>, log: seq<LogRecord>,
                                           init: map<PageId, Image>, r: LogRecord, p: PageId)
    requires live' == live - {r.txn} && r.txn in live && p in init && r.kind.Commit?
    requires PageOk(live, log, init, p) && !Touches(log, live[r.txn].todo, p)
    requires forall u :: u in live ==> Touches(log + [r], live[u].todo, p) == Touches(log, live[u].todo, p)
    requires CommittedImage(log + [r], init, p) == CommittedImage(log, init, p) && AllRemember(live, log + [r], init, p)
    ensures PageOk(live', log + [r], init, p)
  {
    hide CommittedImage, Value, LastWrite, OldestRemembers;
    ValueSnoc(log, init, r, p);
    LastWriteSnoc(log, r, p);
    if forall u :: u in live' ==> !Touches(log + [r], live'[u].todo, p) {
      forall u | u in live ensures !Touches(log, live[u].todo, p) {
        if u != r.txn { assert u in live'; }
      }
    }
  }

  lemma {:induction false} PageOkCommit(live: map<TxnId, Live>, live': map<TxnId, Live>, log: seq<LogRecord>,
                                        init: map<PageId, Image>, r: LogRecord, p: PageId)
    requires live' == live - {r.txn} && r.txn in live
    requires p in init && r.kind.Commit? && Inv(live, log, init) && !live[r.txn].aborting
    ensures PageOk(live', log + [r], init, p)
  {
    Frame(live, log, init, r, p);
    assert PageOk(live, log, init, p) && TodoComplete(log, r.txn, live[r.txn]);
    hide LastCommitted, LastWrite, CommittedImage, Value, OldestRemembers, LiveOk, TodoComplete;
    if Touches(log, live[r.txn].todo, p) {
      LastWriteIsCurrent(live, log, init, r.txn, p);
      CommittedByCommit(log, init, r, p);
      CommitTouched(live, live', log, init, r, p);
    } else {
      UntouchedNotCurrent(log, r.txn, live[r.txn], p);
      CommittedSnoc(log, init, r, p);
      CommitUntouched(live, live', log, init, r, p);
    }
  }

  lemma {:induction false} PageOkStep(live: map<TxnId, Live>, log: seq<LogRecord>, init: map<PageId, Image>,
                                      r: LogRecord, p: PageId)
    requires Inv(live, log, init) && MayAppend(live, log, init, r) && p in init
    ensures PageOk(ApplyTxn(live, |log| + 1, r), log + [r], init, p)
  {
    var live' := ApplyTxn(live, |log| + 1, r);
    if r.kind.Clr? {
      CommittedSnoc(log, init, r, p);
      Frame(live, log, init, r, p);
      assert PageOk(live, log, init, p);
      PageOkClr(live, live', log, init, r, p);
    } else if r.kind.PageUpdate? {
      PageOkUpdate(live, live', log, init, r, p);
    } else if r.kind.Commit? {
      PageOkCommit(live, live', log, init, r, p);
    } else {
      PageOkQuiet(live, live', log, init, r, p);
    }
  }

  lemma {:induction false} TodoHead(live: map<TxnId, Live>, log: seq<LogRecord>, init: map<PageId, Image>, t: TxnId)
    requires Inv(live, log, init) && t in live && live[t].todo != []
    ensures TodoEntryOk(log, t, live[t].todo[0])
  {
  }

  lemma {:induction false} PageRecordsStep(live: map<TxnId, Live>, log: seq<LogRecord>, init: map<PageId, Image>,
                                           r: LogRecord)
    requires PageRecordsOk(log, init) && MayAppend(live, log, init, r)
    requires r.kind.Clr? ==> TodoEntryOk(log, r.txn, live[r.txn].todo[0])
    ensures PageRecordsOk(log + [r], init)
  {
  }

  lemma {:induction false} InvStep(live: map<TxnId, Live>, log: seq<LogRecord>, init: map<PageId, Image>, r: LogRecord)
    requires Inv(live, log, init) && MayAppend(live, log, init, r)
    ensures Inv(ApplyTxn(live, |log| + 1, r), log + [r], init)
  {
    var live' := ApplyTxn(live, |log| + 1, r);
    forall t | t in live' ensures LiveOk(log + [r], t, live'[t]) && TodoComplete(log + [r], t, live'[t]) {
      LiveOkStep(live, log, init, r, t);
      if r.kind.Begin? && r.txn == t {
        TodoCompleteBegin(log, r, t, live'[t]);
      } else {
        TodoCompleteStep(log, r, t, live[t], live'[t]);
      }
    }
    forall p | p in init ensures PageOk(live', log + [r], init, p) {
      PageOkStep(live, log, init, r, p);
    }
    if r.kind.Clr? { TodoHead(live, log, init, r.txn); }
    PageRecordsStep(live, log, init, r);
  }

  /** Every legal log satisfies the invariant. */
  lemma {:induction false} LegalLogInv(log: seq<LogRecord>, init: map<PageId, Image>)
    requires LegalLog(log, init)
    ensures Inv(Txns(log), log, init)
  {
    if log == [] {
      forall p | p in init ensures PageOk(map[], [], init, p) {}
    } else {
      var front, r := log[..|log| - 1], log[|log| - 1];
      LegalLogInv(front, init);
      InvStep(Txns(front), front, init, r);
      assert log == front + [r];
    }
  }

  /** ---------- Consequences used by recovery ---------- */

  lemma {:induction false} LegalPrefix(log: seq<LogRecord>, init: map<PageId, Image>, n: nat)
    requires LegalLog(log, init) && n <= |log|
    ensures LegalLog(log[..n], init)
  {
    if n < |log| {
      LegalPrefix(log[..|log| - 1], init, n);
      assert log[..|log| - 1][..n] == log[..n];
    } else {
      assert log[..n] == log;
    }
  }

  /** Record i of a legal log was allowed after the records before it. */
  lemma {:induction false} LegalAt(log: seq<LogRecord>, init: map<PageId, Image>, i: nat)
    requires LegalLog(log, init) && i < |log|
    ensures LegalLog(log[..i], init) && Enabled(log[..i], init, log[i])
    ensures Inv(Txns(log[..i]), log[..i], init)
    ensures Txns(log[..i + 1]) == ApplyTxn(Txns(log[..i]), i + 1, log[i])
  {
    LegalPrefix(log, init, i + 1);
    assert log[..i + 1][..i] == log[..i];
    LegalLogInv(log[..i], init);
  }

  lemma {:induction false} LinkStep(live: map<TxnId, Live>, log: seq<LogRecord>, init: map<PageId, Image>, r: LogRecord)
    requires Inv(live, log, init) && MayAppend(live, log, init, r) && LinksOk(log)
    ensures LinkOk(log, r.txn, r.prevLsn) && (r.kind.Clr? ==> LinkOk(log, r.txn, r.undoNextLsn))
  {
    if r.kind.Clr? {
      TodoHead(live, log, init, r.txn);
      var l := live[r.txn].todo[0];
      assert LinkOk(log[..l - 1], log[l - 1].txn, log[l - 1].prevLsn);
    }
    if r.kind.Clr? || r.kind.PageUpdate? || r.kind.Commit? {
      assert LiveOk(log, r.txn, live[r.txn]);
    }
  }

  lemma {:induction false} LegalLinks(log: seq<LogRecord>, init: map<PageId, Image>)
    requires LegalLog(log, init)
    ensures LinksOk(log)
  {
    if log != [] {
      var i := |log| - 1;
      var front, r := log[..i], log[i];
      LegalLinks(front, init);
      LegalLogInv(front, init);
      LinkStep(Txns(front), front, init, r);
      LinksSnoc(front, r);
      assert front + [r] == log;
    }
  }

  lemma {:induction false} LinksSnoc(log: seq<LogRecord>, r: LogRecord)
    requires LinksOk(log)
    requires LinkOk(log, r.txn, r.prevLsn) && (r.kind.Clr? ==> LinkOk(log, r.txn, r.undoNextLsn))
    ensures LinksOk(log + [r])
  {
  }

  lemma {:induction false} LastWritePrefix(log: seq<LogRecord>, n: nat, p: PageId)
    requires LastWrite(log, p) <= n <= |log|
    ensures LastWrite(log[..n], p) == LastWrite(log, p)
  {
  }

  /** The walk meets ever older updates. */
  lemma {:induction false} ChainDescends(log: seq<LogRecord>, l: Lsn)
    ensures forall k :: 0 <= k < |Chain(log, l)| ==> 1 <= Chain(log, l)[k] <= l
    ensures forall k, m :: 0 <= k < m < |Chain(log, l)| ==> Chain(log, l)[m] < Chain(log, l)[k]
    decreases l
  {
    if l != 0 && l <= |log| {
      var r := log[l - 1];
      if r.kind.Clr? {
        if r.undoNextLsn < l { ChainDescends(log, r.undoNextLsn); }
      } else if !r.kind.Begin? {
        if r.prevLsn < l { ChainDescends(log, r.prevLsn); }
      }
    }
  }

  /** ---------- No update is compensated twice ---------- */

  /** LSN of the update that a CLR at index j compensates. */
  ghost function Compensated(log: seq<LogRecord>, j: nat): Lsn
    requires j < |log|
  {
    var live := Txns(log[..j]);
    if log[j].txn in live && live[log[j].txn].todo != [] then live[log[j].txn].todo[0] else 0
  }

  ghost predicate Gone(live: map<TxnId, Live>, l: Lsn) {
    forall t :: t in live ==> l !in live[t].todo
  }

  lemma {:induction false} GoneStep(live: map<TxnId, Live>, log: seq<LogRecord>, init: map<PageId, Image>, r: LogRecord,
                                    l: Lsn)
    requires MayAppend(live, log, init, r) && Gone(live, l) && l <= |log|
    ensures Gone(ApplyTxn(live, |log| + 1, r), l)
  {
  }

  lemma {:induction false} StaysGone(log: seq<LogRecord>, init: map<PageId, Image>, l: Lsn, i: nat, j: nat)
    requires LegalLog(log, init) && l <= i <= j <= |log|
    requires Gone(Txns(log[..i]), l)
    ensures Gone(Txns(log[..j]), l)
  {
    if i < j {
      StaysGone(log, init, l, i, j - 1);
      LegalAt(log, init, j - 1);
      GoneStep(Txns(log[..j - 1]), log[..j - 1], init, log[j - 1], l);
    }
  }

  lemma {:induction false} ClrGone(live: map<TxnId, Live>, log: seq<LogRecord>, init: map<PageId, Image>, t: TxnId,
                                   lsn: Lsn)
    requires Inv(live, log, init) && t in live && live[t].todo != []
    ensures live[t].todo[0] <= |log|
    ensures Gone(live[t := Live(lsn, live[t].todo[1..], true)], live[t].todo[0])
  {
    var l := live[t].todo[0];
    assert LiveOk(log, t, live[t]);
    TodoHead(live, log, init, t);
    ChainDescends(log, live[t].last);
    forall u | u in live && u != t ensures l !in live[u].todo {
      assert LiveOk(log, u, live[u]);
      forall k | 0 <= k < |live[u].todo| ensures live[u].todo[k] != l {
        assert TodoEntryOk(log, u, live[u].todo[k]);
      }
    }
  }

  lemma {:induction false} ClrRemoves(log: seq<LogRecord>, init: map<PageId, Image>, i: nat)
    requires LegalLog(log, init) && i < |log| && log[i].kind.Clr?
    ensures Compensated(log, i) <= i
    ensures Gone(Txns(log[..i + 1]), Compensated(log, i))
  {
    LegalAt(log, init, i);
    ClrGone(Txns(log[..i]), log[..i], init, log[i].txn, i + 1);
  }

  lemma {:induction false} ClrRestores(live: map<TxnId, Live>, log: seq<LogRecord>, init: map<PageId, Image>,
                                       r: LogRecord)
    requires Inv(live, log, init) && MayAppend(live, log, init, r) && r.kind.Clr?
    ensures r.txn in live && live[r.txn].todo != []
    ensures var l := live[r.txn].todo[0];
            && 1 <= l <= |log|
            && var u := log[l - 1];
            && u.kind.PageUpdate? && u.txn == r.txn && r.page == u.page && r.after == u.before
            && r.undoNextLsn == u.prevLsn < l
  {
    TodoHead(live, log, init, r.txn);
  }

  /** A CLR restores the page, the bytes and the continuation of the update it
      compensates. */
  lemma {:induction false} ClrMatchesUpdate(log: seq<LogRecord>, init: map<PageId, Image>, j: nat)
    requires LegalLog(log, init) && j < |log| && log[j].kind.Clr?
    ensures 1 <= Compensated(log, j) <= j
    ensures var u := log[Compensated(log, j) - 1];
            && u.kind.PageUpdate? && u.txn == log[j].txn && log[j].page == u.page && log[j].after == u.before
            && log[j].undoNextLsn == u.prevLsn < Compensated(log, j)
  {
    ClrMatchesIn(Txns(log[..j]), log, init, j);
  }

  lemma {:induction false} ClrMatchesIn(live: map<TxnId, Live>, log: seq<LogRecord>, init: map<PageId, Image>, j: nat)
    requires LegalLog(log, init) && j < |log| && log[j].kind.Clr? && live == Txns(log[..j])
    ensures log[j].txn in live && live[log[j].txn].todo != [] && 1 <= live[log[j].txn].todo[0] <= j
    ensures var l := live[log[j].txn].todo[0];
            var u := log[l - 1];
            && u.kind.PageUpdate? && u.txn == log[j].txn && log[j].page == u.page && log[j].after == u.before
            && log[j].undoNextLsn == u.prevLsn < l
  {
    hide LegalLog, Txns, Inv, MayAppend;
    var front := log[..j];
    LegalAt(log, init, j);
    ClrRestores(live, front, init, log[j]);
    assert front[live[log[j].txn].todo[0] - 1] == log[live[log[j].txn].todo[0] - 1];
  }

  /** A legal log never holds two CLRs for one update. */
  lemma {:induction false} OneClrPerUpdate(log: seq<LogRecord>, init: map<PageId, Image>, i: nat, j: nat)
    requires LegalLog(log, init) && i < j < |log| && log[i].kind.Clr? && log[j].kind.Clr?
    ensures Compensated(log, i) != Compensated(log, j)
  {
    LegalAt(log, init, j);
    ClrRemoves(log, init, i);
    StaysGone(log, init, Compensated(log, i), i + 1, j);
    assert log[j].txn in Txns(log[..j]);
  }
}
