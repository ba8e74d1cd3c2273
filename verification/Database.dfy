/** Transactions on heap tables: the lock manager and the engine together. A heap change
    is logged only under the table's X lock, and locks go only after the end record is
    durable, so page exclusivity, which recovery depends on, is a theorem here and not a
    hypothesis (access/heap_file.cpp, concurrency/transaction_manager.cpp). */
module Database {
  import opened Options
  import opened WalRecords
  import opened History
  import opened HistoryProofs
  import opened LockModes
  import LockQueue
  import opened LockManager
  import Deadlock
  import Engine

  /** t is live and has an update on p that is not compensated. */
  ghost predicate Touching(log: seq<LogRecord>, t: TxnId, p: PageId) {
    t in Txns(log) && Touches(log, Txns(log)[t].todo, p)
  }

  /** t's X lock on the relation is granted. */
  ghost predicate HasTableX(queues: Queues, t: TxnId, relation: nat) {
    HasGranted(queues, t, Table(relation), WHOLE, X)
  }

  /** What t changed since it began, until it releases its locks. */
  type Changes = set<(TxnId, PageId)>

  ghost predicate ChangesLocked(queues: Queues, changed: Changes) {
    forall t: TxnId, p: PageId :: (t, p) in changed ==> HasTableX(queues, t, p.relation)
  }

  ghost predicate ChangesCover(log: seq<LogRecord>, changed: Changes) {
    forall t: TxnId, p: PageId :: Touching(log, t, p) ==> (t, p) in changed
  }

  /** One transaction object stands behind both views. */
  ghost predicate SameTxn(a: Engine.ActiveTxn, x: Txn) {
    && x.registered && (a.state.Aborting? <==> x.state.Aborting?)
    && (x.state.Active? || x.state.Waiting? || x.state.Aborting?)
  }

  ghost predicate SameTxns(active: map<TxnId, Engine.ActiveTxn>, txns: Transactions, next: TxnId) {
    && (forall t :: t in active ==> t in txns && SameTxn(active[t], txns[t]))
    && (forall t :: t in txns ==> t < next && (txns[t].registered ==> t in active))
  }

  /** ---------- How the uncompensated updates change ---------- */

  lemma {:induction false} TouchingStep(log: seq<LogRecord>, init: map<PageId, Image>, r: LogRecord, t: TxnId,
                                        p: PageId)
    requires LegalLog(log, init) && Touching(log + [r], t, p)
    ensures Touching(log, t, p) || (t == r.txn && p == r.page && r.kind.PageUpdate?)
  {
    LegalLogInv(log, init);
    TxnsSnoc(log, r);
    var live := Txns(log);
    hide Txns, LegalLog;
    NothingTouched(log + [r], p);
    if t in live {
      assert LiveOk(log, t, live[t]);
      TouchesOld(log, r, t, live[t], p);
      PushTouches(log, r, live[t].todo, p);
      if live[t].todo != [] && Touches(log + [r], live[t].todo[1..], p) { Pop(log + [r], live[t].todo, p); }
    }
  }

  lemma {:induction false} Pop(log: seq<LogRecord>, todo: seq<Lsn>, p: PageId)
    requires todo != [] && Touches(log, todo[1..], p)
    ensures Touches(log, todo, p)
  {
    var k :| 0 <= k < |todo[1..]| && UpdateOn(log, todo[1..][k], p);
    assert UpdateOn(log, todo[k + 1], p);
  }

  lemma {:induction false} TouchingOnlyBefore(log: seq<LogRecord>, log': seq<LogRecord>, init: map<PageId, Image>,
                                              t: TxnId, p: PageId)
    requires LegalLog(log', init) && Engine.NoUpdatesSince(log, log') && Touching(log', t, p)
    ensures Touching(log, t, p)
    decreases |log'|
  {
    if log != log' {
      var shorter, r := log'[..|log'| - 1], log'[|log'| - 1];
      assert log' == shorter + [r];
      TouchingStep(shorter, init, r, t, p);
      assert log <= shorter;
      TouchingOnlyBefore(log, shorter, init, t, p);
    }
  }

  lemma {:induction false} CoverGrows(log: seq<LogRecord>, log': seq<LogRecord>, init: map<PageId, Image>,
                                      changed: Changes)
    requires LegalLog(log', init) && Engine.NoUpdatesSince(log, log') && ChangesCover(log, changed)
    ensures ChangesCover(log', changed)
  {
    forall t: TxnId, p: PageId | Touching(log', t, p) ensures (t, p) in changed {
      TouchingOnlyBefore(log, log', init, t, p);
    }
  }

  lemma {:induction false} CoverChange(log: seq<LogRecord>, init: map<PageId, Image>, r: LogRecord, changed: Changes)
    requires LegalLog(log, init) && ChangesCover(log, changed)
    ensures ChangesCover(log + [r], changed + {(r.txn, r.page)})
  {
    forall t: TxnId, p: PageId | Touching(log + [r], t, p) ensures (t, p) in changed + {(r.txn, r.page)} {
      TouchingStep(log, init, r, t, p);
    }
  }

  /** ---------- Locking supplies recovery's hypothesis ---------- */

  /** While t holds the table's X lock, nobody else has changed a page of the table
      since it began and before it released its locks. */
  lemma {:induction false} XExcludesChanges(queues: Queues, txns: Transactions, changed: Changes, t: TxnId, u: TxnId,
                                            p: PageId)
    requires Ok(queues, txns) && ChangesLocked(queues, changed) && HasTableX(queues, t, p.relation) && (u, p) in changed
    ensures u == t
  {
    if u != t {
      var res := Table(p.relation);
      var a, b := LockQueue.Request(t, X, WHOLE, true, None), LockQueue.Request(u, X, WHOLE, true, None);
      assert HasTableX(queues, u, p.relation);
      GrantedXIsAlone(queues, txns, res, a, b);
    }
  }

  lemma {:induction false} XMeansExclusive(log: seq<LogRecord>, queues: Queues, txns: Transactions, changed: Changes,
                                           t: TxnId, p: PageId)
    requires Ok(queues, txns) && ChangesLocked(queues, changed) && ChangesCover(log, changed)
    requires HasTableX(queues, t, p.relation)
    ensures Exclusive(Txns(log), log, t, p)
  {
    hide Ok, ChangesLocked;
    forall u | u in Txns(log) && u != t ensures !Touches(log, Txns(log)[u].todo, p) {
      if Touching(log, u, p) { XExcludesChanges(queues, txns, changed, t, u, p); }
    }
  }

  lemma {:induction false} ChangesStay(queues: Queues, queues': Queues, changed: Changes)
    requires ChangesLocked(queues, changed) && XKept(queues, queues')
    ensures ChangesLocked(queues', changed)
  {
    forall t: TxnId, p: PageId | (t, p) in changed ensures HasTableX(queues', t, p.relation) {
      assert HasTableX(queues, t, p.relation);
    }
  }

  ghost function Without(changed: Changes, t: TxnId): Changes {
    set c <- changed | c.0 != t
  }

  lemma {:induction false} ChangesReleased(queues: Queues, queues': Queues, changed: Changes, t: TxnId)
    requires ChangesLocked(queues, changed) && OthersKept(queues, queues', t)
    ensures ChangesLocked(queues', Without(changed, t))
  {
    forall u: TxnId, p: PageId | (u, p) in Without(changed, t) ensures HasTableX(queues', u, p.relation) {
      assert (u, p) in changed;
      assert HasTableX(queues, u, p.relation);
    }
  }

  lemma {:induction false} CoverEnded(log: seq<LogRecord>, changed: Changes, t: TxnId)
    requires ChangesCover(log, changed) && t !in Txns(log)
    ensures ChangesCover(log, Without(changed, t))
  {
    forall u: TxnId, p: PageId | Touching(log, u, p) ensures (u, p) in Without(changed, t) {
      assert (u, p) in changed;
    }
  }

  /** A page nobody has an unreleased change on shows its committed bytes. */
  lemma {:induction false} UnchangedIsCommitted(e: Engine.Engine, changed: Changes, p: PageId)
    requires e.Valid() && ChangesCover(e.log, changed) && p in e.pages && forall t: TxnId :: (t, p) !in changed
    ensures p in e.init && e.pages[p].content == CommittedImage(e.log, e.init, p)
  {
    hide Engine.Ok;
    forall t | t in Txns(e.log) ensures !Touches(e.log, Txns(e.log)[t].todo, p) {
      assert Touching(e.log, t, p) ==> (t, p) in changed;
    }
    Engine.QuietPageIsCommitted(e.Now(), e.init, p);
  }

  /** No two transactions have unreleased changes on one page. */
  lemma {:induction false} OneChanger(queues: Queues, txns: Transactions, changed: Changes, t: TxnId, u: TxnId,
                                      p: PageId)
    requires Ok(queues, txns) && ChangesLocked(queues, changed) && (t, p) in changed && (u, p) in changed
    ensures t == u
  {
    hide Ok, HasTableX;
    XExcludesChanges(queues, txns, changed, t, u, p);
  }

  /** ---------- The database ---------- */

  class Database {
    const engine: Engine.Engine
    const locks: LockManager
    ghost var changed: Changes

    ghost predicate Valid()
      reads this, engine, locks
    {
      && engine.Valid() && locks.Valid()
      && SameTxns(engine.active, locks.txns, engine.nextTxnId)
      && ChangesLocked(locks.queues, changed) && ChangesCover(engine.log, changed)
    }

    /** Opened on a recovered engine. */
    constructor (e: Engine.Engine)
      requires e.Valid() && e.active == map[]
      ensures Valid() && engine == e && fresh(locks) && changed == {}
    {
      engine, changed := e, {};
      locks := new LockManager();
      new;
      NoLive(e);
    }

    method Begin() returns (t: TxnId)
      requires Valid()
      modifies this, engine, locks
      ensures Valid() && t in engine.active && engine.active[t].state.Active?
    {
      hide Engine.Ok, Ok, ChangesCover, ChangesLocked, SameTxns;
      t := engine.Begin();
      LogIsLegal(engine);
      assert ChangesCover(engine.log, changed) by { CoverGrows(old(engine.log), engine.log, engine.init, changed); }
      assert SameTxns(engine.active, locks.txns[t := Txn(Active, map[], true)], engine.nextTxnId) &&
          t !in locks.txns by {
        SameBegin(old(engine.active), locks.txns, t, engine.active[t]);
      }
      locks.RegisterTransaction(t);
    }

    /** A heap change: table X, record X, then log and apply. The change is logged exactly
        when both locks are granted, and then no other transaction has a change on the
        page that it has not yet released. */
    method WriteHeap(t: TxnId, op: PageOp, p: PageId, rid: nat, after: Image)
      returns (reply: Reply, ghost mid: Locks, ghost first: Reply)
      requires Valid() && t in engine.active && !locks.txns[t].state.Waiting?
      requires p in engine.pages && |engine.pages[p].content| == |after| == PAGE_SIZE
      modifies this, engine, locks
      ensures Valid()
      ensures reply.Granted? ==>
                && engine.log == old(engine.log) +
                    [MakePageImageLogRecord(PageUpdate(op), t, old(engine.active)[t].lastLsn, p,
                                            old(engine.pages)[p].content, after)]
                && engine.pages == old(engine.pages)[p := Page(after, |engine.log|)]
                && changed == old(changed) + {(t, p)}
                && forall u :: (u, p) in changed ==> u == t
      ensures !reply.Granted? ==>
                engine.log == old(engine.log) && engine.pages == old(engine.pages) && changed == old(changed)
      ensures t in locks.txns && t in old(locks.txns)
      ensures BothLocked(Locks(old(locks.queues), old(locks.txns)[t]), mid, Locks(locks.queues, locks.txns[t]),
                         t, p.relation, rid, X, X, first, reply)
    {
      hide Engine.Ok, Ok, SameTxns, ChangesCover, ChangesLocked, HasTableX, BothLocked;
      reply, mid, first := LockForWrite(t, p.relation, rid);
      if reply.Granted? { LogChange(t, op, p, after); }
    }

    /** The logged change, under the table's X lock. */
    method LogChange(t: TxnId, op: PageOp, p: PageId, after: Image)
      requires Valid() && t in engine.active && !engine.active[t].state.Aborting?
      requires HasTableX(locks.queues, t, p.relation)
      requires p in engine.pages && |engine.pages[p].content| == |after| == PAGE_SIZE
      modifies this`changed, engine`log, engine`active, engine`pages, engine`dirty
      ensures Valid() && changed == old(changed) + {(t, p)} && forall u :: (u, p) in changed ==> u == t
      ensures engine.log == old(engine.log) +
          [MakePageImageLogRecord(PageUpdate(op), t, old(engine.active)[t].lastLsn, p, old(engine.pages)[p].content,
                                  after)]
      ensures engine.pages == old(engine.pages)[p := Page(after, |engine.log|)]
    {
      hide Engine.Ok, Ok, SameTxns, ChangesCover, ChangesLocked, Exclusive, HasTableX;
      LogIsLegal(engine);
      XMeansExclusive(engine.log, locks.queues, locks.txns, changed, t, p);
      SameWrite(engine.active, locks.txns, engine.nextTxnId, t, |engine.log| + 1);
      var rec := MakePageImageLogRecord(PageUpdate(op), t, engine.active[t].lastLsn, p, engine.pages[p].content, after);
      CoverChange(engine.log, engine.init, rec, changed);
      AddChange(locks.queues, locks.txns, changed, t, p);
      changed := changed + {(t, p)};
      var lsn := engine.ChangePage(t, op, p, after);
    }

    /** The locks of InsertTupleImpl, DeleteTupleImpl and UpdateTupleImpl. */
    method LockForWrite(t: TxnId, relation: nat, rid: nat)
      returns (reply: Reply, ghost mid: Locks, ghost first: Reply)
      requires Valid() && t in engine.active && !locks.txns[t].state.Waiting?
      modifies engine`active, locks
      ensures Valid() && t in engine.active
      ensures reply.Granted? ==> HasTableX(locks.queues, t, relation)
      ensures reply.Granted? ==> engine.active == old(engine.active) && !engine.active[t].state.Aborting?
      ensures !reply.Error? && t in locks.txns && t in old(locks.txns)
      ensures BothLocked(Locks(old(locks.queues), old(locks.txns)[t]), mid, Locks(locks.queues, locks.txns[t]),
                         t, relation, rid, X, X, first, reply)
    {
      hide Engine.Ok, Ok, ChangesCover, ChangesLocked, XKept, OthersKept, HasTableX, Replied;
      reply := locks.LockTable(t, relation, X);
      TableReply(old(locks.queues), locks.queues, old(locks.txns)[t], locks.txns[t], t, relation, X, reply);
      ChangesStay(old(locks.queues), locks.queues, changed);
      mid, first := Locks(locks.queues, locks.txns[t]), reply;
      if !reply.Granted? {
        SyncState(t);
        return;
      }
      ghost var queues, x := locks.queues, locks.txns[t];
      reply := locks.LockRecord(t, relation, rid, X);
      RecordReply(queues, locks.queues, x, locks.txns[t], t, relation, rid, X, reply);
      ChangesStay(queues, locks.queues, changed);
      XStaysGranted(queues, locks.queues, t, relation);
      if !reply.Granted? { SyncState(t); }
    }

    /** Reading locks, a blocked call waking up: any lock call keeps the changes locked. */
    method LockForRead(t: TxnId, relation: nat, rid: nat)
      returns (reply: Reply, ghost mid: Locks, ghost first: Reply)
      requires Valid() && t in engine.active && !locks.txns[t].state.Waiting?
      modifies engine`active, locks
      ensures Valid() && t in engine.active && !reply.Error?
      ensures reply.Granted? ==> Table(relation) in locks.txns[t].locks && Record(relation, rid) in locks.txns[t].locks
      ensures BothLocked(Locks(old(locks.queues), old(locks.txns)[t]), mid, Locks(locks.queues, locks.txns[t]),
                         t, relation, rid, IS, S, first, reply)
    {
      hide Engine.Ok, Ok, ChangesCover, ChangesLocked, XKept, OthersKept, HasTableX, Replied;
      reply := locks.LockTable(t, relation, IS);
      TableReply(old(locks.queues), locks.queues, old(locks.txns)[t], locks.txns[t], t, relation, IS, reply);
      ChangesStay(old(locks.queues), locks.queues, changed);
      mid, first := Locks(locks.queues, locks.txns[t]), reply;
      if !reply.Granted? {
        SyncState(t);
        return;
      }
      ghost var queues, x := locks.queues, locks.txns[t];
      reply := locks.LockRecord(t, relation, rid, S);
      RecordReply(queues, locks.queues, x, locks.txns[t], t, relation, rid, S, reply);
      ChangesStay(queues, locks.queues, changed);
      SyncState(t);
    }

    method WakeUp(t: TxnId, res: Resource, range: Range) returns (reply: Reply, ghost i: nat)
      requires Valid() && t in engine.active && (locks.txns[t].state.Waiting? || locks.txns[t].state.Aborting?)
      requires forall r :: r in QueueOf(locks.queues, res).requests && IsRequestOf(r, t, range) ==> !r.granted
      modifies locks
      ensures Valid() && OthersKept(old(locks.queues), locks.queues, t)
      ensures t in locks.txns && Retried(old(locks.queues), locks.queues, old(locks.txns)[t], locks.txns[t], t, res,
                                         range, i, reply)
      ensures locks.txns[t].state.Active? <==> reply.Granted?
    {
      hide Engine.Ok, Ok, ChangesCover, ChangesLocked, XKept, OthersKept, WaitsBehind, HasGranted, Retried;
      reply, i := locks.Retry(t, res, range);
      ChangesStay(old(locks.queues), locks.queues, changed);
    }

    /** True means the COMMIT record is durable; only then do the locks go. */
    method Commit(t: TxnId) returns (ok: bool)
      requires Valid() && t in engine.active && !locks.txns[t].state.Waiting?
      modifies this, engine, locks
      ensures Valid() && (ok <==> !old(engine.active)[t].state.Aborting?)
      ensures ok ==>
                engine.log == old(engine.log) + [MakeTxnRecord(RecordType.Commit, t, old(engine.active)[t].lastLsn)]
                     && engine.durable == |engine.log| && changed == Without(old(changed), t)
      ensures !ok ==> engine.log == old(engine.log) && changed == old(changed)
    {
      hide Engine.Ok, Ok, ChangesCover, ChangesLocked;
      ok := engine.Commit(t);
      if ok {
        LogIsLegal(engine);
        CoverGrows(old(engine.log), engine.log, engine.init, changed);
        Release(t, Committed);
      }
    }

    /** SetState, ReleaseAll and UnregisterTransaction, after the end record. */
    method Release(t: TxnId, state: TxnState)
      requires engine.Valid() && locks.Valid() && SameBut(engine.active, locks.txns, engine.nextTxnId, t)
      requires t !in engine.active && t in locks.txns
      requires (state.Committed? && locks.txns[t].state.Active?) || (state.Aborted? && locks.txns[t].state.Aborting?)
      requires ChangesLocked(locks.queues, changed) && ChangesCover(engine.log, changed)
      modifies this`changed, locks
      ensures Valid() && changed == Without(old(changed), t)
      ensures NoRequestOf(locks.queues, t) && OthersKept(old(locks.queues), locks.queues, t)
    {
      hide Engine.Ok, Ok, ChangesCover, ChangesLocked, OthersKept, NoRequestOf, SameTxns;
      locks.SetEnded(t, state);
      locks.ReleaseAll(t);
      locks.UnregisterTransaction(t);
      SameEnded(engine.active, old(locks.txns), locks.txns, engine.nextTxnId, t);
      LogIsLegal(engine);
      CoverEnded(engine.log, changed, t);
      ChangesReleased(old(locks.queues), locks.queues, changed, t);
      changed := Without(changed, t);
    }

    /** TryMarkAborting. */
    method MarkAborting(t: TxnId)
      requires Valid() && t in engine.active
      modifies engine`active, locks`txns
      ensures Valid() && engine.active.Keys == old(engine.active).Keys && engine.active[t].state.Aborting?
    {
      hide Engine.Ok, Ok, ChangesCover, ChangesLocked;
      var marked := locks.TryMarkAborting(t);
      SyncState(t);
    }

    /** One compensated update of a rollback; other transactions may run in between. */
    method RollbackStep(t: TxnId, current: Lsn) returns (next: Lsn)
      requires Valid() && t in engine.active && engine.active[t].state.Aborting?
      requires Engine.Stands(Txns(engine.log), engine.log, t, current) && current != 0
      modifies engine
      ensures Valid() && t in engine.active && engine.active[t].state.Aborting?
      ensures Engine.Stands(Txns(engine.log), engine.log, t, next) && next < current
      ensures Engine.NoUpdatesSince(old(engine.log), engine.log)
    {
      hide Engine.Ok, Ok, ChangesCover, ChangesLocked, Engine.Stands;
      next := engine.RollbackStep(t, current);
      LogIsLegal(engine);
      CoverGrows(old(engine.log), engine.log, engine.init, changed);
    }

    /** Rolls back, makes the ABORT record durable, and only then releases the locks. */
    method Abort(t: TxnId)
      requires Valid() && t in engine.active
      modifies this, engine, locks
      ensures Valid() && t !in engine.active && changed == Without(old(changed), t)
      ensures engine.durable == |engine.log| && Engine.NoUpdatesSince(old(engine.log), engine.log)
      ensures forall p :: (t, p) in old(changed) && p in engine.pages ==>
                p in engine.init && engine.pages[p].content == CommittedImage(engine.log, engine.init, p)
    {
      hide Engine.Ok, Ok, ChangesCover, ChangesLocked;
      assert forall u: TxnId, p: PageId :: (t, p) in changed && (u, p) in changed ==> u == t by {
        forall u: TxnId, p: PageId | (t, p) in changed && (u, p) in changed
          ensures u == t
        { OneChanger(locks.queues, locks.txns, changed, t, u, p); }
      }
      MarkAborting(t);
      engine.Abort(t);
      LogIsLegal(engine);
      CoverGrows(old(engine.log), engine.log, engine.init, changed);
      Release(t, Aborted);
      forall p | (t, p) in old(changed) && p in engine.pages
        ensures p in engine.init && engine.pages[p].content == CommittedImage(engine.log, engine.init, p)
      {
        UnchangedIsCommitted(engine, changed, p);
      }
    }

    /** One pass of the deadlock worker: its victims are then rolled back by Abort. */
    method ResolveDeadlocks() returns (victims: set<TxnId>, g: Deadlock.Graph)
      requires Valid() && Deadlock.VictimsAbortable(locks.queues, locks.txns)
      modifies engine`active, locks
      ensures Valid() && Deadlock.IsWaitsForGraph(locks.queues, g) && Deadlock.Acyclic(g)
      ensures victims <= engine.active.Keys == old(engine.active).Keys
      ensures AsMarked(old(engine.active), engine.active, victims)
      ensures forall v :: v in victims ==> Deadlock.OnCycle(old(locks.queues), v)
      ensures victims == {} <==> forall v :: !Deadlock.OnCycle(old(locks.queues), v)
      ensures victims == {} ==> locks.queues == old(locks.queues) && locks.txns == old(locks.txns)
    {
      hide Engine.Ok, Ok, ChangesCover, ChangesLocked, XKept;
      hide Deadlock.Waiters, Deadlock.IsWaitsForGraph, Deadlock.Acyclic, Deadlock.VictimsAbortable, Deadlock.RestStays;
      hide Deadlock.OnCycle, Deadlock.IsRun;
      WaitersActive(engine.active, locks.queues, locks.txns, engine.nextTxnId);
      ghost var run;
      victims, g, run := Deadlock.ResolveDeadlocks(locks);
      ChangesStay(old(locks.queues), locks.queues, changed);
      MarkVictims(victims);
      VictimsMatch(old(engine.active), engine.active, old(locks.txns), locks.txns, victims);
    }

    /** Each victim's transaction object says so. */
    method MarkVictims(victims: set<TxnId>)
      requires engine.Valid() && victims <= engine.active.Keys
      modifies engine`active
      ensures engine.Valid() && engine.active.Keys == old(engine.active).Keys
      ensures AsMarked(old(engine.active), engine.active, victims)
    {
      hide Engine.Ok;
      var todo := victims;
      while todo != {}
        invariant todo <= victims && engine.Valid() && engine.active.Keys == old(engine.active).Keys
        invariant AsMarked(old(engine.active), engine.active, victims - todo)
        modifies engine`active
      {
        var v :| v in todo;
        todo := todo - {v};
        engine.MarkAborting(v);
      }
    }

    /** A dirty page is written back. */
    method FlushFrame(p: PageId)
      requires Valid() && p in engine.pages
      modifies engine`durable, engine`persistent, engine`disk, engine`dirty
      ensures Valid() && p !in engine.dirty
      ensures p in old(engine.dirty) ==>
                engine.disk == old(engine.disk)[p := engine.pages[p]] && engine.pages[p].lsn <= engine.durable
    {
      hide Engine.Ok;
      engine.FlushFrame(p);
    }

    /** The next step of CreateCheckpoint. */
    method CheckpointStep()
      requires Valid()
      modifies engine
      ensures Valid() && Engine.NoUpdatesSince(old(engine.log), engine.log)
      ensures engine.checkpoint != old(engine.checkpoint)
      ensures engine.master != old(engine.master) ==>
                old(engine.checkpoint).Ended? && engine.master == old(engine.checkpoint).beginLsn
    {
      hide Engine.Ok, Ok, ChangesCover, ChangesLocked;
      match engine.checkpoint {
        case Idle => engine.CheckpointBegin();
        case Begun(_) => engine.CheckpointReadTxns();
        case TxnsRead(_, _) => engine.CheckpointReadPages();
        case PagesRead(_, _, _) => engine.CheckpointEnd();
        case Ended(_) => engine.CheckpointSetMaster();
      }
      LogIsLegal(engine);
      CoverGrows(old(engine.log), engine.log, engine.init, changed);
    }

    /** Crash at any moment, recover, open again. */
    method CrashAndRestart(n: nat) returns (db: Database)
      requires Valid() && engine.durable <= n <= |engine.log|
      ensures fresh(db) && db.Valid() && db.engine.active == map[] && db.engine.init == engine.init
      ensures db.engine.pages.Keys == engine.init.Keys
      ensures forall p :: p in db.engine.pages ==>
                db.engine.pages[p].content == CommittedImage(engine.log[..n], engine.init, p)
    {
      hide Engine.Ok, Ok, ChangesCover, ChangesLocked;
      var e := Engine.CrashAndRestart(engine, n);
      db := new Database(e);
    }

    /** The engine and the lock manager share the transaction object: a lock call may have
        marked it aborting. */
    method SyncState(t: TxnId)
      requires engine.Valid() && locks.Valid() && t in engine.active
      requires SameBut(engine.active, locks.txns, engine.nextTxnId, t)
      requires ChangesLocked(locks.queues, changed) && ChangesCover(engine.log, changed)
      modifies engine`active
      ensures Valid() && t in engine.active && engine.active.Keys == old(engine.active).Keys
      ensures forall u :: u in engine.active && u != t ==> engine.active[u] == old(engine.active)[u]
    {
      hide Engine.Ok, Ok, ChangesCover, ChangesLocked;
      if locks.txns[t].state.Aborting? && !engine.active[t].state.Aborting? { engine.MarkAborting(t); }
    }
  }

  /** Both views agree, except that t may have been marked aborting in one of them. */
  ghost predicate SameBut(active: map<TxnId, Engine.ActiveTxn>, txns: Transactions, next: TxnId, t: TxnId) {
    && (forall u :: u in active ==> u in txns && txns[u].registered && (u != t ==> SameTxn(active[u], txns[u])))
    && (forall u :: u in txns ==> u < next && (txns[u].registered && u != t ==> u in active))
    && (t in active ==> (active[t].state.Aborting? ==> txns[t].state.Aborting?)
                        && (txns[t].state.Active? || txns[t].state.Waiting? || txns[t].state.Aborting?))
  }

  /** The lock queues and what the lock manager knows of one transaction. */
  datatype Locks = Locks(queues: Queues, x: Txn)

  /** The table lock in one mode and, once that is granted, the record lock in the other. */
  ghost predicate BothLocked(a: Locks, mid: Locks, b: Locks, t: TxnId, relation: nat, rid: nat, tableMode: LockMode,
                             recordMode: LockMode, first: Reply, reply: Reply) {
    && Replied(a.queues, mid.queues, a.x, mid.x, t, Table(relation), WHOLE, tableMode, first)
    && if first.Granted? then
         Replied(mid.queues, b.queues, mid.x, b.x, t, Record(relation, rid), WHOLE, recordMode, reply)
       else reply == first && b == mid
  }

  /** Exactly the victims are aborting now. */
  ghost predicate AsMarked(active: map<TxnId, Engine.ActiveTxn>, active': map<TxnId, Engine.ActiveTxn>,
                           victims: set<TxnId>)
  {
    active'.Keys == active.Keys && forall t :: t in active ==>
      active'[t] == if t in victims then active[t].(state := Aborting) else active[t]
  }

  lemma {:induction false} VictimsMatch(active: map<TxnId, Engine.ActiveTxn>, active': map<TxnId, Engine.ActiveTxn>,
                                        txns: Transactions, txns': Transactions, victims: set<TxnId>)
    requires AsMarked(active, active', victims) && Deadlock.OnlyVictims(txns, txns', victims)
    requires forall t :: t in active ==> t in txns && SameTxn(active[t], txns[t])
    ensures forall t :: t in active' ==> t in txns' && SameTxn(active'[t], txns'[t])
  {
  }

  /** A running transaction after a lock call. */
  ghost predicate StillRuns(x: Txn, x': Txn, reply: Reply) {
    && x'.registered == x.registered && (x'.state.Active? || x'.state.Waiting? || x'.state.Aborting?)
    && (x.state.Aborting? ==> x' == x && reply.Refused?)
    && (reply.Granted? ==> x.state.Active? && x'.state.Active?)
  }

  lemma {:induction false} TableReply(queues: Queues, queues': Queues, x: Txn, x': Txn, t: TxnId, relation: nat,
                                      mode: LockMode, reply: Reply)
    requires Replied(queues, queues', x, x', t, Table(relation), WHOLE, mode, reply)
    requires (x.state.Active? || x.state.Aborting?)
    ensures StillRuns(x, x', reply) && !reply.Error?
    ensures reply.Granted? ==> Table(relation) in x'.locks
    ensures reply.Granted? && mode.X? ==> x'.locks[Table(relation)].X? && HasTableX(queues', t, relation)
  {
  }

  lemma {:induction false} RecordReply(queues: Queues, queues': Queues, x: Txn, x': Txn, t: TxnId, relation: nat,
                                       rid: nat, mode: LockMode, reply: Reply)
    requires !reply.Error? ==> Replied(queues, queues', x, x', t, Record(relation, rid), WHOLE, mode, reply)
    requires x.state.Active? && (reply.Error? ==> x' == x)
    ensures StillRuns(x, x', reply)
    ensures reply.Granted? ==> Record(relation, rid) in x'.locks && forall r :: Table(r) in x.locks ==>
              Table(r) in x'.locks
  {
  }

  lemma {:induction false} XStaysGranted(queues: Queues, queues': Queues, t: TxnId, relation: nat)
    requires XKept(queues, queues') && HasTableX(queues, t, relation)
    ensures HasTableX(queues', t, relation)
  {
  }

  lemma {:induction false} LogIsLegal(e: Engine.Engine)
    requires e.Valid()
    ensures LegalLog(e.log, e.init) && e.active.Keys == Txns(e.log).Keys
  {
  }

  lemma {:induction false} NoLive(e: Engine.Engine)
    requires e.Valid() && e.active == map[]
    ensures ChangesCover(e.log, {})
  {
    LogIsLegal(e);
  }

  lemma {:induction false} SameBegin(active: map<TxnId, Engine.ActiveTxn>, txns: Transactions, t: TxnId,
                                     a: Engine.ActiveTxn)
    requires SameTxns(active, txns, t) && a.state.Active?
    ensures t !in txns && SameTxns(active[t := a], txns[t := Txn(Active, map[], true)], t + 1)
  {
  }

  lemma {:induction false} SameWrite(active: map<TxnId, Engine.ActiveTxn>, txns: Transactions, next: TxnId, t: TxnId,
                                     lsn: Lsn)
    requires SameTxns(active, txns, next) && t in active
    ensures SameTxns(active[t := active[t].(lastLsn := lsn)], txns, next)
  {
  }

  lemma {:induction false} AddChange(queues: Queues, txns: Transactions, changed: Changes, t: TxnId, p: PageId)
    requires Ok(queues, txns) && ChangesLocked(queues, changed) && HasTableX(queues, t, p.relation)
    ensures ChangesLocked(queues, changed + {(t, p)})
    ensures forall u :: (u, p) in changed + {(t, p)} ==> u == t
  {
    hide Ok, HasTableX;
    forall u | (u, p) in changed ensures u == t { XExcludesChanges(queues, txns, changed, t, u, p); }
  }

  lemma {:induction false} SameEnded(active: map<TxnId, Engine.ActiveTxn>, txns: Transactions, txns': Transactions,
                                     next: TxnId, t: TxnId)
    requires SameBut(active, txns, next, t) && t !in active && TxnsKept(txns, txns', t)
    requires t in txns' && !txns'[t].registered
    ensures SameTxns(active, txns', next)
  {
  }

  lemma {:induction false} WaitersActive(active: map<TxnId, Engine.ActiveTxn>, queues: Queues, txns: Transactions,
                                         next: TxnId)
    requires SameTxns(active, txns, next) && Ok(queues, txns)
    ensures Deadlock.Waiters(queues) <= active.Keys
  {
    forall t | t in Deadlock.Waiters(queues) ensures t in active {
      var res, r :| res in queues && r in queues[res].requests && !r.granted && r.txn == t;
      assert RequestsOk(txns, res, queues[res]);
      assert Shown(txns, res, r);
    }
  }
}
