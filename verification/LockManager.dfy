/** The lock manager: table, record and key-range locks, upgrades, release, and the
    guarantees strict two-phase locking is built on. Every method runs under the lock
    manager's latch; a blocking call is its entry step followed by one `Retry` for each
    time it wakes up. */
module LockManager {
  import opened Options
  import opened WalRecords
  import opened LockModes
  import opened LockQueue

  datatype Resource =
    | Table(relation: nat)
    | Record(relation: nat, rid: nat)
    | Index(relation: nat)

  function KindOf(res: Resource): Kind {
    match res
    case Table(_) => TableLock
    case Record(_, _) => RecordLock
    case Index(_) => RangeLock
  }

  /** The transaction object: its state, its table and record lock maps, and whether
      the lock manager's transaction table has it. */
  datatype Txn = Txn(state: TxnState, locks: map<Resource, LockMode>, registered: bool)

  datatype Reply = Granted | Refused | MustWait | Error

  predicate AbortPendingOrDone(x: Txn) { x.state.Aborting? || x.state.Aborted? }

  predicate Tracked(res: Resource) { !res.Index? }

  type Queues = map<Resource, Queue>
  type Transactions = map<TxnId, Txn>

  function QueueOf(queues: Queues, res: Resource): Queue {
    if res in queues then queues[res] else EMPTY
  }

  /** ---------- The invariant ---------- */

  /** A request that stands for a mode is in its transaction's lock map with that mode. */
  ghost predicate Shown(txns: Transactions, res: Resource, r: Request) {
    && r.txn in txns && txns[r.txn].registered
    && (Tracked(res) && Effective(r).Some? ==>
          res in txns[r.txn].locks && txns[r.txn].locks[res] == Effective(r).value)
  }

  /** A record X request was made under a table mode that announces it. */
  ghost predicate Announced(txns: Transactions, res: Resource, r: Request) {
    res.Record? && r.mode.X? ==>
      && r.txn in txns && Table(res.relation) in txns[r.txn].locks
      && IntendsX(txns[r.txn].locks[Table(res.relation)])
  }

  /** Only a transaction that waits, or was marked aborting while it waited, has an
      ungranted request. */
  ghost predicate WaitsOpenly(txns: Transactions, r: Request) {
    !r.granted ==> r.txn in txns && (txns[r.txn].state.Waiting? || AbortPendingOrDone(txns[r.txn]))
  }

  /** Table and record requests cover everything; an upgrader asks for more than it had. */
  ghost predicate Shaped(res: Resource, r: Request) {
    && (Tracked(res) ==> r.range == WHOLE)
    && (r.was.Some? ==> Combine(KindOf(res), r.was.value, r.mode) == r.mode)
  }

  ghost predicate RequestsOk(txns: Transactions, res: Resource, q: Queue) {
    forall r :: r in q.requests ==>
      Shown(txns, res, r) && Announced(txns, res, r) && WaitsOpenly(txns, r) && Shaped(res, r)
  }

  /** The lock map of a transaction that is not aborting tells the truth. */
  ghost predicate Held(queues: Queues, t: TxnId, res: Resource, mode: LockMode) {
    exists r :: r in QueueOf(queues, res).requests && r.txn == t && Effective(r) == Some(mode)
  }

  ghost predicate MapHeld(queues: Queues, t: TxnId, x: Txn) {
    forall res :: res in x.locks ==> Tracked(res) && (!AbortPendingOrDone(x) ==> Held(queues, t, res, x.locks[res]))
  }

  ghost predicate MapIntends(x: Txn) {
    forall res :: res in x.locks && res.Record? && x.locks[res].X? ==>
      Table(res.relation) in x.locks && IntendsX(x.locks[Table(res.relation)])
  }

  ghost predicate MapTrue(queues: Queues, t: TxnId, x: Txn) {
    MapHeld(queues, t, x) && MapIntends(x)
  }

  /** A transaction waits for one request at a time. */
  ghost predicate OneWait(queues: Queues) {
    forall res, res2, r: Request, r2: Request ::
      (r in QueueOf(queues, res).requests && r2 in QueueOf(queues, res2).requests
       && r.txn == r2.txn && !r.granted && !r2.granted) ==> res == res2
  }

  ghost predicate Ok(queues: Queues, txns: Transactions) {
    && OneWait(queues)
    && (forall res :: res in queues ==> QueueOk(KindOf(res), queues[res]) && RequestsOk(txns, res, queues[res]))
    && (forall t :: t in txns ==> MapTrue(queues, t, txns[t]))
  }

  /** ---------- What the invariant guarantees ---------- */

  /** Two transactions never hold conflicting modes on one table or record. */
  lemma {:induction false} LocksCompatible(queues: Queues, txns: Transactions, t: TxnId, u: TxnId, res: Resource)
    requires Ok(queues, txns) && t in txns && u in txns && t != u
    requires !AbortPendingOrDone(txns[t]) && !AbortPendingOrDone(txns[u])
    requires res in txns[t].locks && res in txns[u].locks
    ensures Compatible(KindOf(res), txns[t].locks[res], txns[u].locks[res])
  {
    hide OneWait;
    assert MapTrue(queues, t, txns[t]) && MapTrue(queues, u, txns[u]);
    hide MapTrue;
    assert Held(queues, t, res, txns[t].locks[res]) && Held(queues, u, res, txns[u].locks[res]);
    var q := QueueOf(queues, res);
    var a :| a in q.requests && a.txn == t && Effective(a) == Some(txns[t].locks[res]);
    var b :| b in q.requests && b.txn == u && Effective(b) == Some(txns[u].locks[res]);
    var i :| 0 <= i < |q.requests| && q.requests[i] == a;
    var j :| 0 <= j < |q.requests| && q.requests[j] == b;
    assert Shaped(res, a) && Shaped(res, b);
    HeldModesCompatible(KindOf(res), q, i, j);
  }

  lemma {:induction false} RecordXIntends(queues: Queues, txns: Transactions, u: TxnId, relation: nat, rid: nat)
    requires Ok(queues, txns) && u in txns
    ensures Record(relation, rid) in txns[u].locks && txns[u].locks[Record(relation, rid)].X? ==>
              Table(relation) in txns[u].locks && IntendsX(txns[u].locks[Table(relation)])
  {
  }

  /** Multi-granularity safety: while t holds table S, SIX or X, no other transaction
      that is not aborting holds a record X lock in that table. */
  lemma {:induction false} TableLockGuardsRecords(queues: Queues, txns: Transactions, t: TxnId, u: TxnId, relation: nat,
                                                  rid: nat)
    requires Ok(queues, txns) && t in txns && u in txns && t != u
    requires !AbortPendingOrDone(txns[t]) && !AbortPendingOrDone(txns[u])
    requires Table(relation) in txns[t].locks
    requires txns[t].locks[Table(relation)].S? || txns[t].locks[Table(relation)].SIX? ||
        txns[t].locks[Table(relation)].X?
    ensures !(Record(relation, rid) in txns[u].locks && txns[u].locks[Record(relation, rid)].X?)
  {
    hide Ok;
    RecordXIntends(queues, txns, u, relation, rid);
    if Table(relation) in txns[u].locks { LocksCompatible(queues, txns, t, u, Table(relation)); }
  }

  /** Phantom prevention: a key inside a range that stands for a mode (an upgrader's old
      S included) is in no range another transaction holds in X. */
  lemma {:induction false} NoPhantoms(queues: Queues, txns: Transactions, relation: nat, i: nat, j: nat, k: Key)
    requires Ok(queues, txns) && Index(relation) in queues
    requires i < |queues[Index(relation)].requests| && j < |queues[Index(relation)].requests|
    requires var q := queues[Index(relation)];
             && q.requests[i].txn != q.requests[j].txn && Effective(q.requests[i]).Some?
             && Effective(q.requests[j]).Some?
             && ArityIs(|k|, q.requests[i].range) && ArityIs(|k|, q.requests[j].range)
             && InRange(k, q.requests[i].range) && InRange(k, q.requests[j].range)
    ensures Effective(queues[Index(relation)].requests[j]).value.S?
  {
    var q := queues[Index(relation)];
    SharedKeyOverlaps(k, q.requests[i].range, q.requests[j].range);
    HeldModesCompatible(RangeLock, q, i, j);
  }

  /** Record X locks exclude every other lock on the record; a granted table X request
      excludes every other standing request, whoever is aborting. */
  lemma {:induction false} GrantedXIsAlone(queues: Queues, txns: Transactions, res: Resource, a: Request, b: Request)
    requires Ok(queues, txns) && res in queues && Tracked(res)
    requires a in queues[res].requests && b in queues[res].requests && a.txn != b.txn
    requires Effective(a) == Some(X)
    ensures Effective(b).None?
  {
    var q := queues[res];
    var i :| 0 <= i < |q.requests| && q.requests[i] == a;
    var j :| 0 <= j < |q.requests| && q.requests[j] == b;
    assert Shaped(res, a) && Shaped(res, b);
    if Effective(b).Some? { HeldModesCompatible(KindOf(res), q, i, j); }
  }

  /** ---------- Steps on the whole state ---------- */

  /** The requests of other transactions than t are the same. */
  ghost predicate OthersKept(queues: Queues, queues': Queues, t: TxnId) {
    forall res, r: Request :: r.txn != t ==>
      (r in QueueOf(queues, res).requests <==> r in QueueOf(queues', res).requests)
  }

  /** No granted table or record X lock is given up. */
  ghost predicate XKept(queues: Queues, queues': Queues) {
    forall res, r: Request :: Tracked(res) && r in QueueOf(queues, res).requests && r.granted && r.mode.X? ==>
      r in QueueOf(queues', res).requests
  }

  ghost predicate TxnsKept(txns: Transactions, txns': Transactions, t: TxnId) {
    txns'.Keys == txns.Keys && forall u :: u in txns && u != t ==> txns'[u] == txns[u]
  }

  /** Changing requests of t on one queue, and t itself, keeps the rest. */
  lemma {:induction false} OneQueueOk(queues: Queues, txns: Transactions, txns': Transactions, res: Resource, q': Queue,
                                      t: TxnId)
    requires Ok(queues, txns) && t in txns && TxnsKept(txns, txns', t)
    requires QueueOk(KindOf(res), q') && RequestsOk(txns', res, q')
    requires forall r: Request :: r.txn != t ==> (r in q'.requests <==> r in QueueOf(queues, res).requests)
    requires OwnShown(queues, txns', res, t)
    requires MapTrue(queues[res := q'], t, txns'[t])
    requires OneWait(queues[res := q'])
    ensures Ok(queues[res := q'], txns') && OthersKept(queues, queues[res := q'], t)
  {
    var queues' := queues[res := q'];
    forall res2 | res2 in queues'
      ensures QueueOk(KindOf(res2), queues'[res2]) && RequestsOk(txns', res2, queues'[res2])
    {
      if res2 != res {
        OtherQueueOk(txns, txns', res2, queues[res2], t);
      }
    }
    forall u | u in txns' && u != t ensures MapTrue(queues', u, txns'[u]) {
      MapTrueKept(queues, res, q', u, txns[u]);
    }
  }

  /** The requests t has on other queues than `res` still show. */
  ghost predicate OwnShown(queues: Queues, txns: Transactions, res: Resource, t: TxnId) {
    forall res2, r :: res2 in queues && res2 != res && r in queues[res2].requests && r.txn == t ==>
      Shown(txns, res2, r) && Announced(txns, res2, r) && WaitsOpenly(txns, r)
  }

  lemma {:induction false} OtherQueueOk(txns: Transactions, txns': Transactions, res: Resource, q: Queue, t: TxnId)
    requires TxnsKept(txns, txns', t) && RequestsOk(txns, res, q)
    requires forall r :: r in q.requests && r.txn == t ==>
               Shown(txns', res, r) && Announced(txns', res, r) && WaitsOpenly(txns', r)
    ensures RequestsOk(txns', res, q)
  {
  }

  lemma {:induction false} MapTrueKept(queues: Queues, res: Resource, q': Queue, u: TxnId, x: Txn)
    requires MapTrue(queues, u, x)
    requires forall r: Request :: r.txn == u && r in QueueOf(queues, res).requests ==> r in q'.requests
    ensures MapTrue(queues[res := q'], u, x)
  {
  }

  /** ---------- A request that is being decided ---------- */

  /** q is the queue of res in which t's request r waits to be decided: everything
      else is as before, and t waits nowhere else. */
  ghost predicate Pending(queues: Queues, txns: Transactions, res: Resource, q: Queue, r: Request) {
    && r.txn in txns && txns[r.txn].registered && (txns[r.txn].state.Active? || txns[r.txn].state.Waiting?)
    && QueueOk(KindOf(res), q) && r in q.requests && !r.granted && Shaped(res, r) && Announced(txns, res, r)
    && (forall r2: Request :: r2.txn != r.txn ==> (r2 in q.requests <==> r2 in QueueOf(queues, res).requests))
    && (forall r2 :: r2 in q.requests && r2.txn == r.txn && r2 != r ==>
        r2.granted && r2 in QueueOf(queues, res).requests)
    && GrantedElsewhere(queues, res, r.txn) && XStays(queues, res, q)
    && (Tracked(res) ==> Grows(txns[r.txn], res, r))
  }

  ghost predicate XStays(queues: Queues, res: Resource, q: Queue) {
    forall r :: Tracked(res) && r in QueueOf(queues, res).requests && r.granted && r.mode.X? ==> r in q.requests
  }

  ghost predicate GrantedElsewhere(queues: Queues, res: Resource, t: TxnId) {
    forall res2, r :: res2 in queues && res2 != res && r in queues[res2].requests && r.txn == t ==> r.granted
  }

  /** The request keeps what the lock map shows, and asks for more. */
  ghost predicate Grows(x: Txn, res: Resource, r: Request) {
    if res in x.locks then r.was == Some(x.locks[res]) && Combine(KindOf(res), x.locks[res], r.mode) == r.mode
    else r.was.None?
  }

  function WithLock(x: Txn, res: Resource, mode: LockMode): Txn {
    if Tracked(res) then x.(state := Active, locks := x.locks[res := mode]) else x.(state := Active)
  }

  lemma {:induction false} PendingOneWait(queues: Queues, txns: Transactions, res: Resource, q: Queue, r: Request,
                                          q': Queue)
    requires OneWait(queues) && Pending(queues, txns, res, q, r)
    requires forall r2 :: r2 in q'.requests && !r2.granted ==> r2 in q.requests
    ensures OneWait(queues[res := q'])
  {
    var queues' := queues[res := q'];
    forall res1, res2, a: Request, b: Request | a in QueueOf(queues', res1).requests &&
        b in QueueOf(queues', res2).requests
      && a.txn == b.txn && !a.granted && !b.granted
      ensures res1 == res2
    {
      if a.txn != r.txn {
        assert a in QueueOf(queues, res1).requests && b in QueueOf(queues, res2).requests;
      }
    }
  }

  /** While the request waits, its transaction shows what it showed before. */
  lemma {:induction false} PendingRequests(queues: Queues, txns: Transactions, res: Resource, q: Queue, r: Request)
    requires Ok(queues, txns) && Pending(queues, txns, res, q, r)
    ensures RequestsOk(txns[r.txn := txns[r.txn].(state := Waiting)], res, q)
  {
  }

  lemma {:induction false} PendingMap(queues: Queues, txns: Transactions, res: Resource, q: Queue, r: Request)
    requires Ok(queues, txns) && Pending(queues, txns, res, q, r)
    ensures MapTrue(queues[res := q], r.txn, txns[r.txn].(state := Waiting))
  {
    hide OneWait, RequestsOk, QueueOk, Compatible, IntendsX;
    var x, queues' := txns[r.txn], queues[res := q];
    assert MapTrue(queues, r.txn, x);
    forall res2 | res2 in x.locks ensures Held(queues', r.txn, res2, x.locks[res2]) {
      if res2 == res {
        assert r in QueueOf(queues', res2).requests && Effective(r) == Some(x.locks[res2]);
      } else {
        assert Held(queues, r.txn, res2, x.locks[res2]);
        assert QueueOf(queues', res2) == QueueOf(queues, res2);
      }
    }
  }

  lemma {:induction false} WaitOk(queues: Queues, txns: Transactions, res: Resource, q: Queue, r: Request)
    requires Ok(queues, txns) && Pending(queues, txns, res, q, r)
    ensures Ok(queues[res := q], txns[r.txn := txns[r.txn].(state := Waiting)])
    ensures OthersKept(queues, queues[res := q], r.txn) && XKept(queues, queues[res := q])
  {
    var txns' := txns[r.txn := txns[r.txn].(state := Waiting)];
    PendingOneWait(queues, txns, res, q, r, q);
    PendingRequests(queues, txns, res, q, r);
    PendingMap(queues, txns, res, q, r);
    PendingOwn(queues, txns, res, q, r);
    hide OneWait, MapTrue, OwnShown, RequestsOk;
    OneQueueOk(queues, txns, txns', res, q, r.txn);
  }

  lemma {:induction false} PendingOwn(queues: Queues, txns: Transactions, res: Resource, q: Queue, r: Request)
    requires Ok(queues, txns) && Pending(queues, txns, res, q, r)
    ensures OwnShown(queues, txns[r.txn := txns[r.txn].(state := Waiting)], res, r.txn)
    ensures OwnShown(queues, txns[r.txn := WithLock(txns[r.txn], res, r.mode)], res, r.txn)
  {
    hide OneWait, MapTrue, QueueOk;
    var x := txns[r.txn];
    forall res2, r2 | res2 in queues && res2 != res && r2 in queues[res2].requests && r2.txn == r.txn
      ensures Shown(txns[r.txn := x.(state := Waiting)], res2, r2)
      ensures Announced(txns[r.txn := x.(state := Waiting)], res2, r2)
      ensures Shown(txns[r.txn := WithLock(x, res, r.mode)], res2, r2)
      ensures Announced(txns[r.txn := WithLock(x, res, r.mode)], res2, r2)
      ensures r2.granted
    {
      assert RequestsOk(txns, res2, queues[res2]);
      assert Shown(txns, res2, r2) && Announced(txns, res2, r2);
    }
  }

  /** ---------- Granting ---------- */

  lemma {:induction false} GrantMembers(kind: Kind, q: Queue, i: nat)
    requires QueueOk(kind, q) && i < |q.requests| && !q.requests[i].granted
    ensures var r := q.requests[i]; forall r2 :: r2 in Grant(q, i).requests <==>
              r2 == r.(granted := true, was := None) || (r2 in q.requests && r2 != r)
  {
    var r, q' := q.requests[i], Grant(q, i);
    var r' := r.(granted := true, was := None);
    assert q'.requests[i] == r';
    forall r2 | r2 in q'.requests ensures r2 == r' || (r2 in q.requests && r2 != r) {
      var j :| 0 <= j < |q'.requests| && q'.requests[j] == r2;
      if j < i { assert PairOk(kind, q.requests[j], q.requests[i]); }
      if j > i { assert PairOk(kind, q.requests[i], q.requests[j]); }
    }
    forall r2 | r2 in q.requests && r2 != r ensures r2 in q'.requests {
      var j :| 0 <= j < |q.requests| && q.requests[j] == r2;
      assert q'.requests[j] == r2;
    }
  }

  lemma {:induction false} OnePerRange(kind: Kind, q: Queue, a: Request, b: Request)
    requires QueueOk(kind, q) && a in q.requests && b in q.requests && a.txn == b.txn && a.range == b.range
    ensures a == b
  {
  }

  lemma {:induction false} GrantRequests(queues: Queues, txns: Transactions, res: Resource, q: Queue, i: nat)
    requires i < |q.requests|
    requires Ok(queues, txns) && Pending(queues, txns, res, q, q.requests[i])
    ensures var r := q.requests[i]; RequestsOk(txns[r.txn := WithLock(txns[r.txn], res, r.mode)], res, Grant(q, i))
  {
    hide OneWait, MapTrue, Compatible;
    var r := q.requests[i];
    var txns' := txns[r.txn := WithLock(txns[r.txn], res, r.mode)];
    GrantMembers(KindOf(res), q, i);
    forall r2 | r2 in Grant(q, i).requests
      ensures Shown(txns', res, r2) && Announced(txns', res, r2) && WaitsOpenly(txns', r2) && Shaped(res, r2)
    {
      if r2 in q.requests && r2 != r {
        assert r2 in QueueOf(queues, res).requests;
        assert RequestsOk(txns, res, queues[res]);
        assert Shaped(res, r2);
        if r2.txn == r.txn && Tracked(res) { OnePerRange(KindOf(res), q, r, r2); }
        hide QueueOk;
      }
    }
  }

  lemma {:induction false} GrantIntends(txns: Transactions, res: Resource, r: Request)
    requires r.txn in txns && MapIntends(txns[r.txn]) && Announced(txns, res, r)
    requires (Tracked(res) ==> Grows(txns[r.txn], res, r))
    ensures MapIntends(WithLock(txns[r.txn], res, r.mode))
  {
  }

  lemma {:induction false} GrantMap(queues: Queues, txns: Transactions, res: Resource, q: Queue, i: nat)
    requires i < |q.requests|
    requires Ok(queues, txns) && Pending(queues, txns, res, q, q.requests[i])
    ensures var r := q.requests[i]; MapTrue(queues[res := Grant(q, i)], r.txn, WithLock(txns[r.txn], res, r.mode))
  {
    hide OneWait, RequestsOk, Compatible;
    var r := q.requests[i];
    var x, x' := txns[r.txn], WithLock(txns[r.txn], res, r.mode);
    var queues' := queues[res := Grant(q, i)];
    GrantMembers(KindOf(res), q, i);
    hide QueueOk, Grant;
    assert MapTrue(queues, r.txn, x);
    assert MapIntends(x') by { hide MapHeld; GrantIntends(txns, res, r); }
    hide MapIntends;
    forall res2 | res2 in x'.locks ensures Held(queues', r.txn, res2, x'.locks[res2]) {
      if res2 == res {
        assert r.(granted := true, was := None) in QueueOf(queues', res2).requests;
      } else {
        assert Held(queues, r.txn, res2, x.locks[res2]);
        assert QueueOf(queues', res2) == QueueOf(queues, res2);
      }
    }
  }

  lemma {:induction false} GrantedOk(queues: Queues, txns: Transactions, res: Resource, q: Queue, i: nat)
    requires i < |q.requests| && CanGrant(KindOf(res), q, i)
    requires Ok(queues, txns) && Pending(queues, txns, res, q, q.requests[i])
    ensures var r := q.requests[i];
            && Ok(queues[res := Grant(q, i)], txns[r.txn := WithLock(txns[r.txn], res, r.mode)])
            && OthersKept(queues, queues[res := Grant(q, i)], r.txn) && XKept(queues, queues[res := Grant(q, i)])
            && HasGranted(queues[res := Grant(q, i)], r.txn, res, r.range, r.mode)
  {
    hide Compatible;
    var r, q' := q.requests[i], Grant(q, i);
    var txns' := txns[r.txn := WithLock(txns[r.txn], res, r.mode)];
    GrantMembers(KindOf(res), q, i);
    assert r.(granted := true, was := None) in QueueOf(queues[res := q'], res).requests;
    PendingOneWait(queues, txns, res, q, r, q');
    GrantRequests(queues, txns, res, q, i);
    GrantMap(queues, txns, res, q, i);
    PendingOwn(queues, txns, res, q, r);
    GrantOk(KindOf(res), q, i);
    hide OneWait, MapTrue, OwnShown, RequestsOk, QueueOk, Grant, CanGrant;
    OneQueueOk(queues, txns, txns', res, q', r.txn);
  }

  /** ---------- Filing a request ---------- */

  /** The request of t for this range, if the queue has one. */
  ghost predicate IsRequestOf(r: Request, t: TxnId, range: Range) { r.txn == t && r.range == range }

  /** Request i is the first of t for this range; one past the end means there is none. */
  ghost predicate IsFirst(q: Queue, t: TxnId, range: Range, i: nat) {
    && i <= |q.requests| && (i < |q.requests| ==> IsRequestOf(q.requests[i], t, range))
    && forall j :: 0 <= j < i ==> !IsRequestOf(q.requests[j], t, range)
  }

  method FindRequest(q: Queue, t: TxnId, range: Range) returns (i: nat)
    ensures IsFirst(q, t, range, i)
  {
    i := 0;
    while i < |q.requests|
      invariant i <= |q.requests|
      invariant forall j :: 0 <= j < i ==> !IsRequestOf(q.requests[j], t, range)
    {
      if q.requests[i].txn == t && q.requests[i].range == range { return; }
      i := i + 1;
    }
  }

  /** A running transaction has no ungranted request. */
  lemma {:induction false} RunningHasNoWait(queues: Queues, txns: Transactions, t: TxnId)
    requires Ok(queues, txns) && t in txns && !txns[t].state.Waiting? && !AbortPendingOrDone(txns[t])
    ensures forall res, r :: res in queues && r in queues[res].requests && r.txn == t ==> r.granted
  {
  }

  lemma {:induction false} EnqueuePending(queues: Queues, txns: Transactions, t: TxnId, res: Resource, range: Range,
                                          target: LockMode)
    requires Ok(queues, txns) && t in txns && txns[t].state.Active? && txns[t].registered
    requires Tracked(res) ==> range == WHOLE
    requires Announced(txns, res, Request(t, target, range, false, None))
    requires forall r :: r in QueueOf(queues, res).requests ==> !IsRequestOf(r, t, range)
    ensures Pending(queues, txns, res, Enqueue(QueueOf(queues, res), t, target, range),
                    Request(t, target, range, false, None))
  {
    hide OneWait, Compatible;
    var q := QueueOf(queues, res);
    var r := Request(t, target, range, false, None);
    RunningHasNoWait(queues, txns, t);
    assert forall r2 :: r2 in q.requests ==> Shaped(res, r2) by {
      if res in queues { assert RequestsOk(txns, res, queues[res]); }
    }
    assert QueueOk(KindOf(res), q);
    forall i | 0 <= i < |q.requests| && q.requests[i].txn == t
      ensures q.requests[i].granted && q.requests[i].range != range
    {
      assert q.requests[i] in q.requests;
    }
    EnqueueOk(KindOf(res), q, t, target, range);
    assert GrantedElsewhere(queues, res, t);
    assert MapTrue(queues, t, txns[t]);
    assert Tracked(res) ==> res !in txns[t].locks;
    hide QueueOk, Ok;
    var q' := Enqueue(q, t, target, range);
    assert q'.requests[|q.requests|] == r;
  }

  /** Another transaction is upgrading on this queue. */
  predicate UpgradeTaken(q: Queue, t: TxnId) { q.upgrading.Some? && q.upgrading.value != t }

  lemma {:induction false} UpgradePending(queues: Queues, txns: Transactions, t: TxnId, res: Resource, i: nat,
                                          target: LockMode)
    requires Ok(queues, txns) && t in txns && txns[t].state.Active? && txns[t].registered
    requires res in queues && i < |queues[res].requests| && queues[res].requests[i].txn == t
    requires var r := queues[res].requests[i];
             r.mode != target && Combine(KindOf(res), r.mode, target) == target &&
                 Announced(txns, res, r.(mode := target))
    requires !UpgradeTaken(queues[res], t)
    ensures Pending(queues, txns, res, StartUpgrade(queues[res], i, target),
                    StartUpgrade(queues[res], i, target).requests[i])
  {
    hide OneWait, Compatible;
    var q := queues[res];
    RunningHasNoWait(queues, txns, t);
    var r := q.requests[i];
    assert r in q.requests;
    assert RequestsOk(txns, res, q) && QueueOk(KindOf(res), q) && MapTrue(queues, t, txns[t]);
    assert Tracked(res) && res in txns[t].locks ==> Effective(r) == Some(txns[t].locks[res]) by {
      if Tracked(res) && res in txns[t].locks { MapShowsRequest(queues, txns, t, res, r); }
    }
    assert GrantedElsewhere(queues, res, t);
    hide Ok;
    assert Shown(txns, res, r) && Shaped(res, r);
    assert RequestOk(q, r);
    StartUpgradeOk(KindOf(res), q, i, target);
    hide QueueOk, RequestsOk, MapTrue;
    StartUpgradeMembers(q, i, target);
    hide StartUpgrade;
  }

  lemma {:induction false} StartUpgradeMembers(q: Queue, i: nat, target: LockMode)
    requires i < |q.requests|
    ensures var r, q' := q.requests[i], StartUpgrade(q, i, target);
            && |q'.requests| == |q.requests|
            && q'.requests[i] == r.(mode := target, granted := false, was := Some(r.mode))
            && (forall r2 :: r2 in q'.requests && r2 != q'.requests[i] ==> r2 in q.requests)
            && (forall r2 :: r2 in q.requests && r2 != r ==> r2 in q'.requests)
            && q'.requests[i] in q'.requests
  {
    var r, q' := q.requests[i], StartUpgrade(q, i, target);
    forall r2 | r2 in q'.requests && r2 != q'.requests[i] ensures r2 in q.requests {
      var j :| 0 <= j < |q'.requests| && q'.requests[j] == r2;
      assert q.requests[j] == r2;
    }
    forall r2 | r2 in q.requests && r2 != r ensures r2 in q'.requests {
      var j :| 0 <= j < |q.requests| && q.requests[j] == r2;
      assert q'.requests[j] == r2;
    }
  }

  /** ---------- Taking requests away ---------- */

  /** Requests of t were taken away, and nothing else happened. */
  lemma {:induction false} ShrinkOk(queues: Queues, queues': Queues, txns: Transactions, txns': Transactions, t: TxnId)
    requires Ok(queues, txns) && t in txns && TxnsKept(txns, txns', t) && OthersKept(queues, queues', t)
    requires queues'.Keys == queues.Keys && forall res :: res in queues' ==> QueueOk(KindOf(res), queues'[res])
    requires Fewer(queues, queues')
    requires forall res, r :: res in queues' && r in queues'[res].requests && r.txn == t ==>
               Shown(txns', res, r) && Announced(txns', res, r) && WaitsOpenly(txns', r)
    requires MapTrue(queues', t, txns'[t])
    ensures Ok(queues', txns')
  {
    assert OneWait(queues');
    hide OneWait, QueueOk;
    forall res | res in queues' ensures RequestsOk(txns', res, queues'[res]) {
      assert RequestsOk(txns, res, queues[res]);
      forall r | r in queues'[res].requests
        ensures Shown(txns', res, r) && Announced(txns', res, r) && WaitsOpenly(txns', r) && Shaped(res, r)
      {
        assert r in QueueOf(queues, res).requests;
        assert Shown(txns, res, r) && Announced(txns, res, r) && WaitsOpenly(txns, r) && Shaped(res, r);
      }
    }
    forall u | u in txns' && u != t ensures MapTrue(queues', u, txns'[u]) {
      OtherMapTrue(queues, queues', t, u, txns[u]);
    }
  }

  ghost predicate Fewer(queues: Queues, queues': Queues) {
    forall res, r: Request :: r in QueueOf(queues', res).requests ==> r in QueueOf(queues, res).requests
  }

  lemma {:induction false} OtherMapTrue(queues: Queues, queues': Queues, t: TxnId, u: TxnId, x: Txn)
    requires MapTrue(queues, u, x) && OthersKept(queues, queues', t) && u != t
    ensures MapTrue(queues', u, x)
  {
  }

  /** All queues after the requests of t are gone: all of them, or the ungranted ones. */
  function Removed(queues: Queues, t: TxnId, all: bool): Queues {
    map res | res in queues :: Remove(queues[res], t, all)
  }

  ghost predicate RestKept(queues: Queues, queues': Queues, t: TxnId, all: bool) {
    forall res, r: Request :: r in QueueOf(queues, res).requests && !Leaves(r, t, all) ==>
        r in QueueOf(queues', res).requests
  }

  ghost predicate NoRequestOf(queues: Queues, t: TxnId) {
    forall res, r: Request :: r in QueueOf(queues, res).requests ==> r.txn != t
  }

  ghost predicate Trimmed(queues: Queues, queues': Queues, t: TxnId, all: bool) {
    && queues'.Keys == queues.Keys
    && Fewer(queues, queues') && OthersKept(queues, queues', t)
    && RestKept(queues, queues', t, all) && (all ==> NoRequestOf(queues', t))
    && (forall res :: res in queues' ==> QueueOk(KindOf(res), queues'[res]))
  }

  lemma {:induction false} RemovedAt(queues: Queues, t: TxnId, all: bool, res: Resource)
    requires forall res2 :: res2 in queues ==> QueueOk(KindOf(res2), queues[res2])
    ensures res in queues ==> QueueOk(KindOf(res), Removed(queues, t, all)[res])
    ensures LeftoverAt(QueueOf(queues, res), QueueOf(Removed(queues, t, all), res), t, all)
  {
    if res in queues { RemoveOk(KindOf(res), queues[res], t, all); }
  }

  lemma {:induction false} RemovedTrims(queues: Queues, t: TxnId, all: bool)
    requires forall res :: res in queues ==> QueueOk(KindOf(res), queues[res])
    ensures Trimmed(queues, Removed(queues, t, all), t, all)
  {
    hide QueueOk, Remove, Leaves;
    var queues' := Removed(queues, t, all);
    forall res
      ensures res in queues ==> QueueOk(KindOf(res), queues'[res])
      ensures LeftoverAt(QueueOf(queues, res), QueueOf(queues', res), t, all)
    {
      RemovedAt(queues, t, all, res);
    }
    hide QueueOf;
    LeftoverTrims(queues, queues', t, all);
  }

  lemma {:induction false} LeftoverTrims(queues: Queues, queues': Queues, t: TxnId, all: bool)
    requires queues'.Keys == queues.Keys && forall res :: res in queues' ==> QueueOk(KindOf(res), queues'[res])
    requires Leftover(queues, queues', t, all)
    ensures Trimmed(queues, queues', t, all)
  {
  }

  ghost predicate LeftoverAt(q: Queue, q': Queue, t: TxnId, all: bool) {
    forall r :: r in q'.requests <==> r in q.requests && !Leaves(r, t, all)
  }

  ghost predicate Leftover(queues: Queues, queues': Queues, t: TxnId, all: bool) {
    forall res :: LeftoverAt(QueueOf(queues, res), QueueOf(queues', res), t, all)
  }

  lemma {:induction false} ReleaseOk(queues: Queues, txns: Transactions, t: TxnId)
    requires Ok(queues, txns) && t in txns
    ensures Ok(Removed(queues, t, true), txns[t := txns[t].(locks := map[])])
    ensures OthersKept(queues, Removed(queues, t, true), t)
    ensures NoRequestOf(Removed(queues, t, true), t)
  {
    var queues' := Removed(queues, t, true);
    RemovedTrims(queues, t, true);
    hide QueueOk, OneWait, Removed, RequestsOk;
    forall res, r | res in queues' && r in queues'[res].requests ensures r.txn != t {
      assert r in QueueOf(queues', res).requests;
    }
    ShrinkOk(queues, queues', txns, txns[t := txns[t].(locks := map[])], t);
  }

  /** An aborting transaction loses its ungranted request. */
  lemma {:induction false} TrimOk(queues: Queues, queues': Queues, txns: Transactions, t: TxnId)
    requires Ok(queues, txns) && t in txns && AbortPendingOrDone(txns[t]) && Trimmed(queues, queues', t, false)
    ensures Ok(queues', txns) && XKept(queues, queues')
  {
    hide QueueOk, OneWait;
    forall res, r | res in queues' && r in queues'[res].requests && r.txn == t
      ensures Shown(txns, res, r) && Announced(txns, res, r) && WaitsOpenly(txns, r)
    {
      assert RequestsOk(txns, res, queues[res]);
      assert r in QueueOf(queues', res).requests;
    }
    assert MapTrue(queues, t, txns[t]);
    ShrinkOk(queues, queues', txns, txns, t);
    hide Ok, OthersKept, Fewer;
    forall res, r: Request | Tracked(res) && r in QueueOf(queues, res).requests && r.granted && r.mode.X?
      ensures r in QueueOf(queues', res).requests
    {
      assert !Leaves(r, t, false);
    }
  }

  /** An aborted waiter takes its own request out. */
  function EraseAt(q: Queue, i: nat): Queue
    requires i < |q.requests|
  {
    ResetUpgrading(q.(requests := q.requests[..i] + q.requests[i + 1..]), q.requests[i].txn)
  }

  lemma {:induction false} EraseAtIsRemove(kind: Kind, q: Queue, i: nat)
    requires QueueOk(kind, q) && i < |q.requests| && !q.requests[i].granted
    ensures EraseAt(q, i) == Remove(q, q.requests[i].txn, false)
  {
    var rs, t := q.requests, q.requests[i].txn;
    forall j | 0 <= j < |rs| && j != i ensures !Leaves(rs[j], t, false) {
      if j < i { assert PairOk(kind, rs[j], rs[i]); }
      if j > i { assert PairOk(kind, rs[i], rs[j]); }
    }
    WithoutOne(rs, i, t);
  }

  lemma {:induction false} WithoutOne(rs: seq<Request>, i: nat, t: TxnId)
    requires i < |rs| && forall j :: 0 <= j < |rs| ==> (Leaves(rs[j], t, false) <==> j == i)
    ensures Without(rs, t, false) == rs[..i] + rs[i + 1..]
  {
    var rest := rs[1..];
    if i == 0 {
      WithoutNone(rest, t);
    } else {
      WithoutOne(rest, i - 1, t);
      assert rs[..i] == [rs[0]] + rest[..i - 1] && rs[i + 1..] == rest[i..];
    }
  }

  lemma {:induction false} WithoutNone(rs: seq<Request>, t: TxnId)
    requires forall j :: 0 <= j < |rs| ==> !Leaves(rs[j], t, false)
    ensures Without(rs, t, false) == rs
  {
    if rs != [] { WithoutNone(rs[1..], t); }
  }

  lemma {:induction false} EraseTrims(queues: Queues, res: Resource, i: nat)
    requires forall res2 :: res2 in queues ==> QueueOk(KindOf(res2), queues[res2])
    requires res in queues && i < |queues[res].requests| && !queues[res].requests[i].granted
    ensures Trimmed(queues, queues[res := EraseAt(queues[res], i)], queues[res].requests[i].txn, false)
  {
    var q, t := queues[res], queues[res].requests[i].txn;
    EraseAtIsRemove(KindOf(res), q, i);
    RemoveOk(KindOf(res), q, t, false);
    hide QueueOk, EraseAt;
  }

  /** ---------- Transaction states ---------- */

  lemma {:induction false} RegisterOk(queues: Queues, txns: Transactions, t: TxnId)
    requires Ok(queues, txns) && t !in txns
    ensures Ok(queues, txns[t := Txn(Active, map[], true)])
  {
  }

  /** A change of state keeps the invariant as long as waiting stays visible. */
  lemma {:induction false} StateOk(queues: Queues, txns: Transactions, t: TxnId, x: Txn)
    requires Ok(queues, txns) && t in txns && x.locks == txns[t].locks
    requires AbortPendingOrDone(txns[t]) ==> AbortPendingOrDone(x)
    requires forall res, r :: res in queues && r in queues[res].requests && r.txn == t ==>
               x.registered && (r.granted || AbortPendingOrDone(x))
    ensures Ok(queues, txns[t := x])
  {
    assert MapTrue(queues, t, txns[t]);
    assert MapTrue(queues, t, x);
    hide OneWait, QueueOk, MapTrue;
    forall res, r | res in queues && r in queues[res].requests && r.txn == t
      ensures Shown(txns[t := x], res, r) && Announced(txns[t := x], res, r) && WaitsOpenly(txns[t := x], r)
    {
      assert RequestsOk(txns, res, queues[res]);
      assert Shown(txns, res, r) && Announced(txns, res, r);
    }
    ShrinkOk(queues, queues, txns, txns[t := x], t);
  }

  lemma {:induction false} MarkOk(queues: Queues, txns: Transactions, t: TxnId)
    requires Ok(queues, txns) && t in txns
    ensures Ok(queues, txns[t := txns[t].(state := Aborting)])
  {
  }

  lemma {:induction false} EndedOk(queues: Queues, txns: Transactions, t: TxnId, state: TxnState)
    requires Ok(queues, txns) && t in txns
    requires (state.Committed? && txns[t].state.Active?) || (state.Aborted? && txns[t].state.Aborting?)
    ensures Ok(queues, txns[t := txns[t].(state := state)])
  {
    hide OneWait, QueueOk, MapTrue;
    if txns[t].state.Active? { RunningHasNoWait(queues, txns, t); }
    forall res, r | res in queues && r in queues[res].requests && r.txn == t ensures txns[t].registered {
      assert RequestsOk(txns, res, queues[res]);
      assert Shown(txns, res, r);
    }
    StateOk(queues, txns, t, txns[t].(state := state));
  }

  lemma NothingChanged(queues: Queues, t: TxnId)
    ensures OthersKept(queues, queues, t) && XKept(queues, queues)
  {
  }

  /** t's request for this range is granted in this mode. */
  ghost predicate HasGranted(queues: Queues, t: TxnId, res: Resource, range: Range, mode: LockMode) {
    Request(t, mode, range, true, None) in QueueOf(queues, res).requests
  }

  /** What a lock call that had to file a request left behind. */
  ghost predicate Outcome(queues: Queues, x: Txn, x': Txn, t: TxnId, res: Resource, range: Range, target: LockMode,
                          reply: Reply) {
    match reply
    case Granted => x' == WithLock(x, res, target) && HasGranted(queues, t, res, range, target)
    case MustWait => x' == x.(state := Waiting) && WaitsBehind(queues, t, res, range, target)
    case Refused => x' == x.(state := Aborting) && UpgradeTaken(QueueOf(queues, res), t)
    case Error => false
  }

  /** What one turn of the wait loop makes of request i of queue q. */
  ghost predicate Decided(queues: Queues, queues': Queues, x: Txn, x': Txn, res: Resource, q: Queue, i: nat,
                          reply: Reply)
    requires i < |q.requests|
  {
    if CanGrant(KindOf(res), q, i) then
      reply == Granted && queues' == queues[res := Grant(q, i)] && x' == WithLock(x, res, q.requests[i].mode)
    else
      reply == MustWait && queues' == queues[res := q] && x' == x.(state := Waiting)
  }

  /** What filing a request for the target mode does: a new request goes to the end, one that
      is there is upgraded in place, unless another transaction is upgrading. */
  ghost predicate Filed(queues: Queues, queues': Queues, x: Txn, x': Txn, t: TxnId, res: Resource, range: Range, i: nat,
                        target: LockMode, reply: Reply) {
    var q := QueueOf(queues, res);
    && IsFirst(q, t, range, i)
    && if i == |q.requests| then Decided(queues, queues', x, x', res, Enqueue(q, t, target, range), i, reply)
       else if UpgradeTaken(q, t) then reply == Refused && queues' == queues && x' == x.(state := Aborting)
       else Decided(queues, queues', x, x', res, StartUpgrade(q, i, target), i, reply)
  }

  /** What one turn of the wait loop does for a transaction that woke up. */
  ghost predicate Retried(queues: Queues, queues': Queues, x: Txn, x': Txn, t: TxnId, res: Resource, range: Range,
                          i: nat, reply: Reply) {
    var q := QueueOf(queues, res);
    && IsFirst(q, t, range, i)
    && if i == |q.requests| then reply == Refused && queues' == queues && x' == x
       else if AbortPendingOrDone(x) then reply == Refused && queues' == queues[res := EraseAt(q, i)] && x' == x
       else Decided(queues, queues', x, x', res, q, i, reply)
  }

  /** A range lock call: refused if its transaction is aborting, granted if its request for that
      very range covers the mode, filed otherwise. */
  ghost predicate RangeReplied(queues: Queues, queues': Queues, x: Txn, x': Txn, t: TxnId, relation: nat, range: Range,
                               mode: LockMode, reply: Reply) {
    if AbortPendingOrDone(x) then reply == Refused && queues' == queues && x' == x
    else if RangeHeld(queues, t, relation, range, mode) then reply == Granted && queues' == queues && x' == x
    else exists i: nat, target :: RangeFiled(queues, queues', x, x', t, Index(relation), range, i, target, mode, reply)
  }

  ghost predicate RangeFiled(queues: Queues, queues': Queues, x: Txn, x': Txn, t: TxnId, res: Resource, range: Range,
                             i: nat, target: LockMode, mode: LockMode, reply: Reply) {
    && Filed(queues, queues', x, x', t, res, range, i, target, reply)
    && Outcome(queues', x, x', t, res, range, target, reply)
    && IsRangeTarget(QueueOf(queues, res), i, target, mode)
  }

  /** The mode to ask for: joined with the one of request i, if there is one. */
  predicate IsRangeTarget(q: Queue, i: nat, target: LockMode, mode: LockMode) {
    target == if i < |q.requests| then Combine(RangeLock, q.requests[i].mode, mode) else mode
  }

  /** t holds the range in a mode that does not cover the one asked for, and another
      transaction is upgrading on the queue. */
  ghost predicate UpgradeBlocked(queues: Queues, t: TxnId, relation: nat, range: Range, mode: LockMode) {
    && (exists m :: HasGranted(queues, t, Index(relation), range, m) && m != Combine(RangeLock, m, mode))
    && UpgradeTaken(QueueOf(queues, Index(relation)), t)
  }

  /** t's request for this range is number i of the queue, and the grant test says `ok`. */
  ghost predicate GrantableAt(queues: Queues, t: TxnId, res: Resource, range: Range, i: int, ok: bool) {
    0 <= i < |QueueOf(queues, res).requests| && IsRequestOf(QueueOf(queues, res).requests[i], t, range)
    && CanGrant(KindOf(res), QueueOf(queues, res), i) == ok
  }

  /** t has a request for this range and mode that some other request blocks. */
  ghost predicate WaitsBehind(queues: Queues, t: TxnId, res: Resource, range: Range, target: LockMode) {
    exists i :: 0 <= i < |QueueOf(queues, res).requests| && IsRequestOf(QueueOf(queues, res).requests[i], t, range)
             && QueueOf(queues, res).requests[i].mode == target && !QueueOf(queues, res).requests[i].granted
             && !CanGrant(KindOf(res), QueueOf(queues, res), i)
  }

  /** ---------- What the lock calls need and promise ---------- */

  /** The table lock a record lock needs. */
  predicate RecordAllowed(x: Txn, relation: nat, mode: LockMode) {
    Table(relation) in x.locks && (mode.X? ==> IntendsX(x.locks[Table(relation)]))
  }

  /** A lock call either finds the mode held, is refused because its transaction is
      aborting, or files a request for the join of the mode held and the mode asked. */
  ghost predicate Replied(queues: Queues, queues': Queues, x: Txn, x': Txn, t: TxnId, res: Resource, range: Range,
                          mode: LockMode, reply: Reply) {
    if AbortPendingOrDone(x) then reply == Refused && queues' == queues && x' == x
    else if res in x.locks && ModeSatisfies(KindOf(res), x.locks[res], mode) then
      reply == Granted && queues' == queues && x' == x && HasGranted(queues', t, res, range, x.locks[res])
    else
      var target := if res in x.locks then Combine(KindOf(res), x.locks[res], mode) else mode;
      && Outcome(queues', x, x', t, res, range, target, reply)
      && FiledSome(queues, queues', x, x', t, res, range, target, reply)
  }

  ghost predicate FiledSome(queues: Queues, queues': Queues, x: Txn, x': Txn, t: TxnId, res: Resource, range: Range,
                            target: LockMode, reply: Reply) {
    exists i: nat :: Filed(queues, queues', x, x', t, res, range, i, target, reply)
  }

  lemma {:induction false} MapIsHeld(queues: Queues, txns: Transactions, t: TxnId, res: Resource)
    requires Ok(queues, txns) && t in txns && !AbortPendingOrDone(txns[t]) && res in txns[t].locks
    requires txns[t].state.Active?
    ensures HasGranted(queues, t, res, WHOLE, txns[t].locks[res])
  {
  }

  lemma {:induction false} GrantedHasNoOld(kind: Kind, q: Queue, r: Request)
    requires QueueOk(kind, q) && r in q.requests && r.granted
    ensures r.was.None?
  {
  }

  lemma {:induction false} QueuesOk(queues: Queues, txns: Transactions)
    requires Ok(queues, txns)
    ensures forall res :: QueueOk(KindOf(res), QueueOf(queues, res))
  {
  }

  lemma CombineSettles(kind: Kind, a: LockMode, b: LockMode)
    ensures Combine(kind, a, Combine(kind, a, b)) == Combine(kind, a, b)
  {
  }

  /** The request of t on this queue, if there is one, asks for less than the target. */
  lemma {:induction false} TargetGrows(queues: Queues, txns: Transactions, t: TxnId, res: Resource, mode: LockMode)
    requires Ok(queues, txns) && t in txns && txns[t].state.Active? && Tracked(res)
    requires res in txns[t].locks ==> !ModeSatisfies(KindOf(res), txns[t].locks[res], mode)
    ensures forall r :: r in QueueOf(queues, res).requests && IsRequestOf(r, t, WHOLE) ==>
              && res in txns[t].locks
              && r.mode != Combine(KindOf(res), txns[t].locks[res], mode)
              && Combine(KindOf(res), r.mode, Combine(KindOf(res), txns[t].locks[res], mode)) ==
                  Combine(KindOf(res), txns[t].locks[res], mode)
  {
  }

  /** The same for a key-range request, whose mode is only in the queue. */
  lemma {:induction false} RangeTarget(queues: Queues, txns: Transactions, t: TxnId, res: Resource, range: Range,
                                       i: nat, mode: LockMode)
    requires Ok(queues, txns) && i < |QueueOf(queues, res).requests|
    requires IsRequestOf(QueueOf(queues, res).requests[i], t, range)
    requires var held := QueueOf(queues, res).requests[i].mode; held != Combine(KindOf(res), held, mode)
    ensures forall r :: r in QueueOf(queues, res).requests && IsRequestOf(r, t, range) ==>
              var target := Combine(KindOf(res), QueueOf(queues, res).requests[i].mode, mode);
              r.mode != target && Combine(KindOf(res), r.mode, target) == target
  {
    hide OneWait, MapTrue, RequestsOk, Combine;
    var q := queues[res];
    forall r | r in q.requests && IsRequestOf(r, t, range) ensures r == q.requests[i] {
      assert q.requests[i] in q.requests;
      OnePerRange(KindOf(res), q, r, q.requests[i]);
    }
    CombineSettles(KindOf(res), q.requests[i].mode, mode);
  }

  ghost predicate RangeHeld(queues: Queues, t: TxnId, relation: nat, range: Range, mode: LockMode) {
    exists m :: HasGranted(queues, t, Index(relation), range, m) && ModeSatisfies(RangeLock, m, mode)
  }

  lemma {:induction false} SameFirst(q: Queue, t: TxnId, range: Range, i: nat, j: nat)
    requires IsFirst(q, t, range, i) && IsFirst(q, t, range, j)
    ensures i == j
  {
  }

  /** What a running transaction finds under a range: nothing, or its one granted request. */
  lemma {:induction false} RangeFound(queues: Queues, txns: Transactions, t: TxnId, relation: nat, range: Range, i: nat,
                                      mode: LockMode)
    requires Ok(queues, txns) && t in txns && txns[t].state.Active? && IsTupleOrRangeLockMode(mode)
    requires IsFirst(QueueOf(queues, Index(relation)), t, range, i)
    ensures var q := QueueOf(queues, Index(relation));
            if i == |q.requests| then forall m :: !HasGranted(queues, t, Index(relation), range, m)
            else
              var held := q.requests[i].mode;
              && (forall m :: HasGranted(queues, t, Index(relation), range, m) <==> m == held)
              && (RangeHeld(queues, t, relation, range, mode) <==> Combine(RangeLock, held, mode) == held)
  {
    var q := QueueOf(queues, Index(relation));
    if i < |q.requests| {
      RunningHasNoWait(queues, txns, t);
      assert q.requests[i] in q.requests;
      QueuesOk(queues, txns);
      hide Ok;
      GrantedHasNoOld(RangeLock, q, q.requests[i]);
      forall m | HasGranted(queues, t, Index(relation), range, m) ensures m == q.requests[i].mode {
        OnePerRange(RangeLock, q, q.requests[i], Request(t, m, range, true, None));
      }
      hide QueueOk;
      assert HasGranted(queues, t, Index(relation), range, q.requests[i].mode);
    } else {
      forall m ensures !HasGranted(queues, t, Index(relation), range, m) {
        assert Request(t, m, range, true, None) in q.requests ==>
                 IsRequestOf(Request(t, m, range, true, None), t, range);
      }
    }
  }

  /** What a filed range request that was granted or refused says about the range. */
  lemma {:induction false} FiledHolds(queues: Queues, queues': Queues, x: Txn, x': Txn, t: TxnId, relation: nat,
                                      range: Range, i: nat, target: LockMode, mode: LockMode, reply: Reply)
    requires Filed(queues, queues', x, x', t, Index(relation), range, i, target, reply)
    requires Outcome(queues', x, x', t, Index(relation), range, target, reply)
    requires IsTupleOrRangeLockMode(mode)
    requires var q := QueueOf(queues, Index(relation));
             if i == |q.requests| then target == mode
             else
               && target == Combine(RangeLock, q.requests[i].mode, mode) && target != q.requests[i].mode
               && HasGranted(queues, t, Index(relation), range, q.requests[i].mode)
    ensures !reply.Error? && (reply.Granted? ==> RangeHeld(queues', t, relation, range, mode))
    ensures reply.Refused? ==> UpgradeBlocked(queues, t, relation, range, mode)
  {
    if reply.Granted? {
      assert HasGranted(queues', t, Index(relation), range, target) && ModeSatisfies(RangeLock, target, mode);
    }
  }

  /** ---------- Waking up ---------- */

  lemma {:induction false} EraseOk(queues: Queues, txns: Transactions, t: TxnId, res: Resource, i: nat)
    requires Ok(queues, txns) && t in txns && AbortPendingOrDone(txns[t])
    requires i < |QueueOf(queues, res).requests| && QueueOf(queues, res).requests[i].txn == t
    requires !QueueOf(queues, res).requests[i].granted
    ensures res in queues && var queues' := queues[res := EraseAt(queues[res], i)];
            && Ok(queues', txns) && XKept(queues, queues') && OthersKept(queues, queues', t)
            && forall r :: r in queues'[res].requests ==> r.range != queues[res].requests[i].range || r.txn != t
  {
    EraseTrims(queues, res, i);
    var q := queues[res];
    TrimOk(queues, queues[res := EraseAt(q, i)], txns, t);
    EraseAtIsRemove(KindOf(res), q, i);
    RemoveOk(KindOf(res), q, t, false);
    forall r | r in EraseAt(q, i).requests && r.txn == t && r.range == q.requests[i].range ensures false {
      assert q.requests[i] in q.requests;
      OnePerRange(KindOf(res), q, r, q.requests[i]);
    }
  }

  lemma {:induction false} RetryPending(queues: Queues, txns: Transactions, t: TxnId, res: Resource, i: nat)
    requires Ok(queues, txns) && t in txns && txns[t].state.Waiting?
    requires i < |QueueOf(queues, res).requests| && QueueOf(queues, res).requests[i].txn == t
    requires !QueueOf(queues, res).requests[i].granted
    ensures Pending(queues, txns, res, QueueOf(queues, res), QueueOf(queues, res).requests[i])
  {
    hide Compatible, MapTrue;
    var q := queues[res];
    var r := q.requests[i];
    assert r in QueueOf(queues, res).requests;
    assert GrantedElsewhere(queues, res, t) by {
      hide QueueOk, RequestsOk;
      forall res2, r2 | res2 in queues && res2 != res && r2 in queues[res2].requests && r2.txn == t ensures r2.granted {
        assert r2 in QueueOf(queues, res2).requests;
      }
    }
    hide OneWait;
    forall r2 | r2 in q.requests && r2.txn == t && r2 != r ensures r2.granted {
      var j :| 0 <= j < |q.requests| && q.requests[j] == r2;
      assert i < j ==> PairOk(KindOf(res), q.requests[i], q.requests[j]);
      assert j < i ==> PairOk(KindOf(res), q.requests[j], q.requests[i]);
    }
    assert QueueOk(KindOf(res), q);
    hide QueueOk;
    assert RequestsOk(txns, res, q);
    assert Shown(txns, res, r) && Announced(txns, res, r) && Shaped(res, r);
    if Tracked(res) && res in txns[t].locks { MapShowsRequest(queues, txns, t, res, r); }
  }

  lemma {:induction false} MapShowsRequest(queues: Queues, txns: Transactions, t: TxnId, res: Resource, r: Request)
    requires Ok(queues, txns) && t in txns && !AbortPendingOrDone(txns[t]) && res in txns[t].locks
    requires res in queues && r in queues[res].requests && r.txn == t
    ensures Effective(r) == Some(txns[t].locks[res])
  {
  }

  lemma RemoveIs(q: Queue, rest: seq<Request>, t: TxnId, all: bool)
    requires rest == Without(q.requests, t, all)
    ensures ResetUpgrading(q.(requests := rest), t) == Remove(q, t, all)
  {
  }

  /** ---------- The lock manager ---------- */

  class LockManager {
    var queues: Queues
    var txns: Transactions

    ghost predicate Valid()
      reads this
    {
      Ok(queues, txns)
    }

    constructor ()
      ensures Valid() && queues == map[] && txns == map[]
    {
      queues, txns := map[], map[];
    }

    method RegisterTransaction(t: TxnId)
      requires Valid() && t !in txns
      modifies this`txns
      ensures Valid() && txns == old(txns)[t := Txn(Active, map[], true)]
    {
      RegisterOk(queues, txns, t);
      txns := txns[t := Txn(Active, map[], true)];
    }

    /** After ReleaseAll. */
    method UnregisterTransaction(t: TxnId)
      requires Valid() && t in txns
      requires NoRequestOf(queues, t)
      modifies this`txns
      ensures Valid() && txns == old(txns)[t := old(txns)[t].(registered := false)]
    {
      assert forall res, r :: res in queues && r in queues[res].requests ==> r in QueueOf(queues, res).requests;
      StateOk(queues, txns, t, txns[t].(registered := false));
      txns := txns[t := txns[t].(registered := false)];
    }

    /** TryMarkAborting. */
    method TryMarkAborting(t: TxnId) returns (marked: bool)
      requires Valid() && t in txns
      modifies this`txns
      ensures Valid() && marked == !(old(txns)[t].state.Committed? || old(txns)[t].state.Aborted?)
      ensures txns == if marked then old(txns)[t := old(txns)[t].(state := Aborting)] else old(txns)
    {
      if txns[t].state.Committed? || txns[t].state.Aborted? { return false; }
      MarkOk(queues, txns, t);
      txns := txns[t := txns[t].(state := Aborting)];
      return true;
    }

    /** SetState, once the end record of t is durable. */
    method SetEnded(t: TxnId, state: TxnState)
      requires Valid() && t in txns
      requires (state.Committed? && txns[t].state.Active?) || (state.Aborted? && txns[t].state.Aborting?)
      modifies this`txns
      ensures Valid() && txns == old(txns)[t := old(txns)[t].(state := state)]
    {
      EndedOk(queues, txns, t, state);
      txns := txns[t := txns[t].(state := state)];
    }

    /** ----- Acquisition ----- */

    /** One turn of the wait loop on a filed request: grant it if the grant test says
        so, wait otherwise. */
    method Decide(t: TxnId, res: Resource, q: Queue, i: nat) returns (reply: Reply)
      requires i < |q.requests| && q.requests[i].txn == t
      requires Valid() && Pending(queues, txns, res, q, q.requests[i])
      modifies this
      ensures Valid() && OthersKept(old(queues), queues, t) && XKept(old(queues), queues)
      ensures TxnsKept(old(txns), txns, t)
      ensures reply == if CanGrant(KindOf(res), q, i) then Granted else MustWait
      ensures reply.Granted? ==> queues == old(queues)[res := Grant(q, i)]
                                 && HasGranted(queues, t, res, q.requests[i].range, q.requests[i].mode)
                                 && txns[t] == WithLock(old(txns)[t], res, q.requests[i].mode)
      ensures reply.MustWait? ==> queues == old(queues)[res := q] && txns[t] == old(txns)[t].(state := Waiting)
                                  && WaitsBehind(queues, t, res, q.requests[i].range, q.requests[i].mode)
      ensures Decided(old(queues), queues, old(txns)[t], txns[t], res, q, i, reply)
    {
      hide Ok, CanGrant;
      var ok := CanGrantRequest(KindOf(res), q, i);
      if ok {
        GrantedOk(queues, txns, res, q, i);
        queues, txns := queues[res := Grant(q, i)], txns[t := WithLock(txns[t], res, q.requests[i].mode)];
        reply := Granted;
      } else {
        WaitOk(queues, txns, res, q, q.requests[i]);
        queues, txns := queues[res := q], txns[t := txns[t].(state := Waiting)];
        assert !q.requests[i].granted && QueueOf(queues, res) == q;
        assert IsRequestOf(QueueOf(queues, res).requests[i], t, q.requests[i].range);
        reply := MustWait;
      }
    }

    /** The part the three lock calls share once the target mode is known. */
    method FileRequest(t: TxnId, res: Resource, range: Range, target: LockMode) returns (reply: Reply, ghost i: nat)
      requires Valid() && t in txns && txns[t].state.Active? && txns[t].registered
      requires Tracked(res) ==> range == WHOLE
      requires Announced(txns, res, Request(t, target, range, false, None))
      requires forall r :: r in QueueOf(queues, res).requests && IsRequestOf(r, t, range) ==>
                 r.mode != target && Combine(KindOf(res), r.mode, target) == target
      modifies this
      ensures Valid() && OthersKept(old(queues), queues, t) && XKept(old(queues), queues)
      ensures TxnsKept(old(txns), txns, t)
      ensures Outcome(queues, old(txns)[t], txns[t], t, res, range, target, reply)
      ensures Filed(old(queues), queues, old(txns)[t], txns[t], t, res, range, i, target, reply)
      ensures IsFirst(QueueOf(old(queues), res), t, range, i)
    {
      hide Ok, Pending, OthersKept, XKept, CanGrant, Compatible, Combine, Decided;
      var q := QueueOf(queues, res);
      var i' := FindRequest(q, t, range);
      i := i';
      if i' == |q.requests| {
        EnqueuePending(queues, txns, t, res, range, target);
        reply := Decide(t, res, Enqueue(q, t, target, range), i');
      } else if UpgradeTaken(q, t) {
        MarkOk(queues, txns, t);
        txns := txns[t := txns[t].(state := Aborting)];
        reply := Refused;
        NothingChanged(queues, t);
      } else {
        UpgradePending(queues, txns, t, res, i', target);
        reply := Decide(t, res, StartUpgrade(q, i', target), i');
      }
    }

    method LockTable(t: TxnId, relation: nat, mode: LockMode) returns (reply: Reply)
      requires Valid() && t in txns && txns[t].registered && (txns[t].state.Active? || AbortPendingOrDone(txns[t]))
      modifies this
      ensures Valid() && OthersKept(old(queues), queues, t) && XKept(old(queues), queues)
      ensures TxnsKept(old(txns), txns, t)
      ensures Replied(old(queues), queues, old(txns)[t], txns[t], t, Table(relation), WHOLE, mode, reply)
    {
      hide Ok, OthersKept, XKept, Outcome, Filed;
      NothingChanged(queues, t);
      if AbortPendingOrDone(txns[t]) { return Refused; }
      var res := Table(relation);
      if res in txns[t].locks && ModeSatisfies(TableLock, txns[t].locks[res], mode) {
        MapIsHeld(queues, txns, t, res);
        return Granted;
      }
      var target := if res in txns[t].locks then CombineTableModes(txns[t].locks[res], mode) else mode;
      TargetGrows(queues, txns, t, res, mode);
      ghost var i;
      reply, i := FileRequest(t, res, WHOLE, target);
      assert Filed(old(queues), queues, old(txns)[t], txns[t], t, res, WHOLE, i, target, reply);
    }

    /** A call without the table lock it needs throws before anything changes. */
    method LockRecord(t: TxnId, relation: nat, rid: nat, mode: LockMode) returns (reply: Reply)
      requires Valid() && t in txns && txns[t].registered && (txns[t].state.Active? || AbortPendingOrDone(txns[t]))
      modifies this
      ensures Valid() && OthersKept(old(queues), queues, t) && XKept(old(queues), queues)
      ensures TxnsKept(old(txns), txns, t)
      ensures reply.Error? <==> !IsTupleOrRangeLockMode(mode)
                                || (!AbortPendingOrDone(old(txns)[t]) && !RecordAllowed(old(txns)[t], relation, mode))
      ensures reply.Error? ==> queues == old(queues) && txns == old(txns)
      ensures !reply.Error? ==>
                Replied(old(queues), queues, old(txns)[t], txns[t], t, Record(relation, rid), WHOLE, mode, reply)
    {
      hide Ok, OthersKept, XKept, Filed;
      NothingChanged(queues, t);
      if !IsTupleOrRangeLockMode(mode) { return Error; }
      if AbortPendingOrDone(txns[t]) { return Refused; }
      if !RecordAllowed(txns[t], relation, mode) { return Error; }
      var res := Record(relation, rid);
      if res in txns[t].locks && ModeSatisfies(RecordLock, txns[t].locks[res], mode) {
        MapIsHeld(queues, txns, t, res);
        return Granted;
      }
      var target := if res in txns[t].locks then CombineTupleOrRangeModes(txns[t].locks[res], mode) else mode;
      TargetGrows(queues, txns, t, res, mode);
      ghost var i;
      reply, i := FileRequest(t, res, WHOLE, target);
      assert Filed(old(queues), queues, old(txns)[t], txns[t], t, res, WHOLE, i, target, reply);
    }

    method LockKeyRange(t: TxnId, relation: nat, range: Range, mode: LockMode) returns (reply: Reply)
      requires Valid() && t in txns && txns[t].registered && (txns[t].state.Active? || AbortPendingOrDone(txns[t]))
      modifies this
      ensures Valid() && OthersKept(old(queues), queues, t) && XKept(old(queues), queues)
      ensures TxnsKept(old(txns), txns, t)
      ensures reply.Error? <==> !IsTupleOrRangeLockMode(mode)
      ensures reply.Error? ==> queues == old(queues) && txns == old(txns)
      ensures !reply.Error? ==>
                RangeReplied(old(queues), queues, old(txns)[t], txns[t], t, relation, range, mode, reply)
      ensures reply.Granted? ==> RangeHeld(queues, t, relation, range, mode)
      ensures reply.Refused? ==>
                AbortPendingOrDone(old(txns)[t]) || UpgradeBlocked(old(queues), t, relation, range, mode)
    {
      hide Ok, OthersKept, XKept, CanGrant, Filed, Outcome, ModeSatisfies, IsFirst;
      NothingChanged(queues, t);
      if !IsTupleOrRangeLockMode(mode) { return Error; }
      if AbortPendingOrDone(txns[t]) { return Refused; }
      var res, q := Index(relation), QueueOf(queues, Index(relation));
      var i := FindRequest(q, t, range);
      var target := if i < |q.requests| then CombineTupleOrRangeModes(q.requests[i].mode, mode) else mode;
      RangeFound(queues, txns, t, relation, range, i, mode);
      if i < |q.requests| && q.requests[i].mode == target { return Granted; }
      if i < |q.requests| { RangeTarget(queues, txns, t, res, range, i, mode); }
      ghost var was, x := queues, txns[t];
      ghost var j;
      reply, j := FileRequest(t, res, range, target);
      SameFirst(q, t, range, i, j);
      assert RangeFiled(was, queues, x, txns[t], t, res, range, i, target, mode, reply);
      FiledHolds(was, queues, x, txns[t], t, relation, range, i, target, mode, reply);
    }

    /** A key is the range from the key to itself. */
    method LockKey(t: TxnId, relation: nat, key: Key, mode: LockMode) returns (reply: Reply)
      requires Valid() && t in txns && txns[t].registered && (txns[t].state.Active? || AbortPendingOrDone(txns[t]))
      modifies this
      ensures Valid() && OthersKept(old(queues), queues, t) && XKept(old(queues), queues)
      ensures TxnsKept(old(txns), txns, t)
      ensures reply.Error? <==> !IsTupleOrRangeLockMode(mode)
      ensures reply.Error? ==> queues == old(queues) && txns == old(txns)
      ensures var range := Range(Bounded(key), Bounded(key), true, true);
              && (!reply.Error? ==>
                    RangeReplied(old(queues), queues, old(txns)[t], txns[t], t, relation, range, mode, reply))
              && (reply.Granted? ==> RangeHeld(queues, t, relation, range, mode))
              && (reply.Refused? ==>
                    AbortPendingOrDone(old(txns)[t]) || UpgradeBlocked(old(queues), t, relation, range, mode))
    {
      hide RangeReplied, RangeHeld, UpgradeBlocked;
      reply := LockKeyRange(t, relation, Range(Bounded(key), Bounded(key), true, true), mode);
    }

    /** A blocked lock call wakes up: one more turn of its wait loop. */
    method Retry(t: TxnId, res: Resource, range: Range) returns (reply: Reply, ghost i: nat)
      requires Valid() && t in txns && (txns[t].state.Waiting? || AbortPendingOrDone(txns[t]))
      requires forall r :: r in QueueOf(queues, res).requests && IsRequestOf(r, t, range) ==> !r.granted
      modifies this
      ensures Valid() && OthersKept(old(queues), queues, t) && XKept(old(queues), queues)
      ensures TxnsKept(old(txns), txns, t)
      ensures Retried(old(queues), queues, old(txns)[t], txns[t], t, res, range, i, reply)
      ensures AbortPendingOrDone(old(txns)[t]) ==> reply.Refused?
      ensures reply.Refused? ==> txns == old(txns)
      ensures txns[t].registered == old(txns)[t].registered
      ensures reply.Granted? ==> txns[t].state.Active?
      ensures reply.Granted? ==>
                && GrantableAt(old(queues), t, res, range, i, true)
                && HasGranted(queues, t, res, range, QueueOf(old(queues), res).requests[i].mode)
      ensures reply.MustWait? ==> txns == old(txns) && QueueOf(queues, res) == QueueOf(old(queues), res)
      ensures reply.MustWait? ==> GrantableAt(old(queues), t, res, range, i, false)
      ensures reply.Refused? ==> forall r :: r in QueueOf(queues, res).requests ==> !IsRequestOf(r, t, range)
      ensures !reply.Error?
    {
      hide Ok, OthersKept, XKept, CanGrant, Pending, Decided;
      NothingChanged(queues, t);
      var q := QueueOf(queues, res);
      var at := FindRequest(q, t, range);
      i := at;
      if at == |q.requests| { reply := Refused; return; }
      if AbortPendingOrDone(txns[t]) {
        EraseOk(queues, txns, t, res, at);
        queues := queues[res := EraseAt(q, at)];
        reply := Refused;
        return;
      }
      RetryPending(queues, txns, t, res, at);
      reply := Decide(t, res, q, at);
      assert GrantableAt(old(queues), t, res, range, i, reply.Granted?);
    }

    /** ----- Release ----- */

    /** The loops over every queue of RemoveUngrantedRequestsLocked and ReleaseAll. */
    method EraseEverywhere(t: TxnId, all: bool)
      modifies this`queues
      ensures queues == Removed(old(queues), t, all)
    {
      var todo := queues.Keys;
      while todo != {}
        invariant todo <= queues.Keys == old(queues).Keys
        invariant forall res :: res in queues ==>
                    queues[res] == if res in todo then old(queues)[res] else Remove(old(queues)[res], t, all)
      {
        hide Remove;
        var res :| res in todo;
        var rest := EraseRequests(queues[res].requests, t, all);
        RemoveIs(queues[res], rest, t, all);
        queues := queues[res := ResetUpgrading(queues[res].(requests := rest), t)];
        todo := todo - {res};
      }
    }

    /** RemoveUngrantedRequestsLocked, for a transaction marked aborting. */
    method RemoveUngranted(t: TxnId)
      requires Valid() && t in txns && AbortPendingOrDone(txns[t])
      modifies this`queues
      ensures Valid() && queues == Removed(old(queues), t, false)
      ensures OthersKept(old(queues), queues, t) && XKept(old(queues), queues)
    {
      QueuesOk(queues, txns);
      RemovedTrims(queues, t, false);
      TrimOk(queues, Removed(queues, t, false), txns, t);
      hide Ok;
      EraseEverywhere(t, false);
    }

    /** Strict two-phase locking: everything goes at once, after the end record. */
    method ReleaseAll(t: TxnId)
      requires Valid() && t in txns
      modifies this
      ensures Valid() && OthersKept(old(queues), queues, t)
      ensures txns == old(txns)[t := old(txns)[t].(locks := map[])]
      ensures NoRequestOf(queues, t)
    {
      ReleaseOk(queues, txns, t);
      hide Ok, OthersKept;
      EraseEverywhere(t, true);
      txns := txns[t := txns[t].(locks := map[])];
    }
  }
}
