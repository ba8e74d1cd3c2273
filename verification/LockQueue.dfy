/** One lock queue: FIFO requests, in-place upgrades, the grant test, and the invariant
    that keeps the modes held by different transactions compatible. Table and record
    queues are range queues whose requests all cover the whole range. */
module LockQueue {
  import opened Options
  import opened WalRecords
  import opened LockModes

  /** `was` is the mode a waiting upgrader held before its request was changed in place:
      the mode its transaction's lock map still shows. */
  datatype Request = Request(txn: TxnId, mode: LockMode, range: Range, granted: bool, was: Option<LockMode>)

  datatype Queue = Queue(requests: seq<Request>, upgrading: Option<TxnId>)

  const EMPTY := Queue([], None)

  /** Requests of different transactions on overlapping ranges. */
  predicate Rivals(a: Request, b: Request) { a.txn != b.txn && RangesOverlap(a.range, b.range) }

  /** The mode the request stands for, if it stands for any. */
  function Effective(r: Request): Option<LockMode> { if r.granted then Some(r.mode) else r.was }

  /** ---------- The grant test ---------- */

  /** Request j keeps the waiting request i from being granted. */
  predicate Blocks(kind: Kind, q: Queue, i: int, j: int)
    requires 0 <= i < |q.requests| && 0 <= j < |q.requests|
  {
    var a, b := q.requests[i], q.requests[j];
    && Rivals(b, a)
    && if j < i then !b.granted || !Compatible(kind, a.mode, b.mode)
       else j > i && b.granted && !Compatible(kind, a.mode, b.mode)
  }

  predicate CanGrant(kind: Kind, q: Queue, i: int)
    requires 0 <= i < |q.requests|
  {
    forall j :: 0 <= j < |q.requests| ==> !Blocks(kind, q, i, j)
  }

  method CanGrantRequest(kind: Kind, q: Queue, i: nat) returns (ok: bool)
    requires i < |q.requests|
    ensures ok <==> CanGrant(kind, q, i)
  {
    var target := q.requests[i];
    for j := 0 to i
      invariant forall k :: 0 <= k < j ==> !Blocks(kind, q, i, k)
    {
      var it := q.requests[j];
      if it.txn == target.txn { continue; }
      if !RangesOverlap(it.range, target.range) { continue; }
      if !it.granted || !Compatible(kind, target.mode, it.mode) {
        assert Blocks(kind, q, i, j);
        return false;
      }
    }
    for j := i + 1 to |q.requests|
      invariant forall k :: 0 <= k < j ==> !Blocks(kind, q, i, k)
    {
      var it := q.requests[j];
      if it.txn == target.txn { continue; }
      if !it.granted { continue; }
      if !RangesOverlap(it.range, target.range) { continue; }
      if !Compatible(kind, target.mode, it.mode) {
        assert Blocks(kind, q, i, j);
        return false;
      }
    }
    return true;
  }

  /** ---------- The invariant ---------- */

  predicate PairOk(kind: Kind, a: Request, b: Request) {
    && (a.txn == b.txn ==> (a.granted || b.granted) && a.range != b.range)
    && (Rivals(a, b) ==>
          && (!a.granted && b.granted ==> a.was.Some?)
          && (b.was.Some? ==> a.granted)
          && (Effective(a).Some? && Effective(b).Some? ==> Compatible(kind, Effective(a).value, Effective(b).value)))
  }

  ghost predicate RequestOk(q: Queue, a: Request) {
    a.was.Some? ==> !a.granted && q.upgrading == Some(a.txn)
  }

  /** Every pair of requests, the earlier one first. */
  ghost predicate QueueOk(kind: Kind, q: Queue) {
    && (forall i :: 0 <= i < |q.requests| ==> RequestOk(q, q.requests[i]))
    && (forall i, j :: 0 <= i < j < |q.requests| ==> PairOk(kind, q.requests[i], q.requests[j]))
  }

  /** The modes of different transactions are compatible wherever their ranges meet,
      a waiting upgrader counted at its old mode. */
  lemma {:induction false} HeldModesCompatible(kind: Kind, q: Queue, i: int, j: int)
    requires QueueOk(kind, q) && 0 <= i < |q.requests| && 0 <= j < |q.requests|
    requires q.requests[i].txn != q.requests[j].txn && RangesOverlap(q.requests[i].range, q.requests[j].range)
    requires Effective(q.requests[i]).Some? && Effective(q.requests[j]).Some?
    ensures Compatible(kind, Effective(q.requests[i]).value, Effective(q.requests[j]).value)
  {
  }

  /** ---------- Steps ---------- */

  function Enqueue(q: Queue, t: TxnId, mode: LockMode, range: Range): Queue {
    q.(requests := q.requests + [Request(t, mode, range, false, None)])
  }

  function StartUpgrade(q: Queue, i: nat, target: LockMode): Queue
    requires i < |q.requests|
  {
    var r := q.requests[i];
    Queue(q.requests[i := r.(mode := target, granted := false, was := Some(r.mode))], Some(r.txn))
  }

  function ResetUpgrading(q: Queue, t: TxnId): Queue {
    if q.upgrading == Some(t) then q.(upgrading := None) else q
  }

  function Grant(q: Queue, i: nat): Queue
    requires i < |q.requests|
  {
    var r := q.requests[i];
    ResetUpgrading(q.(requests := q.requests[i := r.(granted := true, was := None)]), r.txn)
  }

  lemma {:induction false} EnqueueOk(kind: Kind, q: Queue, t: TxnId, mode: LockMode, range: Range)
    requires QueueOk(kind, q)
    requires forall i :: 0 <= i < |q.requests| && q.requests[i].txn == t ==>
               q.requests[i].granted && q.requests[i].range != range
    ensures QueueOk(kind, Enqueue(q, t, mode, range))
  {
  }

  /** With no other upgrader, everything ahead of a granted request that meets its range
      is granted, so nothing can be granted over the mode it gives up. */
  lemma {:induction false} StartUpgradeOk(kind: Kind, q: Queue, i: nat, target: LockMode)
    requires QueueOk(kind, q) && i < |q.requests| && q.requests[i].granted && q.requests[i].was.None?
    requires q.upgrading.None? || q.upgrading == Some(q.requests[i].txn)
    requires forall j :: 0 <= j < |q.requests| && q.requests[j].txn == q.requests[i].txn ==> q.requests[j].granted
    ensures QueueOk(kind, StartUpgrade(q, i, target))
  {
  }

  lemma {:induction false} GrantOk(kind: Kind, q: Queue, i: nat)
    requires QueueOk(kind, q) && i < |q.requests| && CanGrant(kind, q, i) && !q.requests[i].granted
    ensures QueueOk(kind, Grant(q, i))
  {
    var q' := Grant(q, i);
    forall j | 0 <= j < |q'.requests| ensures RequestOk(q', q'.requests[j]) {
      assert RequestOk(q, q.requests[j]);
      if j < i { assert PairOk(kind, q.requests[j], q.requests[i]); }
      if j > i { assert PairOk(kind, q.requests[i], q.requests[j]); }
    }
    forall j, k | 0 <= j < k < |q'.requests| ensures PairOk(kind, q'.requests[j], q'.requests[k]) {
      assert PairOk(kind, q.requests[j], q.requests[k]);
      if k == i {
        assert !Blocks(kind, q, i, j);
        CompatibleSymmetric(kind, q.requests[j].mode, q.requests[i].mode);
      } else if j == i {
        assert !Blocks(kind, q, i, k);
      }
    }
  }

  /** ---------- Removing requests ---------- */

  predicate Leaves(r: Request, t: TxnId, all: bool) { r.txn == t && (all || !r.granted) }

  function Without(rs: seq<Request>, t: TxnId, all: bool): seq<Request> {
    if rs == [] then []
    else if Leaves(rs[0], t, all) then Without(rs[1..], t, all)
    else [rs[0]] + Without(rs[1..], t, all)
  }

  function Remove(q: Queue, t: TxnId, all: bool): Queue {
    ResetUpgrading(q.(requests := Without(q.requests, t, all)), t)
  }

  /** The erase loop of ReleaseAll and RemoveUngrantedRequestsLocked. */
  method EraseRequests(rs: seq<Request>, t: TxnId, all: bool) returns (out: seq<Request>)
    ensures out == Without(rs, t, all)
  {
    out := rs;
    var i := 0;
    while i < |out|
      invariant 0 <= i <= |out|
      invariant out[..i] + Without(out[i..], t, all) == Without(rs, t, all)
      decreases |out| - i
    {
      if Leaves(out[i], t, all) {
        var next := out[..i] + out[i + 1..];
        assert next[i..] == out[i..][1..] && next[..i] == out[..i];
        out := next;
      } else {
        assert out[i..][1..] == out[i + 1..];
        assert out[..i + 1] == out[..i] + [out[i]];
        i := i + 1;
      }
    }
    assert out[..i] == out && out[i..] == [];
  }

  lemma {:induction false} WithoutMembers(rs: seq<Request>, t: TxnId, all: bool)
    ensures forall r :: r in Without(rs, t, all) <==> r in rs && !Leaves(r, t, all)
  {
    if rs != [] {
      WithoutMembers(rs[1..], t, all);
      assert rs == [rs[0]] + rs[1..];
    }
  }

  lemma {:induction false} WithoutPairs(kind: Kind, rs: seq<Request>, t: TxnId, all: bool)
    requires forall i, j :: 0 <= i < j < |rs| ==> PairOk(kind, rs[i], rs[j])
    ensures forall i, j :: 0 <= i < j < |Without(rs, t, all)| ==>
              PairOk(kind, Without(rs, t, all)[i], Without(rs, t, all)[j])
  {
    if rs != [] {
      var rest := rs[1..];
      forall i, j | 0 <= i < j < |rest| ensures PairOk(kind, rest[i], rest[j]) {
        assert rest[i] == rs[i + 1] && rest[j] == rs[j + 1];
      }
      WithoutPairs(kind, rest, t, all);
      WithoutMembers(rest, t, all);
      var out, kept := Without(rs, t, all), Without(rest, t, all);
      forall i, j | 0 <= i < j < |out| ensures PairOk(kind, out[i], out[j]) {
        if !Leaves(rs[0], t, all) {
          if i == 0 {
            assert out[j] == kept[j - 1] && kept[j - 1] in rest;
            var k :| 0 <= k < |rest| && rest[k] == kept[j - 1];
            assert rs[k + 1] == out[j];
          } else {
            assert out[i] == kept[i - 1] && out[j] == kept[j - 1];
          }
        }
      }
    }
  }

  lemma {:induction false} RemoveOk(kind: Kind, q: Queue, t: TxnId, all: bool)
    requires QueueOk(kind, q)
    ensures QueueOk(kind, Remove(q, t, all))
    ensures forall r :: r in Remove(q, t, all).requests <==> r in q.requests && !Leaves(r, t, all)
  {
    WithoutPairs(kind, q.requests, t, all);
    WithoutMembers(q.requests, t, all);
    var q' := Remove(q, t, all);
    forall i | 0 <= i < |q'.requests| ensures RequestOk(q', q'.requests[i]) {
      assert q'.requests[i] in q.requests;
      var k :| 0 <= k < |q.requests| && q.requests[k] == q'.requests[i];
      assert RequestOk(q, q.requests[k]);
    }
  }
}
