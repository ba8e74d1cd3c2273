/** Epoch reclamation of retired pages. An operation reads the global epoch first and is
    registered under it in a later step, so other steps may come between
    (concurrency/page_retire_manager.cpp). */
module PageRetire {
  import opened WalRecords

  datatype Entry = Entry(page: PageId, epoch: nat)

  /** Operations by id, with the epoch they registered under. */
  type Operations = map<nat, nat>

  ghost function Holders(ops: Operations, epoch: nat): set<nat> {
    set o | o in ops && ops[o] == epoch
  }

  /** The epoch counts are those of the registered operations. */
  ghost predicate CountsOk(active: map<nat, nat>, ops: Operations) {
    forall e :: if e in active then active[e] == |Holders(ops, e)| && active[e] > 0 else Holders(ops, e) == {}
  }

  lemma {:induction false} HasCount(active: map<nat, nat>, ops: Operations, o: nat)
    requires CountsOk(active, ops) && o in ops
    ensures ops[o] in active
  {
    assert o in Holders(ops, ops[o]);
  }

  lemma {:induction false} CountsEnter(active: map<nat, nat>, ops: Operations, o: nat, epoch: nat)
    requires CountsOk(active, ops) && o !in ops
    ensures CountsOk(active[epoch := (if epoch in active then active[epoch] else 0) + 1], ops[o := epoch])
  {
    var ops' := ops[o := epoch];
    forall e ensures Holders(ops', e) == if e == epoch then Holders(ops, e) + {o} else Holders(ops, e) {}
  }

  lemma {:induction false} CountsExit(active: map<nat, nat>, ops: Operations, o: nat)
    requires CountsOk(active, ops) && o in ops
    ensures ops[o] in active
    ensures var e := ops[o];
            CountsOk(if active[e] <= 1 then active - {e} else active[e := active[e] - 1], ops - {o})
  {
    HasCount(active, ops, o);
    var ops' := ops - {o};
    forall e ensures Holders(ops', e) == if e == ops[o] then Holders(ops, e) - {o} else Holders(ops, e) {}
  }

  function Min(a: nat, b: nat): nat { if a < b then a else b }

  /** Every registered operation has a newer epoch than the retirement. */
  ghost predicate IsFree(ops: Operations, r: Entry) { forall o :: o in ops ==> r.epoch < ops[o] }

  /** What one reclamation leaves of the list: pages that are not free, and those the callback
      refuses. */
  ghost function Kept(retired: seq<Entry>, ops: Operations, accepts: set<PageId>): seq<Entry> {
    if retired == [] then []
    else
      var front, r := retired[..|retired| - 1], retired[|retired| - 1];
      if IsFree(ops, r) && r.page in accepts then Kept(front, ops, accepts) else Kept(front, ops, accepts) + [r]
  }

  /** A page goes exactly when it is free and accepted. */
  lemma {:induction false} KeptExactly(retired: seq<Entry>, ops: Operations, accepts: set<PageId>, r: Entry)
    ensures r in Kept(retired, ops, accepts) <==> r in retired && !(IsFree(ops, r) && r.page in accepts)
  {
    if retired != [] {
      var front := retired[..|retired| - 1];
      assert retired == front + [retired[|retired| - 1]];
      KeptExactly(front, ops, accepts, r);
    }
  }

  lemma {:induction false} SafeMeansFree(active: map<nat, nat>, ops: Operations, r: Entry, safe: nat, globalEpoch: nat)
    requires CountsOk(active, ops) && 1 <= r.epoch <= globalEpoch
    requires active == map[] ==> safe == globalEpoch
    requires forall e :: e in active ==> safe < e || (safe == 0 && e == 0)
    requires active != map[] ==> exists e :: e in active && e <= safe + 1
    ensures r.epoch <= safe <==> IsFree(ops, r)
  {
    if active == map[] {
      forall o | o in ops ensures false { HasCount(active, ops, o); }
    } else {
      var e :| e in active && e <= safe + 1;
      assert |Holders(ops, e)| > 0;
      var o :| o in Holders(ops, e);
      forall x | x in ops ensures ops[x] in active { HasCount(active, ops, x); }
    }
  }

  class PageRetireManager {
    var globalEpoch: nat
    var active: map<nat, nat>
    var retired: seq<Entry>
    // the registered operations
    ghost var ops: Operations
    // for each retirement, named by its epoch: the operations registered at that moment
    ghost var guards: map<nat, set<nat>>

    ghost predicate Valid()
      reads this
    {
      && CountsOk(active, ops)
      && (forall o :: o in ops ==> ops[o] <= globalEpoch)
      && globalEpoch >= 1 && (forall e :: e in guards ==> 1 <= e <= globalEpoch)
      && (forall i :: 0 <= i < |retired| ==> Guarded(retired[i]))
    }

    /** Every operation that was registered when the page was retired, and still is, has an
        older epoch than the retirement. */
    ghost predicate Guarded(r: Entry)
      reads this
    {
      r.epoch in guards && forall o :: o in guards[r.epoch] && o in ops ==> ops[o] < r.epoch
    }

    constructor ()
      ensures Valid() && ops == map[] && retired == []
    {
      globalEpoch, active, retired, ops, guards := 1, map[], [], map[], map[];
    }

    /** First step of EnterEpoch, without the latch. */
    method LoadEpoch() returns (epoch: nat)
      ensures epoch == globalEpoch
    {
      epoch := globalEpoch;
    }

    /** Second step of EnterEpoch: by now the global epoch may have moved on. */
    method Register(epoch: nat, ghost o: nat)
      requires Valid() && epoch <= globalEpoch && o !in ops && forall e :: e in guards ==> o !in guards[e]
      modifies this`active, this`ops
      ensures Valid() && ops == old(ops)[o := epoch]
    {
      CountsEnter(active, ops, o, epoch);
      active := active[epoch := (if epoch in active then active[epoch] else 0) + 1];
      ops := ops[o := epoch];
    }

    /** The operation is over; what only it protected is reclaimed. */
    method ExitEpoch(epoch: nat, accepts: set<PageId>, ghost o: nat)
      requires Valid() && o in ops && ops[o] == epoch
      modifies this`active, this`retired, this`ops
      ensures Valid() && ops == old(ops) - {o}
      ensures OnlyUnprotected(old(retired)) && AllReclaimed(accepts)
      ensures retired == Kept(old(retired), ops, accepts)
    {
      CountsExit(active, ops, o);
      if epoch in active {
        if active[epoch] <= 1 { active := active - {epoch}; } else { active := active[epoch := active[epoch] - 1]; }
      }
      ops := ops - {o};
      TryReclaim(accepts);
    }

    method RetirePage(p: PageId, accepts: set<PageId>)
      requires Valid()
      modifies this`globalEpoch, this`retired, this`guards
      ensures Valid() && globalEpoch == old(globalEpoch) + 1 && guards == old(guards)[globalEpoch := ops.Keys]
      ensures OnlyUnprotected(old(retired) + [Entry(p, globalEpoch)]) && AllReclaimed(accepts)
      ensures ops != map[] ==> Entry(p, globalEpoch) in retired
      ensures retired == Kept(old(retired) + [Entry(p, globalEpoch)], ops, accepts)
    {
      globalEpoch := globalEpoch + 1;
      retired := retired + [Entry(p, globalEpoch)];
      guards := guards[globalEpoch := ops.Keys];
      ghost var mine := Entry(p, globalEpoch);
      assert retired[|retired| - 1] == mine;
      TryReclaim(accepts);
    }

    method Drain(accepts: set<PageId>)
      requires Valid()
      modifies this`globalEpoch, this`retired
      ensures Valid() && OnlyUnprotected(old(retired)) && AllReclaimed(accepts)
      ensures globalEpoch == old(globalEpoch) + 1 && retired == Kept(old(retired), ops, accepts)
    {
      globalEpoch := globalEpoch + 1;
      TryReclaim(accepts);
    }

    /** Pages that left the list had no protector left: every operation registered when the
        page was retired has exited. */
    ghost predicate OnlyUnprotected(before: seq<Entry>)
      reads this
    {
      && (forall r :: r in retired ==> r in before)
      && (forall r :: r in before && r !in retired ==> r.epoch in guards && forall o :: o in guards[r.epoch] ==>
          o !in ops)
    }

    /** With no operation registered only pages the callback refuses stay. */
    ghost predicate AllReclaimed(accepts: set<PageId>)
      reads this
    {
      ops == map[] ==> forall r :: r in retired ==> r.page !in accepts
    }

    /** ComputeSafeEpochLocked. */
    method ComputeSafeEpoch() returns (safe: nat)
      requires Valid()
      ensures active == map[] ==> safe == globalEpoch
      ensures forall e :: e in active ==> safe < e || (safe == 0 && e == 0)
      ensures active != map[] ==> exists e :: e in active && e <= safe + 1
    {
      if active == map[] { return globalEpoch; }
      var todo := active.Keys;
      var first :| first in todo;
      var least := first;
      while todo != {}
        invariant todo <= active.Keys && forall e :: e in active && e !in todo ==> least <= e
        invariant least in active
      {
        var e :| e in todo;
        todo := todo - {e};
        least := Min(least, e);
      }
      safe := if least == 0 then 0 else least - 1;
    }

    method TryReclaim(accepts: set<PageId>)
      requires Valid()
      modifies this`retired
      ensures Valid() && OnlyUnprotected(old(retired)) && AllReclaimed(accepts)
      ensures retired == Kept(old(retired), ops, accepts)
    {
      hide CountsOk;
      var safe := ComputeSafeEpoch();
      var pending: seq<Entry> := [];
      for i := 0 to |retired|
        invariant retired == old(retired) && Valid() && pending == Kept(retired[..i], ops, accepts)
      {
        var entry := retired[i];
        assert retired[..i + 1][..i] == retired[..i] && Guarded(entry);
        SafeMeansFree(active, ops, entry, safe, globalEpoch);
        if entry.epoch > safe || entry.page !in accepts { pending := pending + [entry]; }
      }
      assert retired[..|retired|] == retired;
      hide Kept;
      forall r ensures r in pending <==> r in retired && !(IsFree(ops, r) && r.page in accepts) {
        KeptExactly(retired, ops, accepts, r);
      }
      forall r | r in retired ensures Guarded(r) {
        var k :| 0 <= k < |retired| && retired[k] == r;
      }
      retired := pending;
    }
  }
}
