/** Deadlock handling: the waits-for graph, the search for a cycle and its victim, and
    the loop that aborts victims until no cycle is left
    (concurrency/lock_manager_deadlock.cpp). */
module Deadlock {
  import opened Options
  import opened WalRecords
  import opened LockModes
  import opened LockQueue
  import opened LockManager

  type Graph = map<TxnId, set<TxnId>>

  predicate Edge(g: Graph, t: TxnId, u: TxnId) { t in g && u in g[t] }

  /** ---------- Building the graph ---------- */

  ghost predicate BlockedBy(kind: Kind, q: Queue, i: int, u: TxnId)
    requires 0 <= i < |q.requests|
  {
    exists j :: 0 <= j < |q.requests| && Blocks(kind, q, i, j) && q.requests[j].txn == u
  }

  ghost predicate WaitsIn(q: Queue, t: TxnId, i: int) {
    0 <= i < |q.requests| && q.requests[i].txn == t && !q.requests[i].granted
  }

  ghost predicate WaiterIn(q: Queue, t: TxnId) { exists i :: WaitsIn(q, t, i) }

  ghost predicate QueueEdge(kind: Kind, q: Queue, t: TxnId, u: TxnId) {
    exists i :: WaitsIn(q, t, i) && BlockedBy(kind, q, i, u)
  }

  /** t waits for u: some ungranted request of t is blocked by a request of u. */
  ghost predicate WaitsFor(queues: Queues, t: TxnId, u: TxnId) {
    exists res :: res in queues && QueueEdge(KindOf(res), queues[res], t, u)
  }

  ghost predicate IsWaiter(queues: Queues, t: TxnId) {
    exists res :: res in queues && WaiterIn(queues[res], t)
  }

  ghost predicate IsWaitsForGraph(queues: Queues, g: Graph) {
    && (forall t :: t in g <==> IsWaiter(queues, t))
    && (forall t, u :: Edge(g, t, u) <==> WaitsFor(queues, t, u))
  }

  /** The transactions that keep request i waiting. */
  method BlockersOf(kind: Kind, q: Queue, i: nat) returns (targets: set<TxnId>)
    requires i < |q.requests|
    ensures forall u :: u in targets <==> BlockedBy(kind, q, i, u)
  {
    targets := {};
    for j := 0 to |q.requests|
      invariant forall u :: u in targets <==> exists k :: 0 <= k < j && Blocks(kind, q, i, k) && q.requests[k].txn == u
    {
      ghost var was := targets;
      if Blocks(kind, q, i, j) { targets := targets + {q.requests[j].txn}; }
      forall u ensures u in targets <==> exists k :: 0 <= k < j + 1 && Blocks(kind, q, i, k) && q.requests[k].txn == u {
        if u in was {
          var k :| 0 <= k < j && Blocks(kind, q, i, k) && q.requests[k].txn == u;
          assert 0 <= k < j + 1;
        }
      }
    }
  }

  ghost predicate EdgeBefore(kind: Kind, q: Queue, n: int, t: TxnId, u: TxnId) {
    exists k :: k < n && WaitsIn(q, t, k) && BlockedBy(kind, q, k, u)
  }

  ghost predicate WaiterBefore(q: Queue, n: int, t: TxnId) { exists k :: k < n && WaitsIn(q, t, k) }

  lemma {:induction false} OneMoreWaiter(q: Queue, i: int, t: TxnId)
    ensures WaiterBefore(q, i + 1, t) <==> WaiterBefore(q, i, t) || WaitsIn(q, t, i)
  {
  }

  lemma {:induction false} OneMoreEdge(kind: Kind, q: Queue, i: int, t: TxnId, u: TxnId)
    ensures EdgeBefore(kind, q, i + 1, t, u) <==>
              EdgeBefore(kind, q, i, t, u) || (WaitsIn(q, t, i) && BlockedBy(kind, q, i, u))
  {
  }

  /** process_queue: add the edges of one queue. */
  method AddQueue(kind: Kind, q: Queue, g: Graph) returns (g': Graph)
    ensures forall t :: t in g' <==> t in g || WaiterIn(q, t)
    ensures forall t, u :: Edge(g', t, u) <==> Edge(g, t, u) || QueueEdge(kind, q, t, u)
  {
    hide BlockedBy;
    g' := g;
    for i := 0 to |q.requests|
      invariant forall t :: t in g' <==> t in g || WaiterBefore(q, i, t)
      invariant forall t, u :: Edge(g', t, u) <==> Edge(g, t, u) || EdgeBefore(kind, q, i, t, u)
    {
      hide WaiterBefore, EdgeBefore;
      forall t ensures WaiterBefore(q, i + 1, t) <==> WaiterBefore(q, i, t) || WaitsIn(q, t, i) {
        OneMoreWaiter(q, i, t);
      }
      forall t, u
        ensures EdgeBefore(kind, q, i + 1, t, u) <==>
                  EdgeBefore(kind, q, i, t, u) || (WaitsIn(q, t, i) && BlockedBy(kind, q, i, u))
      {
        OneMoreEdge(kind, q, i, t, u);
      }
      if q.requests[i].granted { continue; }
      var t := q.requests[i].txn;
      var targets := BlockersOf(kind, q, i);
      ghost var was := g';
      g' := g'[t := (if t in g' then g'[t] else {}) + targets];
      assert forall x, u :: Edge(g', x, u) <==> Edge(was, x, u) || (x == t && BlockedBy(kind, q, i, u));
    }
    assert forall t :: WaiterBefore(q, |q.requests|, t) <==> WaiterIn(q, t);
    assert forall t, u :: EdgeBefore(kind, q, |q.requests|, t, u) <==> QueueEdge(kind, q, t, u);
  }

  method BuildWaitsForGraph(queues: Queues) returns (g: Graph)
    ensures IsWaitsForGraph(queues, g)
  {
    hide QueueEdge, WaiterIn;
    g := map[];
    var todo := queues.Keys;
    while todo != {}
      invariant todo <= queues.Keys
      invariant forall t :: t in g <==> exists res :: res in queues && res !in todo && WaiterIn(queues[res], t)
      invariant forall t, u :: Edge(g, t, u) <==>
                  exists res :: res in queues && res !in todo && QueueEdge(KindOf(res), queues[res], t, u)
    {
      var res :| res in todo;
      g := AddQueue(KindOf(res), queues[res], g);
      todo := todo - {res};
    }
  }

  /** ---------- What the graph says ---------- */

  ghost predicate IsPath(g: Graph, p: seq<TxnId>) {
    |p| >= 1 && forall i :: 0 <= i < |p| - 1 ==> Edge(g, p[i], p[i + 1])
  }

  ghost predicate IsCycle(g: Graph, p: seq<TxnId>) {
    IsPath(g, p) && |p| >= 2 && p[0] == p[|p| - 1]
  }

  ghost predicate Acyclic(g: Graph) { forall p :: !IsCycle(g, p) }

  /** A waiting request contributes no edge exactly when the grant test accepts it. */
  lemma {:induction false} NoEdgeIffGrantable(queues: Queues, txns: Transactions, g: Graph, res: Resource, i: int,
                                              t: TxnId)
    requires Ok(queues, txns) && IsWaitsForGraph(queues, g)
    requires res in queues && WaitsIn(queues[res], t, i)
    ensures t in g && (g[t] == {} <==> CanGrant(KindOf(res), queues[res], i))
  {
    var q := queues[res];
    assert WaiterIn(q, t) && IsWaiter(queues, t);
    if CanGrant(KindOf(res), q, i) {
      forall u ensures !Edge(g, t, u) {
        if WaitsFor(queues, t, u) {
          OnlyWait(queues, txns, res, i, t, u);
        }
      }
      assert forall u :: u in g[t] ==> Edge(g, t, u);
    } else {
      var j :| 0 <= j < |q.requests| && Blocks(KindOf(res), q, i, j);
      assert BlockedBy(KindOf(res), q, i, q.requests[j].txn);
      assert QueueEdge(KindOf(res), q, t, q.requests[j].txn);
      assert WaitsFor(queues, t, q.requests[j].txn);
      assert Edge(g, t, q.requests[j].txn);
    }
  }

  lemma {:induction false} OneWaitPlace(queues: Queues, txns: Transactions, res: Resource, i: int, res2: Resource,
                                        k: int, t: TxnId)
    requires Ok(queues, txns) && res in queues && res2 in queues && WaitsIn(queues[res], t, i)
    requires WaitsIn(queues[res2], t, k)
    ensures res == res2 && i == k
  {
    hide RequestsOk, MapTrue, Compatible, RangesOverlap;
    var q, q2 := queues[res], queues[res2];
    assert q.requests[i] in QueueOf(queues, res).requests && q2.requests[k] in QueueOf(queues, res2).requests;
    assert res == res2;
    hide OneWait;
    assert i < k ==> PairOk(KindOf(res), q.requests[i], q.requests[k]);
    assert k < i ==> PairOk(KindOf(res), q.requests[k], q.requests[i]);
  }

  /** Whatever t waits for blocks its one ungranted request. */
  lemma {:induction false} OnlyWait(queues: Queues, txns: Transactions, res: Resource, i: int, t: TxnId, u: TxnId)
    requires Ok(queues, txns) && WaitsFor(queues, t, u)
    requires res in queues && WaitsIn(queues[res], t, i)
    ensures BlockedBy(KindOf(res), queues[res], i, u)
  {
    hide Ok, BlockedBy;
    var res2 :| res2 in queues && QueueEdge(KindOf(res2), queues[res2], t, u);
    var k :| WaitsIn(queues[res2], t, k) && BlockedBy(KindOf(res2), queues[res2], k, u);
    OneWaitPlace(queues, txns, res, i, res2, k, t);
  }

  ghost predicate Distinct(p: seq<TxnId>) { forall i, j :: 0 <= i < j < |p| ==> p[i] != p[j] }

  /** Where a walk can stop: at a transaction that is not waiting, or whose request
      can be granted. */
  ghost predicate MayStop(queues: Queues, t: TxnId) {
    || !IsWaiter(queues, t)
    || exists res, i :: res in queues && WaitsIn(queues[res], t, i) && CanGrant(KindOf(res), queues[res], i)
  }

  /** Without a cycle, every waiting transaction waits, directly or not, for one that
      can move. */
  lemma {:induction false} AcyclicMeansProgress(queues: Queues, txns: Transactions, g: Graph, t: TxnId)
    requires Ok(queues, txns) && IsWaitsForGraph(queues, g) && Acyclic(g)
    ensures exists p :: IsPath(g, p) && p[0] == t && MayStop(queues, p[|p| - 1])
  {
    Walk(queues, txns, g, [t]);
  }

  lemma {:induction false} Walk(queues: Queues, txns: Transactions, g: Graph, p: seq<TxnId>)
    requires Ok(queues, txns) && IsWaitsForGraph(queues, g) && Acyclic(g)
    requires IsPath(g, p) && Distinct(p) && forall i :: 0 <= i < |p| - 1 ==> p[i] in g
    ensures exists p' :: IsPath(g, p') && p'[0] == p[0] && MayStop(queues, p'[|p'| - 1])
    decreases |g| + 1 - |p|
  {
    hide Ok, IsWaiter;
    var t := p[|p| - 1];
    if t in g && g[t] != {} {
      DistinctBound(g, p);
      var u :| u in g[t];
      var next := p + [u];
      assert IsPath(g, next) by {
        forall i | 0 <= i < |next| - 1 ensures Edge(g, next[i], next[i + 1]) {
          if i < |p| - 1 { assert Edge(g, p[i], p[i + 1]); }
        }
      }
      forall i | 0 <= i < |p| ensures p[i] != u {
        TailIsPath(g, next, i);
        assert !IsCycle(g, next[i..]);
      }
      Walk(queues, txns, g, next);
    } else {
      StopsHere(queues, txns, g, t);
    }
  }

  lemma {:induction false} TailIsPath(g: Graph, p: seq<TxnId>, i: nat)
    requires IsPath(g, p) && i < |p|
    ensures IsPath(g, p[i..])
  {
  }

  lemma {:induction false} StopsHere(queues: Queues, txns: Transactions, g: Graph, t: TxnId)
    requires Ok(queues, txns) && IsWaitsForGraph(queues, g) && !(t in g && g[t] != {})
    ensures MayStop(queues, t)
  {
    if IsWaiter(queues, t) {
      var res :| res in queues && WaiterIn(queues[res], t);
      var i :| WaitsIn(queues[res], t, i);
      NoEdgeIffGrantable(queues, txns, g, res, i, t);
    }
  }

  lemma {:induction false} DistinctBound(g: Graph, p: seq<TxnId>)
    requires Distinct(p) && forall i :: 0 <= i < |p| ==> p[i] in g
    ensures |p| <= |g|
  {
    if p != [] {
      var last := p[|p| - 1];
      var rest := p[..|p| - 1];
      var g' := g - {last};
      assert g'.Keys == g.Keys - {last};
      assert |g'| == |g'.Keys| && |g| == |g.Keys|;
      DistinctBound(g', rest);
    }
  }

  /** ---------- Finding a cycle ---------- */

  datatype Color = Gray | Black

  /** v is the largest id on a cycle of the graph. */
  ghost predicate IsVictim(g: Graph, v: TxnId) {
    exists p :: IsCycle(g, p) && v in p && forall i :: 0 <= i < |p| ==> p[i] <= v
  }

  /** Finished transactions, each after everything it waits for. */
  ghost predicate Finished(g: Graph, done: seq<TxnId>) {
    forall i, v :: 0 <= i < |done| && Edge(g, done[i], v) ==> v in done[..i]
  }

  lemma {:induction false} StaysInDone(g: Graph, done: seq<TxnId>, n: nat, p: seq<TxnId>)
    requires Finished(g, done) && n <= |done| && IsPath(g, p) && p[0] in done[..n]
    ensures p[|p| - 1] in done[..n]
    decreases |p|
  {
    if |p| > 1 {
      assert Edge(g, p[0], p[1]);
      var i :| 0 <= i < n && done[i] == p[0];
      assert p[1] in done[..i];
      assert done[..i] <= done[..n];
      TailIsPath(g, p, 1);
      StaysInDone(g, done, n, p[1..]);
    }
  }

  ghost function FirstIndex(done: seq<TxnId>, x: TxnId): (i: nat)
    requires x in done
    ensures i < |done| && done[i] == x && x !in done[..i]
  {
    if done[0] == x then 0 else
      assert done == [done[0]] + done[1..];
      var k := FirstIndex(done[1..], x);
      assert done[..k + 1] == [done[0]] + done[1..][..k];
      k + 1
  }

  lemma {:induction false} FinishedIsAcyclic(g: Graph, done: seq<TxnId>)
    requires Finished(g, done) && forall t :: t in g ==> t in done
    ensures Acyclic(g)
  {
    forall p ensures !IsCycle(g, p) {
      if IsPath(g, p) && |p| >= 2 {
        assert Edge(g, p[0], p[1]);
        var i := FirstIndex(done, p[0]);
        assert p[1] in done[..i];
        TailIsPath(g, p, 1);
        StaysInDone(g, done, i, p[1..]);
      }
    }
  }

  ghost predicate HasNodes(g: Graph, nodes: set<TxnId>) {
    forall t :: t in g ==> t in nodes && g[t] <= nodes
  }

  /** The stack is a path of gray transactions; the black ones are finished. */
  ghost predicate SearchOk(g: Graph, nodes: set<TxnId>, color: map<TxnId, Color>, stack: seq<TxnId>, done: seq<TxnId>) {
    && color.Keys <= nodes
    && (forall t :: t in color && color[t].Gray? <==> t in stack)
    && (forall t :: t in color && color[t].Black? <==> t in done)
    && (stack == [] || IsPath(g, stack))
    && Finished(g, done)
  }

  predicate IsBlack(color: map<TxnId, Color>, t: TxnId) { t in color && color[t].Black? }

  lemma {:induction false} ColorMeans(g: Graph, nodes: set<TxnId>, color: map<TxnId, Color>, stack: seq<TxnId>,
                                      done: seq<TxnId>, t: TxnId)
    requires SearchOk(g, nodes, color, stack, done)
    ensures t in color && color[t].Gray? <==> t in stack
    ensures IsBlack(color, t) <==> t in done
  {
  }

  lemma {:induction false} InNodes(g: Graph, nodes: set<TxnId>, u: TxnId)
    requires HasNodes(g, nodes) && u in g
    ensures u in nodes && g[u] <= nodes
  {
  }

  lemma {:induction false} PushOk(g: Graph, nodes: set<TxnId>, color: map<TxnId, Color>, stack: seq<TxnId>,
                                  done: seq<TxnId>, u: TxnId)
    requires SearchOk(g, nodes, color, stack, done) && u in nodes && u !in color
    requires stack == [] || Edge(g, stack[|stack| - 1], u)
    ensures SearchOk(g, nodes, color[u := Gray], stack + [u], done)
  {
  }

  lemma {:induction false} PopOk(g: Graph, nodes: set<TxnId>, color: map<TxnId, Color>, stack: seq<TxnId>,
                                 done: seq<TxnId>, u: TxnId)
    requires SearchOk(g, nodes, color, stack + [u], done) && u !in stack
    requires forall v :: Edge(g, u, v) ==> IsBlack(color, v)
    ensures SearchOk(g, nodes, color[u := Black], stack, done + [u])
  {
    assert stack != [] ==> IsPath(g, stack) by {
      forall i | 0 <= i < |stack| - 1 ensures Edge(g, stack[i], stack[i + 1]) {
        assert (stack + [u])[i] == stack[i] && (stack + [u])[i + 1] == stack[i + 1];
      }
    }
    var done' := done + [u];
    forall i, v | 0 <= i < |done'| && Edge(g, done'[i], v) ensures v in done'[..i] {
      if i < |done| { assert v in done[..i] && done'[..i] == done[..i]; } else { assert done'[..i] == done; }
    }
  }

  class CycleSearch {
    const g: Graph
    // every transaction the graph mentions
    ghost const nodes: set<TxnId>
    var color: map<TxnId, Color>
    var stack: seq<TxnId>
    var victim: Option<TxnId>
    ghost var done: seq<TxnId>

    constructor (graph: Graph)
      ensures g == graph && color == map[] && Valid() && stack == [] && victim == None
    {
      g, color, stack, victim, done := graph, map[], [], None, [];
      nodes := graph.Keys + set t, u | t in graph && u in graph[t] :: u;
    }

    ghost predicate Valid()
      reads this
    {
      HasNodes(g, nodes) && SearchOk(g, nodes, color, stack, done)
    }

    /** The largest id on the part of the stack that closes a cycle at v. */
    method Chosen(v: TxnId) returns (chosen: TxnId)
      requires Valid() && v in stack && Edge(g, stack[|stack| - 1], v)
      ensures IsVictim(g, chosen)
    {
      var begin: nat := 0;
      while stack[begin] != v
        invariant begin < |stack| && v in stack[begin..]
        decreases |stack| - begin
      {
        assert stack[begin..] == [stack[begin]] + stack[begin + 1..];
        begin := begin + 1;
      }
      chosen := v;
      for k := begin to |stack|
        invariant chosen == v || chosen in stack[begin..]
        invariant v <= chosen && forall i :: begin <= i < k ==> stack[i] <= chosen
      {
        if chosen < stack[k] {
          assert stack[begin..][k - begin] == stack[k];
          chosen := stack[k];
        }
      }
      ghost var cycle := stack[begin..] + [v];
      TailIsPath(g, stack, begin);
      assert IsCycle(g, cycle);
      assert chosen in cycle;
    }

    /** Visit u, which the top of the stack waits for. */
    method Dfs(u: TxnId)
      requires Valid() && victim.None? && u in nodes && u !in color
      requires stack == [] || Edge(g, stack[|stack| - 1], u)
      modifies this
      ensures victim.None? ==> Valid() && stack == old(stack) && IsBlack(color, u) && Kept(old(color), color)
      ensures victim.Some? ==> IsVictim(g, victim.value)
      decreases White(nodes, color), 0
    {
      hide SearchOk, Finished, IsPath, IsVictim, HasNodes, White, Kept, IsBlack, Edge;
      ColorMeans(g, nodes, color, stack, done, u);
      PushOk(g, nodes, color, stack, done, u);
      WhiteShrinks(nodes, color, u);
      KeptSelf(color[u := Gray]);
      color, stack := color[u := Gray], stack + [u];
      if u in g {
        FollowAll(u);
        if victim.Some? { return; }
      }
      EdgesBlack(g, color, u);
      PopOk(g, nodes, color, old(stack), done, u);
      KeptFinished(old(color), color, u);
      stack := stack[..|stack| - 1];
      color := color[u := Black];
      done := done + [u];
    }

    /** The loop over the transactions u waits for. */
    method FollowAll(u: TxnId)
      requires Valid() && victim.None? && stack != [] && u == stack[|stack| - 1] && u in g
      modifies this
      ensures victim.None? ==> Valid() && stack == old(stack) && Kept(old(color), color) && forall v :: v in g[u] ==>
                IsBlack(color, v)
      ensures victim.Some? ==> IsVictim(g, victim.value)
      decreases White(nodes, color), 2
    {
      hide SearchOk, Finished, IsPath, IsVictim, HasNodes, White;
      var todo := g[u];
      while todo != {}
        invariant todo <= g[u] && Valid() && stack == old(stack) && victim.None? && Kept(old(color), color)
        invariant forall v :: v in g[u] && v !in todo ==> IsBlack(color, v)
        decreases todo
      {
        var v :| v in todo;
        todo := todo - {v};
        WhiteAtMost(nodes, old(color), color);
        Follow(v);
        if victim.Some? { return; }
      }
    }

    /** The loop body for one edge from the top of the stack to v. */
    method Follow(v: TxnId)
      requires Valid() && victim.None? && stack != [] && Edge(g, stack[|stack| - 1], v)
      modifies this
      ensures victim.None? ==> Valid() && stack == old(stack) && IsBlack(color, v) && Kept(old(color), color)
      ensures victim.Some? ==> IsVictim(g, victim.value)
      decreases White(nodes, color), 1
    {
      InNodes(g, nodes, stack[|stack| - 1]);
      ColorMeans(g, nodes, color, stack, done, v);
      hide SearchOk, Finished, IsPath, IsVictim, HasNodes, White;
      if v !in color {
        Dfs(v);
      } else if color[v].Gray? {
        var chosen := Chosen(v);
        victim := Some(chosen);
      }
    }
  }

  /** Colored transactions stay colored, finished ones finished. */
  ghost predicate Kept(color: map<TxnId, Color>, color': map<TxnId, Color>) {
    forall t :: t in color ==> t in color' && color'[t] == color[t]
  }

  lemma KeptSelf(color: map<TxnId, Color>)
    ensures Kept(color, color)
  {
  }

  lemma KeptFinished(color: map<TxnId, Color>, color': map<TxnId, Color>, u: TxnId)
    requires u !in color && Kept(color[u := Gray], color')
    ensures Kept(color, color'[u := Black]) && IsBlack(color'[u := Black], u)
  {
    assert forall t :: t in color ==> t in color[u := Gray] && color[u := Gray][t] == color[t];
  }

  lemma EdgesBlack(g: Graph, color: map<TxnId, Color>, u: TxnId)
    requires u in g ==> forall v :: v in g[u] ==> IsBlack(color, v)
    ensures forall v :: Edge(g, u, v) ==> IsBlack(color, v)
  {
  }

  /** How many transactions the search has not met. */
  ghost function White(nodes: set<TxnId>, color: map<TxnId, Color>): nat { |nodes - color.Keys| }

  lemma {:induction false} WhiteShrinks(nodes: set<TxnId>, color: map<TxnId, Color>, u: TxnId)
    requires u in nodes && u !in color
    ensures White(nodes, color[u := Gray]) < White(nodes, color)
  {
    assert nodes - color[u := Gray].Keys == (nodes - color.Keys) - {u};
  }

  lemma {:induction false} WhiteAtMost(nodes: set<TxnId>, color: map<TxnId, Color>, color': map<TxnId, Color>)
    requires Kept(color, color')
    ensures White(nodes, color') <= White(nodes, color)
  {
    SubsetSize(nodes - color'.Keys, nodes - color.Keys);
  }

  lemma {:induction false} SubsetSize(a: set<TxnId>, b: set<TxnId>)
    requires a <= b
    ensures |a| <= |b|
  {
    if a != {} {
      var x :| x in a;
      SubsetSize(a - {x}, b - {x});
    }
  }

  method DetectCycleVictim(g: Graph) returns (victim: Option<TxnId>)
    ensures victim.None? <==> Acyclic(g)
    ensures victim.Some? ==> IsVictim(g, victim.value)
  {
    var search := new CycleSearch(g);
    var todo := g.Keys;
    while todo != {}
      invariant fresh(search) && search.g == g && todo <= g.Keys && search.Valid() && search.stack == []
      invariant search.victim.None?
      invariant forall t :: t in g && t !in todo ==> IsBlack(search.color, t)
    {
      var t :| t in todo;
      todo := todo - {t};
      if t !in search.color {
        search.Dfs(t);
        if search.victim.Some? { return search.victim; }
      }
    }
    FinishedIsAcyclic(g, search.done);
    return None;
  }

  /** ---------- Resolving deadlocks ---------- */

  ghost function Waiters(queues: Queues): set<TxnId> {
    set res, r | res in queues && r in queues[res].requests && !r.granted :: r.txn
  }

  lemma {:induction false} VictimWaits(queues: Queues, g: Graph, v: TxnId)
    requires IsWaitsForGraph(queues, g) && IsVictim(g, v)
    ensures v in Waiters(queues)
  {
    hide QueueEdge, WaitsFor;
    var p :| IsCycle(g, p) && v in p && forall i :: 0 <= i < |p| ==> p[i] <= v;
    var i :| 0 <= i < |p| && p[i] == v;
    assert Edge(g, p[0], p[1]);
    if i < |p| - 1 { assert Edge(g, p[i], p[i + 1]); }
    assert IsWaiter(queues, v);
    var res :| res in queues && WaiterIn(queues[res], v);
    var k :| WaitsIn(queues[res], v, k);
    assert queues[res].requests[k] in queues[res].requests;
  }

  /** Taking v's ungranted request away removes exactly one waiter. */
  lemma {:induction false} OneWaiterLess(queues: Queues, v: TxnId)
    ensures Waiters(Removed(queues, v, false)) == Waiters(queues) - {v}
  {
    hide Without;
    forall res | res in queues
      ensures forall r :: r in Removed(queues, v, false)[res].requests <==>
                r in queues[res].requests && !Leaves(r, v, false)
    {
      WithoutMembers(queues[res].requests, v, false);
    }
    hide Removed;
    WaitersTrimmed(queues, Removed(queues, v, false), v);
  }

  lemma {:induction false} WaitersTrimmed(queues: Queues, queues': Queues, v: TxnId)
    requires queues'.Keys == queues.Keys
    requires forall res :: res in queues ==>
               forall r :: r in queues'[res].requests <==> r in queues[res].requests && !Leaves(r, v, false)
    ensures Waiters(queues') == Waiters(queues) - {v}
  {
    forall t | t in Waiters(queues) - {v} ensures t in Waiters(queues') {
      var res, r :| res in queues && r in queues[res].requests && !r.granted && r.txn == t;
      assert r in queues'[res].requests;
    }
  }

  /** ---------- Victims only become fewer ---------- */

  /** Where request i of the remaining ones was before. */
  ghost function PlaceBefore(rs: seq<Request>, t: TxnId, i: nat): (k: nat)
    requires i < |Without(rs, t, false)|
    ensures k < |rs| && rs[k] == Without(rs, t, false)[i]
  {
    if Leaves(rs[0], t, false) then 1 + PlaceBefore(rs[1..], t, i)
    else if i == 0 then 0
    else 1 + PlaceBefore(rs[1..], t, i - 1)
  }

  lemma {:induction false} OrderKept(rs: seq<Request>, t: TxnId, i: nat, j: nat)
    requires i < j < |Without(rs, t, false)|
    ensures PlaceBefore(rs, t, i) < PlaceBefore(rs, t, j)
  {
    if Leaves(rs[0], t, false) {
      OrderKept(rs[1..], t, i, j);
    } else if i > 0 {
      OrderKept(rs[1..], t, i - 1, j - 1);
    }
  }

  lemma {:induction false} EdgeWasThere(kind: Kind, q: Queue, v: TxnId, t: TxnId, u: TxnId)
    requires QueueEdge(kind, Remove(q, v, false), t, u)
    ensures QueueEdge(kind, q, t, u)
  {
    var rs, q' := q.requests, Remove(q, v, false);
    var i :| WaitsIn(q', t, i) && BlockedBy(kind, q', i, u);
    var j :| 0 <= j < |q'.requests| && Blocks(kind, q', i, j) && q'.requests[j].txn == u;
    if i < j { OrderKept(rs, v, i, j); } else if j < i { OrderKept(rs, v, j, i); }
    var i', j' := PlaceBefore(rs, v, i), PlaceBefore(rs, v, j);
    assert WaitsIn(q, t, i') && Blocks(kind, q, i', j') && BlockedBy(kind, q, i', u);
  }

  lemma {:induction false} CycleWasThere(queues: Queues, g: Graph, g': Graph, v: TxnId, p: seq<TxnId>)
    requires IsWaitsForGraph(queues, g) && IsWaitsForGraph(Removed(queues, v, false), g') && IsCycle(g', p)
    ensures IsCycle(g, p)
  {
    hide QueueEdge, Remove;
    forall i | 0 <= i < |p| - 1 ensures Edge(g, p[i], p[i + 1]) {
      assert Edge(g', p[i], p[i + 1]);
      assert WaitsFor(Removed(queues, v, false), p[i], p[i + 1]);
      var res :| res in queues && QueueEdge(KindOf(res), Remove(queues[res], v, false), p[i], p[i + 1]);
      EdgeWasThere(KindOf(res), queues[res], v, p[i], p[i + 1]);
    }
  }

  lemma {:induction false} VictimWasOne(queues: Queues, g: Graph, g': Graph, v: TxnId, w: TxnId)
    requires IsWaitsForGraph(queues, g) && IsWaitsForGraph(Removed(queues, v, false), g') && IsVictim(g', w)
    ensures IsVictim(g, w) && w != v
  {
    var p :| IsCycle(g', p) && w in p && forall i :: 0 <= i < |p| ==> p[i] <= w;
    CycleWasThere(queues, g, g', v, p);
    VictimWaits(Removed(queues, v, false), g', w);
    OneWaiterLess(queues, v);
  }

  /** The victim can still be aborted. */
  predicate Abortable(txns: Transactions, v: TxnId) {
    v in txns && txns[v].registered && (txns[v].state.Active? || txns[v].state.Waiting?)
  }

  /** AbortVictimLocked. A victim that is unknown, ended or already aborting is left
      alone with its requests. */
  method AbortVictim(lm: LockManager, v: TxnId)
    requires lm.Valid()
    modifies lm
    ensures lm.Valid() && XKept(old(lm.queues), lm.queues) && OthersKept(old(lm.queues), lm.queues, v)
    ensures Abortable(old(lm.txns), v) ==>
              && lm.txns == old(lm.txns)[v := old(lm.txns)[v].(state := Aborting)]
              && lm.queues == Removed(old(lm.queues), v, false) && Waiters(lm.queues) == Waiters(old(lm.queues)) - {v}
    ensures !Abortable(old(lm.txns), v) ==> lm.txns == old(lm.txns) && lm.queues == old(lm.queues)
  {
    hide Ok, OthersKept, XKept, Waiters;
    NothingChanged(lm.queues, v);
    if v !in lm.txns || !lm.txns[v].registered { return; }
    var state := lm.txns[v].state;
    if state.Committed? || state.Aborted? || state.Aborting? { return; }
    OneWaiterLess(lm.queues, v);
    var marked := lm.TryMarkAborting(v);
    lm.RemoveUngranted(v);
  }

  /** No transaction the search may choose was marked aborting while it waited. */
  ghost predicate VictimsAbortable(queues: Queues, txns: Transactions) {
    forall g, v :: IsWaitsForGraph(queues, g) && IsVictim(g, v) ==> Abortable(txns, v)
  }

  lemma {:induction false} VictimsStayAbortable(queues: Queues, txns: Transactions, g: Graph, v: TxnId)
    requires VictimsAbortable(queues, txns) && IsWaitsForGraph(queues, g) && v in txns
    ensures VictimsAbortable(Removed(queues, v, false), txns[v := txns[v].(state := Aborting)])
  {
    hide IsWaitsForGraph, IsVictim;
    forall g', w | IsWaitsForGraph(Removed(queues, v, false), g') && IsVictim(g', w)
      ensures Abortable(txns[v := txns[v].(state := Aborting)], w)
    {
      VictimWasOne(queues, g, g', v, w);
    }
  }

  /** Transactions outside `victims` are where they were. */
  ghost predicate OnlyVictims(txns: Transactions, txns': Transactions, victims: set<TxnId>) {
    txns'.Keys == txns.Keys && forall t :: t in txns ==>
      txns'[t] == if t in victims then txns[t].(state := Aborting) else txns[t]
  }

  /** Requests of other transactions stay. */
  ghost predicate RestStays(queues: Queues, queues': Queues, victims: set<TxnId>) {
    forall res, r: Request :: r.txn !in victims ==>
        (r in QueueOf(queues, res).requests <==> r in QueueOf(queues', res).requests)
  }

  lemma {:induction false} RestStaysStep(a: Queues, b: Queues, c: Queues, victims: set<TxnId>, v: TxnId)
    requires RestStays(a, b, victims) && OthersKept(b, c, v)
    ensures RestStays(a, c, victims + {v})
  {
  }

  lemma {:induction false} XKeptStep(a: Queues, b: Queues, c: Queues)
    requires XKept(a, b) && XKept(b, c)
    ensures XKept(a, c)
  {
  }

  /** v is the largest id on a cycle of the waits-for graph. */
  ghost predicate OnCycle(queues: Queues, v: TxnId) {
    exists g :: IsWaitsForGraph(queues, g) && IsVictim(g, v)
  }

  /** The lock manager's state between two rounds of the loop. */
  datatype PassState = PassState(queues: Queues, txns: Transactions)

  /** What AbortVictim makes of it. */
  ghost function AfterAbort(s: PassState, v: TxnId): PassState {
    if Abortable(s.txns, v) then PassState(Removed(s.queues, v, false), s.txns[v := s.txns[v].(state := Aborting)])
        else s
  }

  ghost predicate MayChoose(s: PassState, v: TxnId) {
    OnCycle(s.queues, v)
  }

  ghost predicate Round(s: PassState, s': PassState) {
    exists v :: MayChoose(s, v) && s' == AfterAbort(s, v)
  }

  ghost predicate IsRun(run: seq<PassState>) {
    |run| >= 1 && forall i :: 0 <= i < |run| - 1 ==> Round(run[i], run[i + 1])
  }

  lemma {:induction false} RunGrows(run: seq<PassState>, s: PassState, v: TxnId)
    requires IsRun(run) && OnCycle(run[|run| - 1].queues, v) && s == AfterAbort(run[|run| - 1], v)
    ensures IsRun(run + [s])
  {
    hide Round, OnCycle;
    var run' := run + [s];
    assert MayChoose(run[|run| - 1], v);
    assert Round(run[|run| - 1], s) by { OneRound(run[|run| - 1], v); }
    forall i | 0 <= i < |run'| - 1 ensures Round(run'[i], run'[i + 1]) {
      if i < |run| - 1 { assert Round(run[i], run[i + 1]); }
    }
  }

  lemma OneRound(s: PassState, v: TxnId)
    requires MayChoose(s, v)
    ensures Round(s, AfterAbort(s, v))
  {
  }

  /** Whoever is on a cycle after an abort was on one before. */
  lemma {:induction false} OnCycleBefore(queues: Queues, v: TxnId, g: Graph, w: TxnId)
    requires IsWaitsForGraph(queues, g) && OnCycle(Removed(queues, v, false), w)
    ensures OnCycle(queues, w)
  {
    hide IsWaitsForGraph, IsVictim;
    var g' :| IsWaitsForGraph(Removed(queues, v, false), g') && IsVictim(g', w);
    VictimWasOne(queues, g, g', v, w);
  }

  /** The worker's loop: detect, abort, rebuild. It ends, with no cycle left, after rounds
      that each aborted the largest id of a cycle; without a cycle it changes nothing.
      `PassEndsExactly` says why it needs victims that can be aborted. */
  method ResolveDeadlocks(lm: LockManager) returns (victims: set<TxnId>, g: Graph, ghost run: seq<PassState>)
    requires lm.Valid() && VictimsAbortable(lm.queues, lm.txns)
    modifies lm
    ensures lm.Valid() && IsWaitsForGraph(lm.queues, g) && Acyclic(g)
    ensures victims <= Waiters(old(lm.queues)) && Waiters(lm.queues) == Waiters(old(lm.queues)) - victims
    ensures OnlyVictims(old(lm.txns), lm.txns, victims) && RestStays(old(lm.queues), lm.queues, victims)
    ensures XKept(old(lm.queues), lm.queues)
    ensures IsRun(run) && |run| == |victims| + 1 && run[0] == PassState(old(lm.queues), old(lm.txns))
    ensures run[|run| - 1] == PassState(lm.queues, lm.txns)
    ensures forall v :: v in victims ==> OnCycle(old(lm.queues), v)
    ensures victims == {} ==> lm.queues == old(lm.queues) && lm.txns == old(lm.txns)
    ensures victims == {} <==> forall v :: !OnCycle(old(lm.queues), v)
  {
    hide OnCycle, IsRun;
    hide Ok, Waiters, OthersKept, XKept, RestStays, IsVictim, IsWaitsForGraph, Acyclic, OnlyVictims, VictimsAbortable,
        Abortable, Removed;
    victims := {};
    assert OnlyVictims(lm.txns, lm.txns, {}) by { NobodyYet(lm.txns); }
    g := BuildWaitsForGraph(lm.queues);
    var victim := DetectCycleVictim(g);
    assert RestStays(lm.queues, lm.queues, {}) by { NoVictims(lm.queues); }
    NothingChanged(lm.queues, 0);
    run := [PassState(lm.queues, lm.txns)];
    assert IsRun(run) by { FirstState(run[0]); }
    FirstVictim(lm.queues, g, victim);
    while victim.Some?
      invariant lm.Valid() && IsWaitsForGraph(lm.queues, g) && (victim.None? <==> Acyclic(g))
      invariant VictimsAbortable(lm.queues, lm.txns)
      invariant victim.Some? ==> IsVictim(g, victim.value)
      invariant victims <= Waiters(old(lm.queues)) && Waiters(lm.queues) == Waiters(old(lm.queues)) - victims
      invariant OnlyVictims(old(lm.txns), lm.txns, victims) && RestStays(old(lm.queues), lm.queues, victims)
      invariant XKept(old(lm.queues), lm.queues)
      invariant IsRun(run) && |run| == |victims| + 1 && run[0] == PassState(old(lm.queues), old(lm.txns))
      invariant run[|run| - 1] == PassState(lm.queues, lm.txns)
      invariant forall v :: v in victims || OnCycle(lm.queues, v) ==> OnCycle(old(lm.queues), v)
      invariant victims == {} ==> lm.queues == old(lm.queues) && lm.txns == old(lm.txns)
      invariant victims == {} && victim.None? ==> forall v :: !OnCycle(old(lm.queues), v)
      decreases |Waiters(lm.queues)|
    {
      var v := victim.value;
      VictimWaits(lm.queues, g, v);
      ghost var was, wasTxns := lm.queues, lm.txns;
      ThisIsAbortable(lm.queues, lm.txns, g, v);
      VictimsStayAbortable(lm.queues, lm.txns, g, v);
      assert OnCycle(lm.queues, v) by { ThisIsOnCycle(lm.queues, g, v); }
      AbortVictim(lm, v);
      assert AfterAbort(PassState(was, wasTxns), v) == PassState(lm.queues, lm.txns);
      RunGrows(run, PassState(lm.queues, lm.txns), v);
      run := run + [PassState(lm.queues, lm.txns)];
      forall w | OnCycle(lm.queues, w) ensures OnCycle(old(lm.queues), w) { OnCycleBefore(was, v, g, w); }
      OnlyVictimsStep(old(lm.txns), wasTxns, lm.txns, victims, v);
      XKeptStep(old(lm.queues), was, lm.queues);
      RestStaysStep(old(lm.queues), was, lm.queues, victims, v);
      victims := victims + {v};
      g := BuildWaitsForGraph(lm.queues);
      victim := DetectCycleVictim(g);
    }
  }

  lemma {:induction false} ThisIsAbortable(queues: Queues, txns: Transactions, g: Graph, v: TxnId)
    requires VictimsAbortable(queues, txns) && IsWaitsForGraph(queues, g) && IsVictim(g, v)
    ensures Abortable(txns, v) && v in txns
  {
  }

  lemma {:induction false} OnlyVictimsStep(a: Transactions, b: Transactions, c: Transactions, victims: set<TxnId>,
                                           v: TxnId)
    requires OnlyVictims(a, b, victims) && Abortable(b, v) && c == b[v := b[v].(state := Aborting)]
    ensures OnlyVictims(a, c, victims + {v})
  {
  }

  lemma ThisIsOnCycle(queues: Queues, g: Graph, v: TxnId)
    requires IsWaitsForGraph(queues, g) && IsVictim(g, v)
    ensures OnCycle(queues, v)
  {
  }

  /** The graph of the queues is one graph, so no victim means no cycle. */
  lemma {:induction false} FirstVictim(queues: Queues, g: Graph, victim: Option<TxnId>)
    requires IsWaitsForGraph(queues, g) && (victim.None? <==> Acyclic(g))
    ensures victim.None? ==> forall v :: !OnCycle(queues, v)
  {
    if victim.None? {
      forall v ensures !OnCycle(queues, v) {
        if OnCycle(queues, v) {
          var g' :| IsWaitsForGraph(queues, g') && IsVictim(g', v);
          var p :| IsCycle(g', p);
          assert IsCycle(g, p);
        }
      }
    }
  }

  lemma FirstState(s: PassState)
    ensures IsRun([s])
  {
  }

  lemma NobodyYet(txns: Transactions)
    ensures OnlyVictims(txns, txns, {})
  {
  }

  lemma NoVictims(queues: Queues)
    ensures RestStays(queues, queues, {})
  {
  }

  /** ---------- When the loop ends ---------- */

  ghost predicate RunsWithin(s: PassState, bound: nat) {
    forall run :: IsRun(run) && run[0] == s ==> |run| <= bound
  }

  /** Whatever victims are chosen, the loop ends. */
  ghost predicate EndsAlways(s: PassState) { exists bound: nat :: RunsWithin(s, bound) }

  lemma {:induction false} RoundShrinks(s: PassState, s': PassState)
    requires VictimsAbortable(s.queues, s.txns) && Round(s, s')
    ensures VictimsAbortable(s'.queues, s'.txns) && |Waiters(s'.queues)| < |Waiters(s.queues)|
  {
    hide IsWaitsForGraph, IsVictim, VictimsAbortable, Waiters;
    var v :| MayChoose(s, v) && s' == AfterAbort(s, v);
    var g :| IsWaitsForGraph(s.queues, g) && IsVictim(g, v);
    ThisIsAbortable(s.queues, s.txns, g, v);
    VictimsStayAbortable(s.queues, s.txns, g, v);
    VictimWaits(s.queues, g, v);
    OneWaiterLess(s.queues, v);
  }

  lemma {:induction false} RunIsShort(run: seq<PassState>)
    requires IsRun(run) && VictimsAbortable(run[0].queues, run[0].txns)
    ensures |run| <= |Waiters(run[0].queues)| + 1
    decreases |run|
  {
    hide VictimsAbortable, Waiters, Round;
    if |run| > 1 {
      RoundShrinks(run[0], run[1]);
      forall i | 0 <= i < |run[1..]| - 1 ensures Round(run[1..][i], run[1..][i + 1]) {
        assert Round(run[i + 1], run[i + 1 + 1]);
      }
      RunIsShort(run[1..]);
    }
  }

  /** A victim that cannot be aborted is found again and again. */
  lemma {:induction false} StandsStill(s: PassState, v: TxnId, bound: nat)
    requires MayChoose(s, v) && !Abortable(s.txns, v)
    ensures !RunsWithin(s, bound)
  {
    hide MayChoose;
    var run := seq(bound + 1, i => s);
    assert Round(s, s);
    assert IsRun(run) && run[0] == s && |run| > bound;
  }

  /** The loop ends, whatever victims are chosen, if and only if every transaction it may
      choose now can be aborted. */
  lemma {:induction false} PassEndsExactly(s: PassState)
    ensures EndsAlways(s) <==> VictimsAbortable(s.queues, s.txns)
  {
    hide IsWaitsForGraph, IsVictim, Abortable, Waiters, Round;
    if VictimsAbortable(s.queues, s.txns) {
      var bound := |Waiters(s.queues)| + 1;
      forall run | IsRun(run) && run[0] == s ensures |run| <= bound { RunIsShort(run); }
      assert RunsWithin(s, bound);
    } else {
      var g, v :| IsWaitsForGraph(s.queues, g) && IsVictim(g, v) && !Abortable(s.txns, v);
      assert MayChoose(s, v);
      forall bound: nat ensures !RunsWithin(s, bound) { StandsStill(s, v, bound); }
    }
  }


  function XRequest(t: TxnId, granted: bool): Request { Request(t, X, WHOLE, granted, None) }

  function StalledAt(holder: TxnId, waiter: TxnId): Queue {
    Queue([XRequest(holder, true), XRequest(waiter, false)], None)
  }

  /** 1 and 2 each hold a table the other one waits for, and 2 was marked aborting by
      its client while it waited. */
  const STALLED_QUEUES: Queues := map[
    Table(0) := StalledAt(1, 2),
    Table(1) := StalledAt(2, 1)]

  const STALLED_TXNS: Transactions := map[
    1 := Txn(Waiting, map[Table(0) := X], true),
    2 := Txn(Aborting, map[Table(1) := X], true)]

  /** A state within the invariant whose only victim cannot be aborted: AbortVictim then
      changes nothing, so the next round finds the same victim. */
  lemma {:induction false} StalledState(g: Graph)
    requires IsWaitsForGraph(STALLED_QUEUES, g)
    ensures Ok(STALLED_QUEUES, STALLED_TXNS)
    ensures IsVictim(g, 2) && !Abortable(STALLED_TXNS, 2) && forall v :: IsVictim(g, v) ==> v == 2
    ensures !EndsAlways(PassState(STALLED_QUEUES, STALLED_TXNS))
  {
    hide IsWaitsForGraph, Ok;
    StalledOk();
    StalledCycle(g);
    assert IsCycle(g, [1, 2, 1]);
    assert 2 in [1, 2, 1];
    assert IsVictim(g, 2);
    forall v | IsVictim(g, v) ensures v == 2 { StalledVictim(g, v); }
    PassEndsExactly(PassState(STALLED_QUEUES, STALLED_TXNS));
  }

  lemma {:induction false} StalledOk()
    ensures Ok(STALLED_QUEUES, STALLED_TXNS)
  {
    StalledOneWait();
    hide OneWait;
    StalledQueue(0, 1, 2);
    StalledQueue(1, 2, 1);
    hide QueueOk, RequestsOk;
    StalledMaps();
    hide MapTrue;
    assert STALLED_QUEUES.Keys == {Table(0), Table(1)};
  }

  lemma {:induction false} StalledOneWait()
    ensures OneWait(STALLED_QUEUES)
  {
    hide QueueOf;
    var queues := STALLED_QUEUES;
    forall res, res2, r: Request, r2: Request |
      r in QueueOf(queues, res).requests && r2 in QueueOf(queues, res2).requests && r.txn == r2.txn && !r.granted &&
          !r2.granted
      ensures res == res2
    {
      StalledWait(res, r);
      StalledWait(res2, r2);
    }
  }

  lemma {:induction false} StalledWait(res: Resource, r: Request)
    requires r in QueueOf(STALLED_QUEUES, res).requests && !r.granted
    ensures res == if r.txn == 2 then Table(0) else Table(1)
  {
  }

  lemma {:induction false} StalledQueue(relation: nat, holder: TxnId, waiter: TxnId)
    requires (relation == 0 && holder == 1 && waiter == 2) || (relation == 1 && holder == 2 && waiter == 1)
    ensures QueueOk(TableLock, StalledAt(holder, waiter))
    ensures RequestsOk(STALLED_TXNS, Table(relation), StalledAt(holder, waiter))
  {
  }

  lemma {:induction false} StalledMaps()
    ensures forall t :: t in STALLED_TXNS ==> MapTrue(STALLED_QUEUES, t, STALLED_TXNS[t])
  {
  }

  lemma {:induction false} StalledCycle(g: Graph)
    requires IsWaitsForGraph(STALLED_QUEUES, g)
    ensures Edge(g, 1, 2) && Edge(g, 2, 1)
  {
    StalledBlocked(1, 2);
    StalledBlocked(2, 1);
    assert STALLED_QUEUES[Table(0)] == StalledAt(1, 2) && STALLED_QUEUES[Table(1)] == StalledAt(2, 1);
    hide QueueEdge;
    assert Table(0) in STALLED_QUEUES && Table(1) in STALLED_QUEUES;
    assert KindOf(Table(0)) == TableLock && KindOf(Table(1)) == TableLock;
    assert WaitsFor(STALLED_QUEUES, 2, 1) && WaitsFor(STALLED_QUEUES, 1, 2);
  }

  lemma {:induction false} StalledBlocked(holder: TxnId, waiter: TxnId)
    requires holder != waiter
    ensures QueueEdge(TableLock, StalledAt(holder, waiter), waiter, holder)
  {
    var q := StalledAt(holder, waiter);
    assert WaitsIn(q, waiter, 1) && Blocks(TableLock, q, 1, 0) && BlockedBy(TableLock, q, 1, holder);
  }

  lemma {:induction false} StalledEdge(g: Graph, t: TxnId, u: TxnId)
    requires IsWaitsForGraph(STALLED_QUEUES, g) && Edge(g, t, u)
    ensures (t == 1 && u == 2) || (t == 2 && u == 1)
  {
  }

  lemma {:induction false} StalledVictim(g: Graph, v: TxnId)
    requires IsWaitsForGraph(STALLED_QUEUES, g) && IsVictim(g, v)
    ensures v == 2
  {
    hide IsWaitsForGraph;
    var p :| IsCycle(g, p) && v in p && forall i :: 0 <= i < |p| ==> p[i] <= v;
    var i :| 0 <= i < |p| && p[i] == v;
    assert Edge(g, p[0], p[1]);
    StalledEdge(g, p[0], p[1]);
    if i < |p| - 1 {
      assert Edge(g, p[i], p[i + 1]);
      StalledEdge(g, p[i], p[i + 1]);
    }
  }
}
