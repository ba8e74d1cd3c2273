/** Access paths and join paths of the optimizer: the split of a predicate list over an index,
    what the chosen path produces, and the orders it claims
    (optimizer/plan_enumerator.cpp, optimizer/physical_path.h). */
module PlanPaths {
  import opened Options

  datatype Col = Col(relation: nat, column: nat)

  /** A row of one relation, or of several joined ones. */
  type Row = map<Col, int>

  datatype Cmp = EQ | NEQ | LT | LTE | GT | GTE

  datatype Pred = Pred(col: Col, cmp: Cmp, constant: int)

  function Val(r: Row, c: Col): int { if c in r then r[c] else 0 }

  predicate Compares(x: int, cmp: Cmp, k: int) {
    match cmp
    case EQ => x == k
    case NEQ => x != k
    case LT => x < k
    case LTE => x <= k
    case GT => x > k
    case GTE => x >= k
  }

  predicate Passes(r: Row, p: Pred) { Compares(Val(r, p.col), p.cmp, p.constant) }

  predicate PassesAll(r: Row, ps: seq<Pred>) { forall p :: p in ps ==> Passes(r, p) }

  /** ---------- The split of the predicates ---------- */

  datatype Spec = Spec(equalities: seq<Pred>, lower: Option<Pred>, upper: Option<Pred>, residual: seq<Pred>)

  function OptionBag(p: Option<Pred>): multiset<Pred> { if p.Some? then multiset{p.value} else multiset{} }

  ghost function SpecBag(s: Spec): multiset<Pred> {
    multiset(s.equalities) + OptionBag(s.lower) + OptionBag(s.upper) + multiset(s.residual)
  }

  /** Equalities on the first key columns, bounds on the next one. */
  ghost predicate Shaped(keys: seq<Col>, s: Spec) {
    && |s.equalities| <= |keys|
    && (forall i :: 0 <= i < |s.equalities| ==> s.equalities[i].cmp.EQ? && s.equalities[i].col == keys[i])
    && (s.lower.Some? ==>
          && |s.equalities| < |keys| && s.lower.value.col == keys[|s.equalities|]
          && (s.lower.value.cmp.GT? || s.lower.value.cmp.GTE?))
    && (s.upper.Some? ==>
          && |s.equalities| < |keys| && s.upper.value.col == keys[|s.equalities|]
          && (s.upper.value.cmp.LT? || s.upper.value.cmp.LTE?))
  }

  /** The predicates with index below n that are not used. */
  function Unused(ps: seq<Pred>, used: set<nat>, n: nat): seq<Pred>
    requires n <= |ps|
  {
    if n == 0 then [] else if n - 1 in used then Unused(ps, used, n - 1) else Unused(ps, used, n - 1) + [ps[n - 1]]
  }

  /** The count of each predicate tells bags apart. */
  ghost function Count(s: seq<Pred>, p: Pred): nat { multiset(s)[p] }

  lemma {:induction false} UseOneCount(ps: seq<Pred>, used: set<nat>, i: nat, n: nat, p: Pred)
    requires i < |ps| && i !in used && n <= |ps|
    ensures Count(Unused(ps, used, n), p) == Count(Unused(ps, used + {i}, n), p) + if i < n && p == ps[i] then 1 else 0
  {
    hide Count;
    if n > 0 {
      UseOneCount(ps, used, i, n - 1, p);
      CountPush(Unused(ps, used, n - 1), ps[n - 1], p);
      CountPush(Unused(ps, used + {i}, n - 1), ps[n - 1], p);
    }
  }

  lemma CountPush(a: seq<Pred>, q: Pred, p: Pred)
    ensures Count(a + [q], p) == Count(a, p) + if p == q then 1 else 0
  {
  }

  lemma {:induction false} UseOne(ps: seq<Pred>, used: set<nat>, i: nat)
    requires i < |ps| && i !in used
    ensures multiset(Unused(ps, used, |ps|)) == multiset(Unused(ps, used + {i}, |ps|)) + multiset{ps[i]}
  {
    hide Unused;
    var a, b := multiset(Unused(ps, used, |ps|)), multiset(Unused(ps, used + {i}, |ps|)) + multiset{ps[i]};
    forall p ensures a[p] == b[p] { UseOneCount(ps, used, i, |ps|, p); }
  }

  function Chosen(ps: seq<Pred>, i: Option<nat>): Option<Pred>
    requires i.Some? ==> i.value < |ps|
  {
    if i.Some? then Some(ps[i.value]) else None
  }

  function With(used: set<nat>, i: Option<nat>): set<nat> { if i.Some? then used + {i.value} else used }

  lemma {:induction false} UseChosen(ps: seq<Pred>, used: set<nat>, i: Option<nat>)
    requires i.Some? ==> i.value < |ps| && i.value !in used
    ensures multiset(Unused(ps, used, |ps|)) == OptionBag(Chosen(ps, i)) + multiset(Unused(ps, With(used, i), |ps|))
  {
    hide Unused;
    if i.Some? { UseOne(ps, used, i.value); }
  }

  lemma {:induction false} UseNone(ps: seq<Pred>, n: nat)
    requires n <= |ps|
    ensures Unused(ps, {}, n) == ps[..n]
  {
    if n > 0 {
      UseNone(ps, n - 1);
      assert ps[..n] == ps[..n - 1] + [ps[n - 1]];
    }
  }

  predicate IsLowerBound(cmp: Cmp) { cmp.GT? || cmp.GTE? }

  predicate IsUpperBound(cmp: Cmp) { cmp.LT? || cmp.LTE? }

  datatype Use = Equality | LowerBound | UpperBound

  /** Predicate i is still free and can serve key column c in this way. */
  predicate Serves(ps: seq<Pred>, used: set<nat>, c: Col, use: Use, i: nat) {
    && i < |ps| && i !in used && ps[i].col == c
    && match use
       case Equality => ps[i].cmp.EQ?
       case LowerBound => IsLowerBound(ps[i].cmp)
       case UpperBound => IsUpperBound(ps[i].cmp)
  }

  /** The first of the predicates below n that serves; none means there is none. */
  ghost predicate IsFirst(ps: seq<Pred>, used: set<nat>, c: Col, use: Use, n: nat, i: Option<nat>) {
    if i.None? then forall k :: 0 <= k < n ==> !Serves(ps, used, c, use, k)
    else i.value < n && Serves(ps, used, c, use, i.value) && forall k :: 0 <= k < i.value ==>
        !Serves(ps, used, c, use, k)
  }

  /** The free predicates on one key column: the first equality, else the first bounds. */
  method PickFor(ps: seq<Pred>, used: set<nat>, c: Col)
    returns (eq: Option<nat>, lower: Option<nat>, upper: Option<nat>)
    ensures IsFirst(ps, used, c, Equality, |ps|, eq)
    ensures eq.None? ==> IsFirst(ps, used, c, LowerBound, |ps|, lower) && IsFirst(ps, used, c, UpperBound, |ps|, upper)
  {
    eq, lower, upper := None, None, None;
    for i := 0 to |ps|
      invariant eq.None? && IsFirst(ps, used, c, Equality, i, eq)
      invariant IsFirst(ps, used, c, LowerBound, i, lower) && IsFirst(ps, used, c, UpperBound, i, upper)
    {
      if i in used { continue; }
      if ps[i].col != c { continue; }
      if ps[i].cmp.EQ? { eq := Some(i); return; }
      if IsLowerBound(ps[i].cmp) && lower.None? { lower := Some(i); }
      if IsUpperBound(ps[i].cmp) && upper.None? { upper := Some(i); }
    }
  }

  /** The positions that the first equalities take. */
  ghost function Taken(at: seq<nat>): set<nat> { set i | i in at }

  /** Each key column of the prefix takes its first free equality. */
  ghost predicate TakesFirst(ps: seq<Pred>, keys: seq<Col>, at: seq<nat>) {
    && |at| <= |keys|
    && forall i :: 0 <= i < |at| ==> IsFirst(ps, Taken(at[..i]), keys[i], Equality, |ps|, Some(at[i]))
  }

  ghost predicate ListedAt(ps: seq<Pred>, at: seq<nat>, listed: seq<Pred>) {
    |listed| == |at| && forall i :: 0 <= i < |at| ==> at[i] < |ps| && listed[i] == ps[at[i]]
  }

  predicate EqualityPrefix(keys: seq<Col>, equalities: seq<Pred>) {
    |equalities| <= |keys| && forall i :: 0 <= i < |equalities| ==>
      equalities[i].cmp.EQ? && equalities[i].col == keys[i]
  }

  /** The split is maximal: the prefix stops at the first column without a free equality, that
      column takes its first free bounds, and what nobody took is residual, in its order. */
  ghost predicate IsSplit(ps: seq<Pred>, keys: seq<Col>, s: Spec, at: seq<nat>, lo: Option<nat>, hi: Option<nat>) {
    var used, e := Taken(at), |at|;
    && TakesFirst(ps, keys, at) && ListedAt(ps, at, s.equalities)
    && (e == |keys| ==> lo.None? && hi.None?)
    && (e < |keys| ==>
          && IsFirst(ps, used, keys[e], Equality, |ps|, None)
          && IsFirst(ps, used, keys[e], LowerBound, |ps|, lo) && IsFirst(ps, used, keys[e], UpperBound, |ps|, hi))
    && (lo.Some? ==> lo.value < |ps|) && s.lower == Chosen(ps, lo)
    && (hi.Some? ==> hi.value < |ps|) && s.upper == Chosen(ps, hi)
    && s.residual == Unused(ps, With(With(used, lo), hi), |ps|)
  }

  /** The split for one index: every predicate goes to exactly one place, as many as possible
      to the index. */
  method SplitPredicates(ps: seq<Pred>, keys: seq<Col>)
    returns (s: Spec, ghost at: seq<nat>, ghost lo: Option<nat>, ghost hi: Option<nat>)
    ensures Shaped(keys, s) && SpecBag(s) == multiset(ps)
    ensures IsSplit(ps, keys, s, at, lo, hi)
  {
    hide Unused, IsFirst, TakesFirst, ListedAt, EqualityPrefix, Taken;
    var used: set<nat>, equalities: seq<Pred> := {}, [];
    at, lo, hi := [], None, None;
    NothingTaken(ps, keys);
    UseNone(ps, |ps|);
    assert ps[..|ps|] == ps;
    while |equalities| < |keys|
      invariant |at| == |equalities| <= |keys| && EqualityPrefix(keys, equalities)
      invariant multiset(equalities) + multiset(Unused(ps, used, |ps|)) == multiset(ps)
      invariant used == Taken(at) && TakesFirst(ps, keys, at) && ListedAt(ps, at, equalities)
      invariant lo.None? && hi.None?
      decreases |keys| - |equalities|
    {
      var eq, lower, upper := PickFor(ps, used, keys[|equalities|]);
      FirstServes(ps, used, keys[|equalities|], Equality, eq);
      if eq.None? {
        FirstServes(ps, used, keys[|equalities|], LowerBound, lower);
        FirstServes(ps, used, keys[|equalities|], UpperBound, upper);
        s := AddBounds(ps, keys, equalities, used, lower, upper);
        lo, hi := lower, upper;
        return;
      }
      UseOne(ps, used, eq.value);
      TakeNext(ps, keys, at, eq.value);
      PrefixGrows(ps, keys, at, equalities, eq.value);
      used := used + {eq.value};
      equalities, at := equalities + [ps[eq.value]], at + [eq.value];
    }
    s := Spec(equalities, None, None, Unused(ps, used, |ps|));
    PrefixShaped(keys, s);
  }

  lemma NothingTaken(ps: seq<Pred>, keys: seq<Col>)
    ensures Taken([]) == {} && TakesFirst(ps, keys, []) && ListedAt(ps, [], []) && EqualityPrefix(keys, [])
  {
  }

  lemma {:induction false} PrefixGrows(ps: seq<Pred>, keys: seq<Col>, at: seq<nat>, equalities: seq<Pred>, i: nat)
    requires ListedAt(ps, at, equalities) && EqualityPrefix(keys, equalities) && |equalities| < |keys| && i < |ps|
    requires ps[i].cmp.EQ? && ps[i].col == keys[|equalities|]
    ensures ListedAt(ps, at + [i], equalities + [ps[i]]) && EqualityPrefix(keys, equalities + [ps[i]])
  {
  }

  lemma PrefixShaped(keys: seq<Col>, s: Spec)
    requires EqualityPrefix(keys, s.equalities) && s.lower.None? && s.upper.None?
    ensures Shaped(keys, s)
  {
  }

  lemma FirstServes(ps: seq<Pred>, used: set<nat>, c: Col, use: Use, i: Option<nat>)
    requires IsFirst(ps, used, c, use, |ps|, i)
    ensures i.Some? ==> Serves(ps, used, c, use, i.value)
  {
  }

  lemma {:induction false} TakeNext(ps: seq<Pred>, keys: seq<Col>, at: seq<nat>, i: nat)
    requires TakesFirst(ps, keys, at) && |at| < |keys|
    requires IsFirst(ps, Taken(at), keys[|at|], Equality, |ps|, Some(i))
    ensures TakesFirst(ps, keys, at + [i]) && Taken(at + [i]) == Taken(at) + {i}
  {
    hide IsFirst;
    var at' := at + [i];
    forall k | 0 <= k < |at'| ensures IsFirst(ps, Taken(at'[..k]), keys[k], Equality, |ps|, Some(at'[k])) {
      if k < |at| { assert at'[..k] == at[..k]; } else { assert at'[..k] == at; }
    }
  }

  /** The column without an equality takes the bounds; the rest is residual. */
  method AddBounds(ps: seq<Pred>, keys: seq<Col>, equalities: seq<Pred>, used: set<nat>, lower: Option<nat>,
                   upper: Option<nat>) returns (s: Spec)
    requires |equalities| < |keys| && EqualityPrefix(keys, equalities)
    requires multiset(equalities) + multiset(Unused(ps, used, |ps|)) == multiset(ps)
    requires lower.Some? ==> Serves(ps, used, keys[|equalities|], LowerBound, lower.value)
    requires upper.Some? ==> Serves(ps, used, keys[|equalities|], UpperBound, upper.value)
    ensures Shaped(keys, s) && SpecBag(s) == multiset(ps)
    ensures s == Spec(equalities, Chosen(ps, lower), Chosen(ps, upper),
                      Unused(ps, With(With(used, lower), upper), |ps|))
  {
    hide Unused, OptionBag;
    UseChosen(ps, used, lower);
    UseChosen(ps, With(used, lower), upper);
    s := Spec(equalities, Chosen(ps, lower), Chosen(ps, upper), Unused(ps, With(With(used, lower), upper), |ps|));
  }

  /** The list holds the predicates at these growing positions, none of them used. */
  ghost predicate InOrder(ps: seq<Pred>, used: set<nat>, n: nat, list: seq<Pred>, at: seq<nat>) {
    && |at| == |list| && n <= |ps|
    && (forall i :: 0 <= i < |at| ==> at[i] < n && at[i] !in used && list[i] == ps[at[i]])
    && (forall i, j :: 0 <= i < j < |at| ==> at[i] < at[j])
  }

  ghost predicate Reached(at: seq<nat>, k: nat) { exists i :: 0 <= i < |at| && at[i] == k }

  lemma {:induction false} OrderGrows(ps: seq<Pred>, used: set<nat>, n: nat, list: seq<Pred>, at: seq<nat>)
    requires InOrder(ps, used, n, list, at) && n < |ps|
    ensures InOrder(ps, used, n + 1, list, at)
    ensures n !in used ==> InOrder(ps, used, n + 1, list + [ps[n]], at + [n])
  {
  }

  lemma {:induction false} ReachGrows(at: seq<nat>, n: nat, k: nat)
    ensures Reached(at + [n], k) <==> Reached(at, k) || k == n
  {
    if Reached(at, k) {
      var i :| 0 <= i < |at| && at[i] == k;
      assert (at + [n])[i] == k;
    }
    assert (at + [n])[|at|] == n;
  }

  /** The unused predicates are exactly those, in the order they were given. */
  lemma {:induction false} UnusedInOrder(ps: seq<Pred>, used: set<nat>, n: nat) returns (at: seq<nat>)
    requires n <= |ps|
    ensures InOrder(ps, used, n, Unused(ps, used, n), at)
    ensures forall k: nat :: k < n && k !in used ==> Reached(at, k)
  {
    hide InOrder, Reached;
    if n == 0 {
      at := [];
      NoneInOrder(ps, used);
    } else {
      var before := UnusedInOrder(ps, used, n - 1);
      var list := Unused(ps, used, n - 1);
      OrderGrows(ps, used, n - 1, list, before);
      at := if n - 1 in used then before else before + [n - 1];
      forall k: nat | k < n && k !in used ensures Reached(at, k) { ReachGrows(before, n - 1, k); }
    }
  }

  lemma NoneInOrder(ps: seq<Pred>, used: set<nat>)
    ensures InOrder(ps, used, 0, [], [])
  {
  }

  /** ---------- Filters ---------- */

  /** A conjunction of predicates, the condition of an index scan, or both. */
  datatype Cond = Conj(ps: seq<Pred>) | Scan(keys: seq<Col>, spec: Spec) | Both(first: Cond, second: Cond)

  ghost predicate Sat(r: Row, c: Cond) {
    match c
    case Conj(ps) => PassesAll(r, ps)
    case Scan(keys, s) => InScan(r, keys, s)
    case Both(a, b) => Sat(r, a) && Sat(r, b)
  }

  ghost function Filter(rows: seq<Row>, c: Cond): seq<Row> {
    if rows == [] then [] else if Sat(rows[0], c) then [rows[0]] + Filter(rows[1..], c) else Filter(rows[1..], c)
  }

  lemma {:induction false} FilterCount(rows: seq<Row>, c: Cond, x: Row)
    ensures multiset(Filter(rows, c))[x] == if Sat(x, c) then multiset(rows)[x] else 0
  {
    if rows != [] {
      FilterCount(rows[1..], c, x);
      assert rows == [rows[0]] + rows[1..];
    }
  }

  /** Equivalent conditions give the same bag, whatever the order of the input. */
  lemma {:induction false} FilterBag(a: seq<Row>, b: seq<Row>, c: Cond, d: Cond)
    requires multiset(a) == multiset(b) && forall r :: Sat(r, c) == Sat(r, d)
    ensures multiset(Filter(a, c)) == multiset(Filter(b, d))
  {
    hide Sat;
    forall x: Row ensures multiset(Filter(a, c))[x] == multiset(Filter(b, d))[x] {
      FilterCount(a, c, x);
      FilterCount(b, d, x);
    }
  }

  lemma {:induction false} FilterTwice(rows: seq<Row>, c: Cond, d: Cond)
    ensures Filter(Filter(rows, c), d) == Filter(rows, Both(c, d))
  {
    if rows != [] {
      FilterTwice(rows[1..], c, d);
      if Sat(rows[0], c) {
        assert ([rows[0]] + Filter(rows[1..], c))[1..] == Filter(rows[1..], c);
      }
    }
  }

  /** ---------- What an index path produces ---------- */

  /** The rows the index scan lets through. */
  predicate InScan(r: Row, keys: seq<Col>, s: Spec) {
    && |s.equalities| <= |keys| && (s.lower.Some? || s.upper.Some? ==> |s.equalities| < |keys|)
    && (forall i :: 0 <= i < |s.equalities| ==> Val(r, keys[i]) == s.equalities[i].constant)
    && (s.lower.Some? ==>
          var x := Val(r, keys[|s.equalities|]);
          if s.lower.value.cmp.GTE? then x >= s.lower.value.constant else x > s.lower.value.constant)
    && (s.upper.Some? ==>
          var x := Val(r, keys[|s.equalities|]);
          if s.upper.value.cmp.LTE? then x <= s.upper.value.constant else x < s.upper.value.constant)
  }

  ghost predicate IndexPart(p: Pred, s: Spec) { p in s.equalities || s.lower == Some(p) || s.upper == Some(p) }

  /** The scan applies exactly the predicates the split gave to the index. */
  lemma {:induction false} InScanMeans(r: Row, keys: seq<Col>, s: Spec)
    requires Shaped(keys, s)
    ensures InScan(r, keys, s) <==> forall p :: IndexPart(p, s) ==> Passes(r, p)
  {
    if InScan(r, keys, s) {
      forall p | IndexPart(p, s) ensures Passes(r, p) {
        if p in s.equalities {
          var i :| 0 <= i < |s.equalities| && s.equalities[i] == p;
          assert Val(r, keys[i]) == s.equalities[i].constant;
        }
      }
    }
    if forall p :: IndexPart(p, s) ==> Passes(r, p) {
      forall i | 0 <= i < |s.equalities| ensures Val(r, keys[i]) == s.equalities[i].constant {
        assert IndexPart(s.equalities[i], s);
      }
      if s.lower.Some? { assert IndexPart(s.lower.value, s); }
      if s.upper.Some? { assert IndexPart(s.upper.value, s); }
    }
  }

  /** Scan condition and residual filter together are all the predicates. */
  lemma {:induction false} SplitMeans(r: Row, ps: seq<Pred>, keys: seq<Col>, s: Spec)
    requires Shaped(keys, s) && SpecBag(s) == multiset(ps)
    ensures InScan(r, keys, s) && PassesAll(r, s.residual) <==> PassesAll(r, ps)
  {
    InScanMeans(r, keys, s);
    forall p ensures p in ps <==> IndexPart(p, s) || p in s.residual {
      assert p in ps <==> p in multiset(ps);
    }
  }

  /** Whatever index was chosen, over all rows in any order, the path yields the bag of rows
      that pass all the predicates. */
  lemma {:induction false} AccessPathKeepsRows(rows: seq<Row>, indexed: seq<Row>, ps: seq<Pred>, keys: seq<Col>,
                                               s: Spec)
    requires multiset(indexed) == multiset(rows) && Shaped(keys, s) && SpecBag(s) == multiset(ps)
    ensures multiset(Filter(Filter(indexed, Scan(keys, s)), Conj(s.residual))) == multiset(Filter(rows, Conj(ps)))
  {
    hide SpecBag, Shaped, Filter, InScan;
    FilterTwice(indexed, Scan(keys, s), Conj(s.residual));
    forall r ensures Sat(r, Both(Scan(keys, s), Conj(s.residual))) == Sat(r, Conj(ps)) { SplitMeans(r, ps, keys, s); }
    FilterBag(indexed, rows, Both(Scan(keys, s), Conj(s.residual)), Conj(ps));
  }
}
