/** Orders that paths claim, and joins over paths: every claimed order is kept, and every path
    yields the rows of plain scans, filters and nested loops as long as no index nested-loop
    join lets a row through that fails a predicate left to the index
    (optimizer/physical_path.h, optimizer/plan_enumerator.cpp). */
module PlanOrder {
  import opened Options
  import opened PlanPaths

  datatype OrderKey = OrderKey(col: Col, ascending: bool)

  /** ---------- Orders ---------- */

  /** a comes before b under the keys, or they agree on all of them. */
  ghost predicate LexLe(a: Row, b: Row, keys: seq<OrderKey>) {
    keys == [] ||
    (var x, y := Val(a, keys[0].col), Val(b, keys[0].col);
     if x == y then LexLe(a, b, keys[1..]) else (x < y) == keys[0].ascending)
  }

  ghost predicate SortedBy(rows: seq<Row>, keys: seq<OrderKey>) {
    forall i, j :: 0 <= i < j < |rows| ==> LexLe(rows[i], rows[j], keys)
  }

  ghost predicate Agree(a: Row, b: Row, keys: seq<OrderKey>) {
    forall k :: k in keys ==> Val(a, k.col) == Val(b, k.col)
  }

  /** The columns of the keys have one value in all rows. */
  ghost predicate Constant(rows: seq<Row>, keys: seq<OrderKey>) {
    forall i, j :: 0 <= i < |rows| && 0 <= j < |rows| ==> Agree(rows[i], rows[j], keys)
  }

  predicate IsFixedOrderKey(fixed: seq<OrderKey>, key: OrderKey) {
    exists k :: k in fixed && k.col == key.col
  }

  function SkipFixed(order: seq<OrderKey>, fixed: seq<OrderKey>): seq<OrderKey> {
    if order != [] && IsFixedOrderKey(fixed, order[0]) then SkipFixed(order[1..], fixed) else order
  }

  /** SatisfiesOrder on what is left of the path's order. */
  predicate Satisfies(order: seq<OrderKey>, fixed: seq<OrderKey>, required: seq<OrderKey>)
    decreases |required|
  {
    if required == [] then true
    else if IsFixedOrderKey(fixed, required[0]) then Satisfies(order, fixed, required[1..])
    else
      var rest := SkipFixed(order, fixed);
      rest != [] && rest[0] == required[0] && Satisfies(rest[1..], fixed, required[1..])
  }

  /** The search of IsFixedOrderKey. */
  method FindFixed(fixed: seq<OrderKey>, key: OrderKey) returns (found: bool)
    ensures found == IsFixedOrderKey(fixed, key)
  {
    for i := 0 to |fixed|
      invariant forall x :: 0 <= x < i ==> fixed[x].col != key.col
    {
      if fixed[i].col == key.col { return true; }
    }
    return false;
  }

  method SatisfiesOrder(order: seq<OrderKey>, fixed: seq<OrderKey>, required: seq<OrderKey>) returns (ok: bool)
    ensures ok == Satisfies(order, fixed, required)
  {
    hide IsFixedOrderKey;
    var outPos := 0;
    assert order[0..] == order && required[0..] == required;
    for i := 0 to |required|
      invariant outPos <= |order|
      invariant Satisfies(order, fixed, required) == Satisfies(order[outPos..], fixed, required[i..])
    {
      var need := required[i];
      assert required[i..][1..] == required[i + 1..];
      var needFixed := FindFixed(fixed, need);
      if needFixed { continue; }
      ghost var from := outPos;
      while outPos < |order|
        invariant from <= outPos <= |order| && SkipFixed(order[outPos..], fixed) == SkipFixed(order[from..], fixed)
        decreases |order| - outPos
      {
        var haveFixed := FindFixed(fixed, order[outPos]);
        if !haveFixed { break; }
        assert order[outPos..][1..] == order[outPos + 1..];
        outPos := outPos + 1;
      }
      assert outPos < |order| ==> order[outPos..][1..] == order[outPos + 1..];
      if outPos >= |order| { return false; }
      if order[outPos] != need { return false; }
      outPos := outPos + 1;
    }
    assert required[|required|..] == [];
    ok := true;
  }

  /** Two rows in the path's order that agree on the fixed columns are in the required order. */
  lemma {:induction false} SatisfiesPair(a: Row, b: Row, order: seq<OrderKey>, fixed: seq<OrderKey>,
                                         required: seq<OrderKey>)
    requires LexLe(a, b, order) && Agree(a, b, fixed) && Satisfies(order, fixed, required)
    ensures LexLe(a, b, required)
    decreases |required|
  {
    if required != [] {
      if IsFixedOrderKey(fixed, required[0]) {
        FixedAgree(a, b, fixed, required[0]);
        SatisfiesPair(a, b, order, fixed, required[1..]);
      } else {
        SkipKeeps(a, b, order, fixed);
        var rest := SkipFixed(order, fixed);
        if Val(a, rest[0].col) == Val(b, rest[0].col) { SatisfiesPair(a, b, rest[1..], fixed, required[1..]); }
      }
    }
  }

  lemma {:induction false} FixedAgree(a: Row, b: Row, fixed: seq<OrderKey>, key: OrderKey)
    requires Agree(a, b, fixed) && IsFixedOrderKey(fixed, key)
    ensures Val(a, key.col) == Val(b, key.col)
  {
  }

  lemma {:induction false} SkipKeeps(a: Row, b: Row, order: seq<OrderKey>, fixed: seq<OrderKey>)
    requires LexLe(a, b, order) && Agree(a, b, fixed)
    ensures LexLe(a, b, SkipFixed(order, fixed))
  {
    if order != [] && IsFixedOrderKey(fixed, order[0]) {
      FixedAgree(a, b, fixed, order[0]);
      SkipKeeps(a, b, order[1..], fixed);
    }
  }

  /** No column comes twice. */
  ghost predicate Distinct(keys: seq<OrderKey>) {
    forall i, j :: 0 <= i < j < |keys| ==> keys[i].col != keys[j].col
  }

  /** The order and the fixed columns force the required order on any two rows. */
  ghost predicate Forces(order: seq<OrderKey>, fixed: seq<OrderKey>, required: seq<OrderKey>) {
    forall a, b :: LexLe(a, b, order) && Agree(a, b, fixed) ==> LexLe(a, b, required)
  }

  /** Rows that agree outside of some columns. */
  ghost predicate DifferIn(a: Row, b: Row, cols: set<Col>) { forall c :: c !in cols ==> Val(a, c) == Val(b, c) }

  predicate NoneOf(keys: seq<OrderKey>, cols: set<Col>) { forall i :: 0 <= i < |keys| ==> keys[i].col !in cols }

  lemma {:induction false} LexLeSame(a: Row, b: Row, keys: seq<OrderKey>, cols: set<Col>)
    requires DifferIn(a, b, cols) && NoneOf(keys, cols)
    ensures LexLe(a, b, keys)
  {
    if keys != [] {
      assert forall i :: 0 <= i < |keys[1..]| ==> keys[1..][i] == keys[i + 1];
      LexLeSame(a, b, keys[1..], cols);
    }
  }

  lemma {:induction false} SkipIsSuffix(order: seq<OrderKey>, fixed: seq<OrderKey>) returns (n: nat)
    ensures n <= |order| && SkipFixed(order, fixed) == order[n..]
    ensures forall i :: 0 <= i < n ==> IsFixedOrderKey(fixed, order[i])
    ensures n < |order| ==> !IsFixedOrderKey(fixed, order[n])
  {
    if order != [] && IsFixedOrderKey(fixed, order[0]) {
      n := SkipIsSuffix(order[1..], fixed);
      assert order[1..][n..] == order[n + 1..];
      assert forall i :: 0 <= i < n ==> order[1..][i] == order[i + 1];
      n := n + 1;
    } else {
      n := 0;
    }
  }

  /** Fixed columns in front decide nothing. */
  lemma {:induction false} SkipDecides(a: Row, b: Row, order: seq<OrderKey>, fixed: seq<OrderKey>)
    requires Agree(a, b, fixed)
    ensures LexLe(a, b, order) <==> LexLe(a, b, SkipFixed(order, fixed))
  {
    if order != [] && IsFixedOrderKey(fixed, order[0]) {
      FixedAgree(a, b, fixed, order[0]);
      SkipDecides(a, b, order[1..], fixed);
    }
  }

  /** Two rows that differ in column c only, or in c and d: d the way `ascending` says, c the
      wrong way. */
  lemma {:induction false} TwoRows(key: OrderKey, d: OrderKey) returns (a: Row, b: Row)
    ensures DifferIn(a, b, {key.col, d.col}) && Val(a, key.col) != Val(b, key.col)
    ensures !((Val(a, key.col) < Val(b, key.col)) == key.ascending)
    ensures d.col != key.col ==> Val(a, d.col) != Val(b, d.col) && (Val(a, d.col) < Val(b, d.col)) == d.ascending
    ensures d.col == key.col ==> DifferIn(a, b, {key.col})
  {
    a := map[d.col := if d.ascending then 0 else 1][key.col := if key.ascending then 1 else 0];
    b := map[d.col := if d.ascending then 1 else 0][key.col := if key.ascending then 0 else 1];
  }

  /** A test that fails has a reason: two rows the order allows and the requirement does not. */
  lemma {:induction false} Counterexample(order: seq<OrderKey>, fixed: seq<OrderKey>, required: seq<OrderKey>,
                                          used: set<Col>) returns (a: Row, b: Row, cols: set<Col>)
    requires Distinct(order) && Distinct(required) && !Satisfies(order, fixed, required)
    requires NoneOf(order, used) && NoneOf(required, used)
    ensures DifferIn(a, b, cols) && cols !! used && NoneOf(fixed, cols)
    ensures LexLe(a, b, order) && !LexLe(a, b, required)
    decreases |required|
  {
    var key, tail := required[0], required[1..];
    TailDistinct(required, used);
    if IsFixedOrderKey(fixed, key) {
      a, b, cols := Counterexample(order, fixed, tail, used);
      assert key.col !in cols;
    } else {
      var n := SkipIsSuffix(order, fixed);
      var rest := SkipFixed(order, fixed);
      if rest != [] && rest[0] == key {
        RestDistinct(order, used, n);
        TailDistinct(rest, used);
        a, b, cols := Counterexample(rest[1..], fixed, tail, used + {key.col});
        assert key.col !in cols;
        NoneAgree(a, b, fixed, cols);
        SkipDecides(a, b, order, fixed);
      } else {
        var d := if rest == [] then key else rest[0];
        a, b := TwoRows(key, d);
        cols := if d.col == key.col then {key.col} else {key.col, d.col};
        NoneFixed(fixed, key, d, rest);
        NoneAgree(a, b, fixed, cols);
        SkipDecides(a, b, order, fixed);
        if rest != [] { assert order[n] == rest[0]; }
      }
    }
  }

  lemma {:induction false} TailDistinct(keys: seq<OrderKey>, used: set<Col>)
    requires Distinct(keys) && NoneOf(keys, used) && keys != []
    ensures Distinct(keys[1..]) && NoneOf(keys[1..], used) && NoneOf(keys[1..], used + {keys[0].col})
  {
    assert forall i :: 0 <= i < |keys[1..]| ==> keys[1..][i] == keys[i + 1];
  }

  lemma {:induction false} RestDistinct(keys: seq<OrderKey>, used: set<Col>, n: nat)
    requires Distinct(keys) && NoneOf(keys, used) && n <= |keys|
    ensures Distinct(keys[n..]) && NoneOf(keys[n..], used)
  {
  }

  lemma {:induction false} NoneFixed(fixed: seq<OrderKey>, key: OrderKey, d: OrderKey, rest: seq<OrderKey>)
    requires !IsFixedOrderKey(fixed, key) && (d == key || !IsFixedOrderKey(fixed, d))
    ensures NoneOf(fixed, if d.col == key.col then {key.col} else {key.col, d.col})
  {
  }

  lemma {:induction false} NoneAgree(a: Row, b: Row, fixed: seq<OrderKey>, cols: set<Col>)
    requires DifferIn(a, b, cols) && NoneOf(fixed, cols)
    ensures Agree(a, b, fixed)
  {
    forall k | k in fixed ensures Val(a, k.col) == Val(b, k.col) {
      var i :| 0 <= i < |fixed| && fixed[i] == k;
    }
  }

  /** The test is exact: it says yes if and only if order and fixed columns force the required
      order, as long as neither list names a column twice. */
  lemma {:induction false} SatisfiesExact(order: seq<OrderKey>, fixed: seq<OrderKey>, required: seq<OrderKey>)
    requires Distinct(order) && Distinct(required)
    ensures Satisfies(order, fixed, required) <==> Forces(order, fixed, required)
  {
    hide LexLe, Agree, Satisfies;
    if Satisfies(order, fixed, required) {
      forall a, b | LexLe(a, b, order) && Agree(a, b, fixed) ensures LexLe(a, b, required) {
        SatisfiesPair(a, b, order, fixed, required);
      }
    } else {
      var a, b, cols := Counterexample(order, fixed, required, {});
      NoneAgree(a, b, fixed, cols);
    }
  }

  /** A column named twice: the test says no although the order is the required one. */
  lemma {:induction false} RepeatedColumn(k: OrderKey)
    ensures !Satisfies([k], [], [k, k]) && Forces([k], [], [k, k])
  {
    assert [k, k][1..] == [k] && [k][1..] == [];
    assert SkipFixed([k], []) == [k] && SkipFixed([], []) == [];
    assert !Satisfies([], [], [k]);
    forall a, b | LexLe(a, b, [k]) ensures LexLe(a, b, [k, k]) {}
  }

  /** What a path claims about its rows. */
  ghost predicate Claims(rows: seq<Row>, order: seq<OrderKey>, fixed: seq<OrderKey>) {
    && SortedBy(rows, order) && Constant(rows, fixed)
    && forall i, k :: 0 <= i < |rows| && (k in order || k in fixed) ==> HasCol(rows[i], k)
  }

  predicate HasCol(r: Row, k: OrderKey) { k.col in r }

  lemma {:induction false} ClaimsGive(rows: seq<Row>, order: seq<OrderKey>, fixed: seq<OrderKey>,
                                      required: seq<OrderKey>)
    requires Claims(rows, order, fixed) && Satisfies(order, fixed, required)
    ensures SortedBy(rows, required)
  {
    hide LexLe, Satisfies, Agree;
    forall i, j | 0 <= i < j < |rows| ensures LexLe(rows[i], rows[j], required) {
      SatisfiesPair(rows[i], rows[j], order, fixed, required);
    }
  }

  /** ---------- Joins ---------- */

  /** The joined row; the relations have no column in common. */
  function Combine(l: Row, r: Row): Row { r + l }

  function MatchesOf(l: Row, right: seq<Row>, lc: Col, rc: Col): seq<Row> {
    if right == [] then []
    else if Val(l, lc) == Val(right[0], rc) then [Combine(l, right[0])] + MatchesOf(l, right[1..], lc, rc)
    else MatchesOf(l, right[1..], lc, rc)
  }

  function JoinRows(left: seq<Row>, right: seq<Row>, lc: Col, rc: Col): seq<Row> {
    if left == [] then [] else MatchesOf(left[0], right, lc, rc) + JoinRows(left[1..], right, lc, rc)
  }

  ghost predicate Extends(x: Row, l: Row) { forall c :: c in l ==> c in x && x[c] == l[c] }

  lemma {:induction false} MatchesExtend(l: Row, right: seq<Row>, lc: Col, rc: Col)
    ensures forall i :: 0 <= i < |MatchesOf(l, right, lc, rc)| ==> Extends(MatchesOf(l, right, lc, rc)[i], l)
  {
    if right != [] { MatchesExtend(l, right[1..], lc, rc); }
  }

  /** Every joined row extends a left row, and later ones extend later ones. */
  ghost predicate FollowLeft(out: seq<Row>, from: seq<nat>, left: seq<Row>) {
    && |from| == |out|
    && (forall i :: 0 <= i < |out| ==> from[i] < |left| && Extends(out[i], left[from[i]]))
    && (forall i, j :: 0 <= i < j < |out| ==> from[i] <= from[j])
  }

  lemma {:induction false} JoinFollows(left: seq<Row>, right: seq<Row>, lc: Col, rc: Col) returns (from: seq<nat>)
    ensures FollowLeft(JoinRows(left, right, lc, rc), from, left)
  {
    if left == [] {
      from := [];
    } else {
      var head, tail := MatchesOf(left[0], right, lc, rc), JoinRows(left[1..], right, lc, rc);
      MatchesExtend(left[0], right, lc, rc);
      var later := JoinFollows(left[1..], right, lc, rc);
      from := seq(|head| + |tail|, i requires 0 <= i < |head| + |tail| => if i < |head| then 0
          else later[i - |head|] + 1);
      var out := head + tail;
      forall i | 0 <= i < |out| ensures from[i] < |left| && Extends(out[i], left[from[i]]) {
        if i >= |head| { assert out[i] == tail[i - |head|] && left[from[i]] == left[1..][later[i - |head|]]; }
      }
    }
  }

  lemma {:induction false} SameValues(x: Row, l: Row, y: Row, m: Row, keys: seq<OrderKey>)
    requires Extends(x, l) && Extends(y, m) && forall k :: k in keys ==> HasCol(l, k) && HasCol(m, k)
    ensures LexLe(x, y, keys) == LexLe(l, m, keys) && Agree(x, y, keys) == Agree(l, m, keys)
  {
    if keys != [] {
      assert keys[0] in keys;
      forall k | k in keys[1..] ensures HasCol(l, k) && HasCol(m, k) { assert k in keys; }
      SameValues(x, l, y, m, keys[1..]);
    }
    forall k | k in keys
      ensures Val(x, k.col) == Val(l, k.col) && Val(y, k.col) == Val(m, k.col)
    { assert HasCol(l, k) && HasCol(m, k); }
  }

  lemma {:induction false} LexLeSelf(a: Row, keys: seq<OrderKey>)
    ensures LexLe(a, a, keys)
  {
    if keys != [] { LexLeSelf(a, keys[1..]); }
  }

  /** A join that runs along its left input keeps what the left input claims. */
  lemma {:induction false} JoinKeepsClaims(left: seq<Row>, right: seq<Row>, lc: Col, rc: Col, order: seq<OrderKey>,
                                           fixed: seq<OrderKey>)
    requires Claims(left, order, fixed)
    ensures Claims(JoinRows(left, right, lc, rc), order, fixed)
  {
    var out := JoinRows(left, right, lc, rc);
    var from := JoinFollows(left, right, lc, rc);
    hide JoinRows;
    forall i, j | 0 <= i < j < |out| ensures LexLe(out[i], out[j], order) {
      JoinPair(left, out, from, i, j, order, fixed);
    }
    forall i, j | 0 <= i < |out| && 0 <= j < |out| ensures Agree(out[i], out[j], fixed) {
      SameValues(out[i], left[from[i]], out[j], left[from[j]], fixed);
    }
    hide LexLe, Agree;
    forall i, k | 0 <= i < |out| && (k in order || k in fixed) ensures HasCol(out[i], k) {
      assert HasCol(left[from[i]], k) && Extends(out[i], left[from[i]]);
    }
  }

  lemma {:induction false} JoinPair(left: seq<Row>, out: seq<Row>, from: seq<nat>, i: nat, j: nat, order: seq<OrderKey>,
                                    fixed: seq<OrderKey>)
    requires Claims(left, order, fixed) && FollowLeft(out, from, left) && i < j < |out|
    ensures LexLe(out[i], out[j], order)
  {
    SameValues(out[i], left[from[i]], out[j], left[from[j]], order);
    if from[i] == from[j] { LexLeSelf(left[from[i]], order); }
  }

  /** ---------- Paths ---------- */

  /** A path of the optimizer with the data it runs on. `preds` are the predicates on a relation
      and `rows` its rows, `indexed` lists them in the order of the index, `out` is what a hash
      join emits, and `leftSorted` and `rightSorted` are what the sorts below a merge join
      deliver where it needs them. */
  datatype Path =
    | SeqScan(rows: seq<Row>, preds: seq<Pred>)
    | IndexScan(rows: seq<Row>, preds: seq<Pred>, indexed: seq<Row>, keys: seq<Col>, spec: Spec)
    | NestedLoop(left: Path, right: Path, lc: Col, rc: Col)
    | IndexLoop(left: Path, rows: seq<Row>, preds: seq<Pred>, keys: seq<Col>, spec: Spec, lc: Col, rc: Col)
    | HashJoin(left: Path, right: Path, lc: Col, rc: Col, out: seq<Row>)
    | MergeJoin(left: Path, right: Path, lc: Col, rc: Col, leftSorted: seq<Row>, rightSorted: seq<Row>)

  function Ascending(c: Col): seq<OrderKey> { [OrderKey(c, true)] }

  function IndexOrder(keys: seq<Col>): (o: seq<OrderKey>)
    ensures |o| == |keys| && forall i :: 0 <= i < |keys| ==> o[i] == OrderKey(keys[i], true)
  {
    seq(|keys|, i requires 0 <= i < |keys| => OrderKey(keys[i], true))
  }

  /** The order and the fixed prefix the enumerator records for a path. */
  function OutputOrder(p: Path): seq<OrderKey>
    decreases p, 0
  {
    match p
    case SeqScan(_, _) => []
    case IndexScan(_, _, _, keys, _) => IndexOrder(keys)
    case NestedLoop(left, _, _, _) => OutputOrder(left)
    case IndexLoop(left, _, _, _, _, _, _) => OutputOrder(left)
    case HashJoin(_, _, _, _, _) => []
    case MergeJoin(left, _, lc, _, _, _) => if LeftInOrder(left, lc) then OutputOrder(left) else Ascending(lc)
  }

  function FixedPrefix(p: Path): seq<OrderKey>
    decreases p, 0
  {
    match p
    case SeqScan(_, _) => []
    case IndexScan(_, _, _, keys, s) => if |s.equalities| <= |keys| then IndexOrder(keys)[..|s.equalities|]
        else IndexOrder(keys)
    case NestedLoop(left, _, _, _) => FixedPrefix(left)
    case IndexLoop(left, _, _, _, _, _, _) => FixedPrefix(left)
    case HashJoin(_, _, _, _, _) => []
    case MergeJoin(left, _, lc, _, _, _) => if LeftInOrder(left, lc) then FixedPrefix(left) else []
  }

  predicate LeftInOrder(p: Path, c: Col)
    decreases p, 1
  {
    Satisfies(OutputOrder(p), FixedPrefix(p), Ascending(c))
  }

  /** The rows a path produces, in order: the meaning of BuildExecutor. */
  ghost function Rows(p: Path): seq<Row>
    decreases p, 1
  {
    match p
    case SeqScan(rows, preds) => Filter(rows, Conj(preds))
    case IndexScan(_, _, indexed, keys, s) => Filter(Filter(indexed, Scan(keys, s)), Conj(s.residual))
    case NestedLoop(left, right, lc, rc) => JoinRows(Rows(left), Rows(right), lc, rc)
    case IndexLoop(left, rows, _, _, s, lc, rc) => JoinRows(Rows(left), Filter(rows, Conj(s.residual)), lc, rc)
    case HashJoin(_, _, _, _, out) => out
    case MergeJoin(left, right, lc, rc, _, _) => JoinRows(MergeLeft(p), MergeRight(p), lc, rc)
  }

  ghost function MergeLeft(p: Path): seq<Row>
    requires p.MergeJoin?
    decreases p, 0
  {
    if LeftInOrder(p.left, p.lc) then Rows(p.left) else p.leftSorted
  }

  ghost function MergeRight(p: Path): seq<Row>
    requires p.MergeJoin?
    decreases p, 0
  {
    if LeftInOrder(p.right, p.rc) then Rows(p.right) else p.rightSorted
  }

  ghost predicate SortOf(sorted: seq<Row>, rows: seq<Row>, c: Col) {
    && multiset(sorted) == multiset(rows) && SortedBy(sorted, Ascending(c))
    && forall i :: 0 <= i < |sorted| ==> c in sorted[i]
  }

  /** Index scans read the rows in key order with the predicates split up; sorts sort; a hash
      join emits its matches in any order. */
  ghost predicate WellFormed(p: Path) {
    match p
    case SeqScan(_, _) => true
    case IndexScan(rows, preds, indexed, keys, s) =>
      && Shaped(keys, s) && SpecBag(s) == multiset(preds)
      && multiset(indexed) == multiset(rows) && IsIndexed(indexed, keys)
    case NestedLoop(left, right, _, _) => WellFormed(left) && WellFormed(right)
    case IndexLoop(left, _, preds, keys, s, _, _) => WellFormed(left) && Shaped(keys, s) &&
        SpecBag(s) == multiset(preds)
    case HashJoin(left, right, lc, rc, out) =>
      WellFormed(left) && WellFormed(right) && multiset(out) == multiset(JoinRows(Rows(left), Rows(right), lc, rc))
    case MergeJoin(left, right, lc, rc, ls, rs) =>
      WellFormed(left) && WellFormed(right) && SortOf(ls, Rows(left), lc) && SortOf(rs, Rows(right), rc)
  }

  ghost predicate IsIndexed(indexed: seq<Row>, keys: seq<Col>) {
    SortedBy(indexed, IndexOrder(keys)) && forall i, k :: 0 <= i < |indexed| && k in keys ==> k in indexed[i]
  }

  /** The rows that pass, from position n on, with the positions they come from. */
  lemma {:induction false} FilterFrom(rows: seq<Row>, c: Cond, n: nat) returns (at: seq<nat>)
    requires n <= |rows|
    ensures |at| == |Filter(rows[n..], c)|
    ensures forall i :: 0 <= i < |at| ==>
              n <= at[i] < |rows| && rows[at[i]] == Filter(rows[n..], c)[i] && Sat(rows[at[i]], c)
    ensures forall i, j :: 0 <= i < j < |at| ==> at[i] < at[j]
    decreases |rows| - n
  {
    hide Sat;
    if n == |rows| {
      at := [];
    } else {
      assert rows[n..][1..] == rows[n + 1..] && rows[n..][0] == rows[n];
      assert Filter(rows[n..], c) == if Sat(rows[n], c) then [rows[n]] + Filter(rows[n + 1..], c)
          else Filter(rows[n + 1..], c);
      hide Filter;
      at := FilterFrom(rows, c, n + 1);
      if Sat(rows[n], c) { at := [n] + at; }
    }
  }

  lemma {:induction false} FilterPart(rows: seq<Row>, c: Cond) returns (at: seq<nat>)
    ensures |at| == |Filter(rows, c)|
    ensures forall i :: 0 <= i < |at| ==> at[i] < |rows| && rows[at[i]] == Filter(rows, c)[i] && Sat(rows[at[i]], c)
    ensures forall i, j :: 0 <= i < j < |at| ==> at[i] < at[j]
  {
    hide Sat, Filter;
    assert rows[0..] == rows;
    at := FilterFrom(rows, c, 0);
  }

  /** Filtering keeps every claim. */
  lemma {:induction false} FilterKeepsClaims(rows: seq<Row>, c: Cond, order: seq<OrderKey>, fixed: seq<OrderKey>)
    requires Claims(rows, order, fixed)
    ensures Claims(Filter(rows, c), order, fixed)
  {
    hide LexLe, Agree, Sat;
    var at := FilterPart(rows, c);
    var out := Filter(rows, c);
    hide Filter;
    forall i, j | 0 <= i < j < |out| ensures LexLe(out[i], out[j], order) {
      assert LexLe(rows[at[i]], rows[at[j]], order);
    }
    forall i, j | 0 <= i < |out| && 0 <= j < |out| ensures Agree(out[i], out[j], fixed) {
      assert Agree(rows[at[i]], rows[at[j]], fixed);
    }
    forall i, k | 0 <= i < |out| && (k in order || k in fixed) ensures HasCol(out[i], k) {
      assert HasCol(rows[at[i]], k);
    }
  }

  /** An index scan delivers key order, and the columns of its equality prefix are constant. */
  lemma {:induction false} ScanClaims(indexed: seq<Row>, keys: seq<Col>, s: Spec)
    requires Shaped(keys, s) && IsIndexed(indexed, keys)
    ensures Claims(Filter(indexed, Scan(keys, s)), IndexOrder(keys), IndexOrder(keys)[..|s.equalities|])
  {
    hide LexLe;
    var c, order := Scan(keys, s), IndexOrder(keys);
    var fixed := order[..|s.equalities|];
    var at := FilterPart(indexed, c);
    var out := Filter(indexed, c);
    hide Filter;
    forall i, j | 0 <= i < j < |out| ensures LexLe(out[i], out[j], order) {
      assert LexLe(indexed[at[i]], indexed[at[j]], order);
    }
    forall i, j | 0 <= i < |out| && 0 <= j < |out| ensures Agree(out[i], out[j], fixed) {
      assert InScan(out[i], keys, s) && InScan(out[j], keys, s);
      forall k | k in fixed ensures Val(out[i], k.col) == Val(out[j], k.col) {
        var x :| 0 <= x < |fixed| && fixed[x] == k;
        assert Val(out[i], keys[x]) == s.equalities[x].constant;
      }
    }
    forall i, k | 0 <= i < |out| && (k in order || k in fixed) ensures HasCol(out[i], k) {
      var x :| 0 <= x < |order| && order[x] == k;
      assert keys[x] in keys && keys[x] in indexed[at[i]];
    }
  }

  lemma {:induction false} NoClaims(rows: seq<Row>)
    ensures Claims(rows, [], [])
  {
  }

  lemma {:induction false} SortClaims(sorted: seq<Row>, rows: seq<Row>, c: Col)
    requires SortOf(sorted, rows, c)
    ensures Claims(sorted, Ascending(c), [])
  {
  }

  /** Every path keeps what it claims. */
  lemma {:induction false} PathKeepsClaims(p: Path)
    requires WellFormed(p)
    ensures Claims(Rows(p), OutputOrder(p), FixedPrefix(p))
  {
    hide Claims, Filter, JoinRows, IsIndexed, SpecBag;
    match p
    case SeqScan(_, _) => NoClaims(Rows(p));
    case HashJoin(_, _, _, _, out) => NoClaims(out);
    case IndexScan(_, _, indexed, keys, s) =>
      ScanClaims(indexed, keys, s);
      FilterKeepsClaims(Filter(indexed, Scan(keys, s)), Conj(s.residual), OutputOrder(p), FixedPrefix(p));
    case NestedLoop(left, right, lc, rc) =>
      PathKeepsClaims(left);
      JoinKeepsClaims(Rows(left), Rows(right), lc, rc, OutputOrder(left), FixedPrefix(left));
    case IndexLoop(left, rows, _, _, s, lc, rc) =>
      PathKeepsClaims(left);
      JoinKeepsClaims(Rows(left), Filter(rows, Conj(s.residual)), lc, rc, OutputOrder(left), FixedPrefix(left));
    case MergeJoin(left, right, lc, rc, ls, rs) =>
      PathKeepsClaims(left);
      if !LeftInOrder(left, lc) { SortClaims(ls, Rows(left), lc); }
      JoinKeepsClaims(MergeLeft(p), MergeRight(p), lc, rc, OutputOrder(p), FixedPrefix(p));
  }

  /** If SatisfiesOrder says yes, the rows the path produces are in the required order. */
  lemma {:induction false} OrderClaimsAreSound(p: Path, required: seq<OrderKey>)
    requires WellFormed(p) && Satisfies(OutputOrder(p), FixedPrefix(p), required)
    ensures SortedBy(Rows(p), required)
  {
    hide Rows, WellFormed, Satisfies, Claims, SortedBy, OutputOrder, FixedPrefix;
    PathKeepsClaims(p);
    ClaimsGive(Rows(p), OutputOrder(p), FixedPrefix(p), required);
  }

  /** A merge join always gets both inputs sorted by their join columns. */
  lemma {:induction false} MergeInputsSorted(p: Path)
    requires WellFormed(p) && p.MergeJoin?
    ensures SortedBy(MergeLeft(p), Ascending(p.lc)) && SortedBy(MergeRight(p), Ascending(p.rc))
  {
    hide SortedBy, Satisfies, Rows;
    if LeftInOrder(p.left, p.lc) { OrderClaimsAreSound(p.left, Ascending(p.lc)); }
    if LeftInOrder(p.right, p.rc) { OrderClaimsAreSound(p.right, Ascending(p.rc)); }
  }

  /** ---------- The bag of a join ---------- */

  lemma {:induction false} JoinConcat(a: seq<Row>, b: seq<Row>, right: seq<Row>, lc: Col, rc: Col)
    ensures JoinRows(a + b, right, lc, rc) == JoinRows(a, right, lc, rc) + JoinRows(b, right, lc, rc)
  {
    hide MatchesOf;
    if a == [] {
      assert a + b == b;
    } else {
      assert (a + b)[1..] == a[1..] + b && (a + b)[0] == a[0];
      JoinConcat(a[1..], b, right, lc, rc);
    }
  }

  lemma {:induction false} MatchesConcat(l: Row, a: seq<Row>, b: seq<Row>, lc: Col, rc: Col)
    ensures MatchesOf(l, a + b, lc, rc) == MatchesOf(l, a, lc, rc) + MatchesOf(l, b, lc, rc)
  {
    if a == [] {
      assert a + b == b;
    } else {
      assert (a + b)[1..] == a[1..] + b && (a + b)[0] == a[0];
      MatchesConcat(l, a[1..], b, lc, rc);
    }
  }

  lemma {:induction false} OneRowJoin(x: Row, right: seq<Row>, lc: Col, rc: Col)
    ensures JoinRows([x], right, lc, rc) == MatchesOf(x, right, lc, rc)
  {
  }

  /** Taking one row out of the middle. */
  lemma {:induction false} TakeOut(rows: seq<Row>, k: nat)
    requires k < |rows|
    ensures rows == rows[..k] + [rows[k]] + rows[k + 1..]
    ensures multiset(rows) == multiset(rows[..k] + rows[k + 1..]) + multiset{rows[k]}
  {
  }

  lemma Cancel(a: multiset<Row>, b: multiset<Row>, x: Row)
    requires a + multiset{x} == b + multiset{x}
    ensures a == b
  {
    assert a == a + multiset{x} - multiset{x} && b == b + multiset{x} - multiset{x};
  }

  lemma {:induction false} JoinTakeOut(rows: seq<Row>, k: nat, right: seq<Row>, lc: Col, rc: Col)
    requires k < |rows|
    ensures multiset(JoinRows(rows, right, lc, rc)) ==
            multiset(JoinRows(rows[..k] + rows[k + 1..], right, lc, rc)) + multiset(MatchesOf(rows[k], right, lc, rc))
  {
    hide JoinRows, MatchesOf;
    TakeOut(rows, k);
    JoinConcat(rows[..k], [rows[k]], right, lc, rc);
    JoinConcat(rows[..k] + [rows[k]], rows[k + 1..], right, lc, rc);
    JoinConcat(rows[..k], rows[k + 1..], right, lc, rc);
    OneRowJoin(rows[k], right, lc, rc);
  }

  lemma {:induction false} LeftBag(a: seq<Row>, b: seq<Row>, right: seq<Row>, lc: Col, rc: Col)
    requires multiset(a) == multiset(b)
    ensures multiset(JoinRows(a, right, lc, rc)) == multiset(JoinRows(b, right, lc, rc))
  {
    hide JoinRows, MatchesOf;
    if a == [] {
      assert |b| == |multiset(b)| == |multiset(a)| == 0;
    } else {
      assert a[0] in multiset(a);
      assert a[0] in b;
      var k :| 0 <= k < |b| && b[k] == a[0];
      TakeOut(a, 0);
      TakeOut(b, k);
      var rest := a[..0] + a[1..];
      Cancel(multiset(rest), multiset(b[..k] + b[k + 1..]), a[0]);
      LeftBag(rest, b[..k] + b[k + 1..], right, lc, rc);
      JoinTakeOut(a, 0, right, lc, rc);
      JoinTakeOut(b, k, right, lc, rc);
    }
  }

  lemma {:induction false} MatchesTakeOut(l: Row, rows: seq<Row>, k: nat, lc: Col, rc: Col)
    requires k < |rows|
    ensures multiset(MatchesOf(l, rows, lc, rc)) ==
            multiset(MatchesOf(l, rows[..k] + rows[k + 1..], lc, rc)) + multiset(MatchesOf(l, [rows[k]], lc, rc))
  {
    hide MatchesOf;
    TakeOut(rows, k);
    MatchesConcat(l, rows[..k], [rows[k]], lc, rc);
    MatchesConcat(l, rows[..k] + [rows[k]], rows[k + 1..], lc, rc);
    MatchesConcat(l, rows[..k], rows[k + 1..], lc, rc);
  }

  lemma {:induction false} MatchBag(l: Row, a: seq<Row>, b: seq<Row>, lc: Col, rc: Col)
    requires multiset(a) == multiset(b)
    ensures multiset(MatchesOf(l, a, lc, rc)) == multiset(MatchesOf(l, b, lc, rc))
  {
    hide MatchesOf;
    if a == [] {
      assert |b| == |multiset(b)| == |multiset(a)| == 0;
    } else {
      assert a[0] in multiset(a);
      assert a[0] in b;
      var k :| 0 <= k < |b| && b[k] == a[0];
      TakeOut(a, 0);
      TakeOut(b, k);
      var rest := a[..0] + a[1..];
      Cancel(multiset(rest), multiset(b[..k] + b[k + 1..]), a[0]);
      MatchBag(l, rest, b[..k] + b[k + 1..], lc, rc);
      MatchesTakeOut(l, a, 0, lc, rc);
      MatchesTakeOut(l, b, k, lc, rc);
    }
  }

  lemma {:induction false} RightBag(left: seq<Row>, a: seq<Row>, b: seq<Row>, lc: Col, rc: Col)
    requires multiset(a) == multiset(b)
    ensures multiset(JoinRows(left, a, lc, rc)) == multiset(JoinRows(left, b, lc, rc))
  {
    hide MatchesOf;
    if left != [] {
      MatchBag(left[0], a, b, lc, rc);
      RightBag(left[1..], a, b, lc, rc);
    }
  }

  /** The sorts below a merge join change the order of its rows, never the bag. */
  lemma {:induction false} MergeKeepsRows(p: Path)
    requires WellFormed(p) && p.MergeJoin?
    ensures multiset(Rows(p)) == multiset(JoinRows(Rows(p.left), Rows(p.right), p.lc, p.rc))
  {
    hide JoinRows, LeftInOrder, Satisfies, SortedBy;
    LeftBag(MergeLeft(p), Rows(p.left), MergeRight(p), p.lc, p.rc);
    RightBag(Rows(p.left), MergeRight(p), Rows(p.right), p.lc, p.rc);
  }

  /** ---------- Index nested-loop join ---------- */

  /** The rows the inner path stands for: those that pass all its predicates. */
  ghost function InnerRows(base: seq<Row>, keys: seq<Col>, inner: Spec): seq<Row> {
    Filter(base, Both(Scan(keys, inner), Conj(inner.residual)))
  }

  /** The left row meets an inner row that passes the residual filter but not the part of
      the predicates that was left to the index. */
  ghost predicate LeaksAt(l: Row, base: seq<Row>, keys: seq<Col>, inner: Spec, lc: Col, rc: Col) {
    exists i :: 0 <= i < |base| && Val(l, lc) == Val(base[i], rc) && PassesAll(base[i], inner.residual) &&
        !InScan(base[i], keys, inner)
  }

  ghost predicate Leaks(left: seq<Row>, base: seq<Row>, keys: seq<Col>, inner: Spec, lc: Col, rc: Col) {
    exists i :: 0 <= i < |left| && LeaksAt(left[i], base, keys, inner, lc, rc)
  }

  lemma {:induction false} LeaksAtStep(l: Row, base: seq<Row>, keys: seq<Col>, inner: Spec, lc: Col, rc: Col)
    requires base != []
    ensures LeaksAt(l, base, keys, inner, lc, rc) <==>
            (Val(l, lc) == Val(base[0], rc) && PassesAll(base[0], inner.residual) && !InScan(base[0], keys, inner))
            || LeaksAt(l, base[1..], keys, inner, lc, rc)
  {
  }

  lemma {:induction false} MatchesLeak(l: Row, base: seq<Row>, keys: seq<Col>, inner: Spec, lc: Col, rc: Col)
    ensures var a, b := MatchesOf(l, InnerRows(base, keys, inner), lc, rc),
        MatchesOf(l, Filter(base, Conj(inner.residual)), lc, rc);
            |a| <= |b| && (LeaksAt(l, base, keys, inner, lc, rc) <==> a != b) && (a != b ==> |a| < |b|)
  {
    hide PassesAll, InScan, Val, LeaksAt;
    if base == [] {
      assert !LeaksAt(l, base, keys, inner, lc, rc) by { NoLeak(l, keys, inner, lc, rc); }
    } else {
      LeaksAtStep(l, base, keys, inner, lc, rc);
      MatchesLeak(l, base[1..], keys, inner, lc, rc);
      var a, b := Filter(base, Both(Scan(keys, inner), Conj(inner.residual))), Filter(base, Conj(inner.residual));
      var r, both, res := base[0], Both(Scan(keys, inner), Conj(inner.residual)), Conj(inner.residual);
      assert Sat(r, both) <==> InScan(r, keys, inner) && PassesAll(r, inner.residual) by {
        assert Sat(r, Scan(keys, inner)) == InScan(r, keys, inner);
      }
      assert a == if Sat(r, both) then [r] + Filter(base[1..], both) else Filter(base[1..], both);
      assert b == if Sat(r, res) then [r] + Filter(base[1..], res) else Filter(base[1..], res);
      if Sat(r, both) { assert a[1..] == Filter(base[1..], both); }
      if Sat(r, res) { assert b[1..] == Filter(base[1..], res); }
    }
  }

  lemma NoLeak(l: Row, keys: seq<Col>, inner: Spec, lc: Col, rc: Col)
    ensures !LeaksAt(l, [], keys, inner, lc, rc)
  {
  }

  /** The join path yields the rows its inner path stands for exactly when nothing leaks. */
  lemma {:induction false} IndexLoopExact(left: seq<Row>, base: seq<Row>, keys: seq<Col>, inner: Spec, lc: Col, rc: Col)
    ensures var a, b := JoinRows(left, InnerRows(base, keys, inner), lc, rc),
        JoinRows(left, Filter(base, Conj(inner.residual)), lc, rc);
            |a| <= |b| && (a == b <==> !Leaks(left, base, keys, inner, lc, rc)) && (a != b ==> |a| < |b|)
  {
    hide MatchesOf, Filter, InnerRows, LeaksAt;
    if left != [] {
      MatchesLeak(left[0], base, keys, inner, lc, rc);
      IndexLoopExact(left[1..], base, keys, inner, lc, rc);
      LeaksStep(left, base, keys, inner, lc, rc);
    }
  }

  lemma {:induction false} LeaksStep(left: seq<Row>, base: seq<Row>, keys: seq<Col>, inner: Spec, lc: Col, rc: Col)
    requires left != []
    ensures Leaks(left, base, keys, inner, lc, rc) <==>
              LeaksAt(left[0], base, keys, inner, lc, rc) || Leaks(left[1..], base, keys, inner, lc, rc)
  {
  }

  /** What the planner would have to check: the residual filter implies what was left to the
      index. */
  ghost predicate ResidualSuffices(keys: seq<Col>, inner: Spec) {
    forall r :: PassesAll(r, inner.residual) ==> InScan(r, keys, inner)
  }

  /** An inner path is safe on all data if and only if its residual filter suffices. */
  lemma {:induction false} SafePlanExact(keys: seq<Col>, inner: Spec, lc: Col, rc: Col)
    ensures (forall left, base :: !Leaks(left, base, keys, inner, lc, rc)) <==> ResidualSuffices(keys, inner)
  {
    hide PassesAll, InScan;
    if r: Row :| PassesAll(r, inner.residual) && !InScan(r, keys, inner) {
      var l: Row := map[lc := Val(r, rc)];
      assert Val(l, lc) == Val([r][0], rc) && PassesAll([r][0], inner.residual) && !InScan([r][0], keys, inner);
      assert LeaksAt([l][0], [r], keys, inner, lc, rc);
      assert Leaks([l], [r], keys, inner, lc, rc);
    }
  }

  /** With an empty residual filter that means: nothing was left to the index. */
  lemma {:induction false} EmptyResidual(keys: seq<Col>, inner: Spec)
    requires Shaped(keys, inner) && inner.residual == []
    ensures ResidualSuffices(keys, inner) <==> inner.equalities == [] && inner.lower.None? && inner.upper.None?
  {
    if inner.equalities != [] {
      Escapes(keys, inner, keys[0], inner.equalities[0].constant + 1);
    } else if inner.lower.Some? {
      Escapes(keys, inner, keys[0], inner.lower.value.constant - 1);
    } else if inner.upper.Some? {
      Escapes(keys, inner, keys[0], inner.upper.value.constant + 1);
    }
  }

  lemma {:induction false} Escapes(keys: seq<Col>, inner: Spec, c: Col, x: int)
    requires inner.residual == [] && !InScan(map[c := x], keys, inner)
    ensures !ResidualSuffices(keys, inner)
  {
    var r: Row := map[c := x];
    assert PassesAll(r, inner.residual) && !InScan(r, keys, inner);
  }

  /** Relation 2 is filtered by c1 = 7 through an index on c1 and joined on c0: the inner row
      with c1 = 8 comes through. */
  lemma {:induction false} IndexLoopLeaks()
    ensures var l, r: Row := map[Col(1, 0) := 5], map[Col(2, 0) := 5, Col(2, 1) := 8];
            var inner := Spec([Pred(Col(2, 1), EQ, 7)], None, None, []);
            && Shaped([Col(2, 1)], inner) && SpecBag(inner) == multiset([Pred(Col(2, 1), EQ, 7)])
            && Leaks([l], [r], [Col(2, 1)], inner, Col(1, 0), Col(2, 0))
  {
    var l, r: Row := map[Col(1, 0) := 5], map[Col(2, 0) := 5, Col(2, 1) := 8];
    var inner := Spec([Pred(Col(2, 1), EQ, 7)], None, None, []);
    assert Val(r, [Col(2, 1)][0]) == 8 && inner.equalities[0].constant == 7;
    assert !InScan(r, [Col(2, 1)], inner);
    assert [r][0] == r && PassesAll([r][0], inner.residual);
    assert LeaksAt(l, [r], [Col(2, 1)], inner, Col(1, 0), Col(2, 0));
    assert [l][0] == l;
  }

  /** ---------- Whole trees ---------- */

  /** The same query with nothing but sequential scans, filters and nested loops. */
  ghost function Plain(p: Path): seq<Row> {
    match p
    case SeqScan(rows, preds) => Filter(rows, Conj(preds))
    case IndexScan(rows, preds, _, _, _) => Filter(rows, Conj(preds))
    case NestedLoop(left, right, lc, rc) => JoinRows(Plain(left), Plain(right), lc, rc)
    case IndexLoop(left, rows, preds, _, _, lc, rc) => JoinRows(Plain(left), Filter(rows, Conj(preds)), lc, rc)
    case HashJoin(left, right, lc, rc, _) => JoinRows(Plain(left), Plain(right), lc, rc)
    case MergeJoin(left, right, lc, rc, _, _) => JoinRows(Plain(left), Plain(right), lc, rc)
  }

  /** No index nested-loop join of the tree leaks. */
  ghost predicate LeakFree(p: Path) {
    match p
    case SeqScan(_, _) => true
    case IndexScan(_, _, _, _, _) => true
    case NestedLoop(left, right, _, _) => LeakFree(left) && LeakFree(right)
    case IndexLoop(left, rows, _, keys, s, lc, rc) => LeakFree(left) && !Leaks(Rows(left), rows, keys, s, lc, rc)
    case HashJoin(left, right, _, _, _) => LeakFree(left) && LeakFree(right)
    case MergeJoin(left, right, _, _, _, _) => LeakFree(left) && LeakFree(right)
  }

  lemma {:induction false} JoinBag(a: seq<Row>, a': seq<Row>, b: seq<Row>, b': seq<Row>, lc: Col, rc: Col)
    requires multiset(a) == multiset(a') && multiset(b) == multiset(b')
    ensures multiset(JoinRows(a, b, lc, rc)) == multiset(JoinRows(a', b', lc, rc))
  {
    hide JoinRows;
    LeftBag(a, a', b, lc, rc);
    RightBag(a', b, b', lc, rc);
  }

  /** Whatever paths were chosen, the tree yields the rows of the plain query. */
  lemma {:induction false} PathKeepsRows(p: Path)
    requires WellFormed(p) && LeakFree(p)
    ensures multiset(Rows(p)) == multiset(Plain(p))
  {
    hide JoinRows, Filter, LeftInOrder, Shaped, SpecBag, IsIndexed, Leaks, InnerRows;
    match p
    case SeqScan(_, _) =>
    case IndexScan(rows, preds, indexed, keys, s) => AccessPathKeepsRows(rows, indexed, preds, keys, s);
    case NestedLoop(left, right, lc, rc) =>
      PathKeepsRows(left);
      PathKeepsRows(right);
      JoinBag(Rows(left), Plain(left), Rows(right), Plain(right), lc, rc);
    case IndexLoop(left, rows, preds, keys, s, lc, rc) =>
      PathKeepsRows(left);
      IndexLoopExact(Rows(left), rows, keys, s, lc, rc);
      InnerRowsAre(rows, preds, keys, s);
      JoinBag(Rows(left), Plain(left), InnerRows(rows, keys, s), Filter(rows, Conj(preds)), lc, rc);
    case HashJoin(left, right, lc, rc, _) =>
      PathKeepsRows(left);
      PathKeepsRows(right);
      JoinBag(Rows(left), Plain(left), Rows(right), Plain(right), lc, rc);
    case MergeJoin(left, right, lc, rc, _, _) =>
      PathKeepsRows(left);
      PathKeepsRows(right);
      MergeKeepsRows(p);
      JoinBag(Rows(left), Plain(left), Rows(right), Plain(right), lc, rc);
  }

  lemma {:induction false} InnerRowsAre(rows: seq<Row>, preds: seq<Pred>, keys: seq<Col>, s: Spec)
    requires Shaped(keys, s) && SpecBag(s) == multiset(preds)
    ensures multiset(InnerRows(rows, keys, s)) == multiset(Filter(rows, Conj(preds)))
  {
    hide SpecBag, Shaped, Filter, InScan;
    FilterTwice(rows, Scan(keys, s), Conj(s.residual));
    AccessPathKeepsRows(rows, rows, preds, keys, s);
  }
}
