/** The merge join operator under a merge path: on the inputs the planner gives it, its tuples
    are the rows the path stands for (execution/operators_join.cpp, optimizer/plan_enumerator.cpp). */
module MergePaths {
  import opened PlanPaths
  import Plan = PlanOrder
  import Merge = MergeJoin

  /** The rows from position n on as the operator sees them: a key and the row it came from. */
  function Tuples(rows: seq<Row>, c: Col, n: nat): seq<Merge.Tuple>
    requires n <= |rows|
    decreases |rows| - n
  {
    if n == |rows| then [] else [Merge.Tuple(Val(rows[n], c), n)] + Tuples(rows, c, n + 1)
  }

  ghost predicate Within(pairs: seq<Merge.Pair>, left: seq<Row>, right: seq<Row>) {
    forall i :: 0 <= i < |pairs| ==> pairs[i].left.row < |left| && pairs[i].right.row < |right|
  }

  /** The joined row of every pair. */
  function Joined(pairs: seq<Merge.Pair>, left: seq<Row>, right: seq<Row>): seq<Row>
    requires Within(pairs, left, right)
  {
    if pairs == [] then []
    else [Plan.Combine(left[pairs[0].left.row], right[pairs[0].right.row])] + Joined(pairs[1..], left, right)
  }

  lemma {:induction false} JoinedConcat(a: seq<Merge.Pair>, b: seq<Merge.Pair>, left: seq<Row>, right: seq<Row>)
    requires Within(a, left, right) && Within(b, left, right)
    ensures Within(a + b, left, right) && Joined(a + b, left, right) == Joined(a, left, right) + Joined(b, left, right)
  {
    if a == [] {
      assert a + b == b;
    } else {
      JoinedConcat(a[1..], b, left, right);
      assert (a + b)[1..] == a[1..] + b;
    }
  }

  lemma {:induction false} MatchesAgree(left: seq<Row>, right: seq<Row>, lc: Col, rc: Col, i: nat, n: nat)
    requires i < |left| && n <= |right|
    ensures var pairs := Merge.MatchesOf(Merge.Tuple(Val(left[i], lc), i), Tuples(right, rc, n));
            Within(pairs, left, right) && Joined(pairs, left, right) == Plan.MatchesOf(left[i], right[n..], lc, rc)
    decreases |right| - n
  {
    if n < |right| {
      MatchesAgree(left, right, lc, rc, i, n + 1);
      assert right[n..][1..] == right[n + 1..];
      assert Tuples(right, rc, n)[1..] == Tuples(right, rc, n + 1);
    }
  }

  /** The operator's nested-loop join and the planner's are the same function. */
  lemma {:induction false} JoinsAgree(left: seq<Row>, right: seq<Row>, lc: Col, rc: Col, n: nat)
    requires n <= |left|
    ensures var pairs := Merge.Join(Tuples(left, lc, n), Tuples(right, rc, 0));
            Within(pairs, left, right) && Joined(pairs, left, right) == Plan.JoinRows(left[n..], right, lc, rc)
    decreases |left| - n
  {
    hide Merge.MatchesOf, Plan.MatchesOf;
    if n < |left| {
      JoinsAgree(left, right, lc, rc, n + 1);
      MatchesAgree(left, right, lc, rc, n, 0);
      assert right[0..] == right && left[n..][1..] == left[n + 1..];
      assert Tuples(left, lc, n)[1..] == Tuples(left, lc, n + 1);
      JoinedConcat(Merge.MatchesOf(Tuples(left, lc, n)[0], Tuples(right, rc, 0)),
                   Merge.Join(Tuples(left, lc, n + 1), Tuples(right, rc, 0)),
                   left, right);
    }
  }

  lemma {:induction false} TuplesAt(rows: seq<Row>, c: Col, n: nat)
    requires n <= |rows|
    ensures |Tuples(rows, c, n)| == |rows| - n
    ensures forall i :: 0 <= i < |rows| - n ==> Tuples(rows, c, n)[i].key == Val(rows[n + i], c)
    decreases |rows| - n
  {
    if n < |rows| { TuplesAt(rows, c, n + 1); }
  }

  lemma {:induction false} SortedTuples(rows: seq<Row>, c: Col)
    requires Plan.SortedBy(rows, Plan.Ascending(c))
    ensures Merge.Ascending(Tuples(rows, c, 0))
  {
    TuplesAt(rows, c, 0);
    forall i, j | 0 <= i < j < |rows| ensures Val(rows[i], c) <= Val(rows[j], c) {
      assert Plan.LexLe(rows[i], rows[j], Plan.Ascending(c));
    }
  }

  /** The operator of a merge path gets sorted inputs, so it produces exactly the path's rows,
      in the path's order. */
  lemma {:induction false} MergePathRuns(p: Plan.Path)
    requires Plan.WellFormed(p) && p.MergeJoin?
    ensures var left, right := Plan.MergeLeft(p), Plan.MergeRight(p);
            var l, r := Tuples(left, p.lc, 0), Tuples(right, p.rc, 0);
            && Merge.Ascending(l) && Merge.Ascending(r)
            && Within(Merge.Join(l, r), left, right) && Joined(Merge.Join(l, r), left, right) == Plan.Rows(p)
  {
    hide Merge.Join, Plan.JoinRows, Joined, Within, Tuples, Merge.Ascending, Plan.SortedBy;
    Plan.MergeInputsSorted(p);
    SortedTuples(Plan.MergeLeft(p), p.lc);
    SortedTuples(Plan.MergeRight(p), p.rc);
    JoinsAgree(Plan.MergeLeft(p), Plan.MergeRight(p), p.lc, p.rc, 0);
    assert Plan.MergeLeft(p)[0..] == Plan.MergeLeft(p);
  }
}
