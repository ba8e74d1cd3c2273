/** A delete that fails above the leaf. Entries are so large that two internal nodes with one
    entry each do not fit one page with their separator, yet neither can lend. Deleting key 1
    merges leaves 1 and 2, which leaves node 6 underfull next to node 7; there the fix-up gives
    up (access/btree_delete_entry.cpp). */
module BTreeLateFailure {
  import opened Options
  import opened BTreeNodes
  import opened BTreeShape
  import opened BTreePages
  import opened BTreeFixUp
  import opened BTree

  const SIZES := Sizes(3, 3, 8)

  function OneKey(k: nat, right: Option<PageNo>, high: Option<Key>): Node { MakeLeaf([Entry(k, k)], right, high) }

  const LEFT := MakeInternal(1, [Entry(2, 2), Entry(3, 3)], Some(7), Some(4))
  const RIGHT := MakeInternal(4, [Entry(5, 5)], None, None)
  const ROOT := MakeInternal(6, [Entry(4, 7)], None, None)

  const LEAVES: Row := [
    Cell(1, OneKey(1, Some(2), Some(2))), Cell(2, OneKey(2, Some(3), Some(3))), Cell(3, OneKey(3, Some(4), Some(4))),
    Cell(4, OneKey(4, Some(5), Some(5))), Cell(5, OneKey(5, None, None))]

  const ROWS: Rows := [[Cell(8, ROOT)], [Cell(6, LEFT), Cell(7, RIGHT)], LEAVES]

  const PAGES: Pages := map[
    1 := LEAVES[0].node, 2 := LEAVES[1].node, 3 := LEAVES[2].node, 4 := LEAVES[3].node, 5 := LEAVES[4].node,
    6 := LEFT, 7 := RIGHT, 8 := ROOT]

  lemma {:induction false} IsTree()
    ensures SizesOk(SIZES) && TreeOk(SIZES, ROWS) && Holds(PAGES, ROWS) && HangsFrom(ROWS, 8) && |ROWS| == 3
    ensures forall p :: p in PAGES ==> p < 9
  {
    RowsFine();
    RowsNested();
    LeavesFine();
    PagesHold();
  }

  lemma {:induction false} RowsFine()
    ensures RowsOk(SIZES, ROWS)
  {
    forall l | 0 <= l < |ROWS| ensures NodesOk(SIZES, ROWS[l], l == |ROWS| - 1) && Linked(ROWS[l]) {
      forall i | 0 <= i < |ROWS[l]| ensures LinkAt(ROWS[l], i) {}
    }
  }

  lemma {:induction false} RowsNested()
    ensures NestedExcept(ROWS, -1)
  {
    FlatOne(ROWS[0][0]);
    FlatTwo(ROWS[1][0], ROWS[1][1]);
    assert Flat(ROWS[0]) == Face(ROWS[1]);
    assert Flat(ROWS[1]) == Face(ROWS[2]);
    forall l | 0 <= l < |ROWS| - 1 ensures Nested(ROWS, l) {}
  }

  lemma {:induction false} LeavesFine()
    ensures LeavesOk(LEAVES)
  {
    forall i | 0 <= i < |LEAVES| ensures LeafOk(LEAVES, i) {}
  }

  lemma {:induction false} PagesHold()
    ensures Holds(PAGES, ROWS)
  {
    assert ROWS[1..] == [[Cell(6, LEFT), Cell(7, RIGHT)], LEAVES] && ROWS[1..][1..] == [LEAVES];
    assert All([LEAVES]) == LEAVES + All([]);
    assert All(ROWS) == [Cell(8, ROOT), Cell(6, LEFT), Cell(7, RIGHT)] + LEAVES;
  }

  /** The way down latches the root and node 6. */
  lemma {:induction false} TheWay()
    ensures WayDown(SIZES, PAGES, 8, 1, [], 3) == Way(1, [8, 6])
  {
    assert ChildFrom(ROOT, 1, 0) == 6 && ChildFrom(LEFT, 1, 0) == 1;
    assert WayDown(SIZES, PAGES, 1, 1, [8, 6], 1) == Way(1, [8, 6]);
    assert [8] + [6] == [8, 6];
    assert WayDown(SIZES, PAGES, 6, 1, [8], 2) == WayDown(SIZES, PAGES, 1, 1, [8, 6], 1);
    assert [] + [8] == [8];
  }

  /** Leaf 1 can be merged, node 6 cannot. */
  lemma {:induction false} FailsLate()
    ensures DeleteFails(SIZES, PAGES, 8, 3, Entry(1, 1)) && !LeafStuck(SIZES, PAGES, 8, 3, Entry(1, 1))
  {
    TheWay();
    var erased := LeafErased(PAGES, 1, Entry(1, 1));
    var leaf := LEAVES[0].node.entries;
    assert leaf == [Entry(1, 1)] && RemoveEntry(leaf, Entry(1, 1)) == leaf[1..] == [];
    assert erased == PAGES[1 := MakeLeaf([], Some(2), Some(2))];
    assert PositionFrom(LEFT, 1, 0) == Some(0);
    assert PairFits(SIZES, erased, LEFT, 0) && !Stuck(SIZES, erased, LEFT, 0);
    var merged := FixedPages(SIZES, erased, 6, 0);
    assert merged == MergedPages(erased, 6, 0);
    assert merged[6] == LEFT.(entries := [Entry(3, 3)]) && merged[8] == ROOT && merged[7] == RIGHT;
    assert PositionFrom(ROOT, 6, 0) == Some(0);
    assert Stuck(SIZES, merged, ROOT, 0);
    assert [8, 6][..1] == [8] && [8][|[8]| - 1] == 8;
    assert FixUpFails(SIZES, merged, 8, [8], 6);
    assert FixUpFails(SIZES, erased, 8, [8, 6], 1);
  }

  /** The delete fails, and if the rewrite of the page it stood at is dropped no tree is left. */
  method DeleteLeavesNoTree() returns (t: BTree, outcome: DeleteOutcome, ghost last: PageNo, ghost was: Node)
    ensures fresh(t) && t.Valid() && outcome.Failed? && NoTree(SIZES, t.pages[last := was], t.root)
  {
    IsTree();
    FailsLate();
    hide *;
    t := new BTree.Open(SIZES, PAGES, 8, 3, 9, ROWS);
    ghost var moved;
    outcome, moved, last, was := t.Delete(1, 1);
  }
}
