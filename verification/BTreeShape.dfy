/** The shape of the whole B+ tree, and what each structural change does to it: splits with
    their pending separator, new roots, borrowing, merging and root collapse. */
module BTreeShape {
  import opened Options
  import opened BTreeNodes

  /** The levels from the root down to the leaves. */
  type Rows = seq<Row>

  ghost predicate LinkAt(row: Row, i: nat)
    requires i < |row|
  {
    row[i].node.right == if i + 1 < |row| then Some(row[i + 1].page) else None
  }

  /** Right links lead from node to node; the last has none. */
  ghost predicate Linked(row: Row) { forall i :: 0 <= i < |row| ==> LinkAt(row, i) }

  ghost predicate NodesOk(z: Sizes, row: Row, leaf: bool) {
    forall i :: 0 <= i < |row| ==> NodeOk(z, row[i].node, leaf)
  }

  predicate NodeOk(z: Sizes, n: Node, leaf: bool) {
    n.leaf == leaf && !n.retired && CanFit(z, leaf, |n.entries|)
  }

  /** Node i of the row is the one to hold the key. */
  ghost predicate Covers(row: Row, i: nat, k: Key)
    requires i < |row|
  {
    && (i > 0 ==> row[i - 1].node.high.Some? && row[i - 1].node.high.value <= k)
    && (row[i].node.high.Some? ==> k < row[i].node.high.value)
  }

  ghost predicate SortedKeys(entries: seq<Entry>) {
    forall a, b :: 0 <= a < b < |entries| ==> entries[a].key < entries[b].key
  }

  ghost predicate LeafOk(row: Row, i: nat)
    requires i < |row|
  {
    SortedKeys(row[i].node.entries) && forall k :: 0 <= k < |row[i].node.entries| ==>
        Covers(row, i, row[i].node.entries[k].key)
  }

  ghost predicate LeavesOk(row: Row) {
    Increasing(Face(row)) && forall i :: 0 <= i < |row| ==> LeafOk(row, i)
  }

  ghost predicate RowsOk(z: Sizes, rows: Rows) {
    rows != [] && forall l :: 0 <= l < |rows| ==> NodesOk(z, rows[l], l == |rows| - 1) && Linked(rows[l])
  }

  /** Row l describes the row below it. */
  ghost predicate Nested(rows: Rows, l: int)
    requires 0 <= l < |rows| - 1
  {
    Flat(rows[l]) == Face(rows[l + 1])
  }

  ghost predicate NestedExcept(rows: Rows, skip: int) {
    forall l :: 0 <= l < |rows| - 1 && l != skip ==> Nested(rows, l)
  }

  ghost function Leaves(rows: Rows): Row
    requires rows != []
  {
    rows[|rows| - 1]
  }

  ghost predicate TreeOk(z: Sizes, rows: Rows) {
    RowsOk(z, rows) && |rows[0]| == 1 && NestedExcept(rows, -1) && LeavesOk(Leaves(rows))
  }

  lemma {:induction false} RowIncreasing(rows: Rows, skip: int, l: nat)
    requires l < |rows| && skip < l && NestedExcept(rows, skip) && Increasing(Face(Leaves(rows)))
    ensures Increasing(Face(rows[l]))
    decreases |rows| - l
  {
    if l < |rows| - 1 {
      RowIncreasing(rows, skip, l + 1);
      assert Nested(rows, l);
      FaceIncreasing(rows[l]);
    }
  }

  /** ---------- Going down ---------- */

  /** Node i2 of row l + 1 is child j of node i of row l. */
  ghost predicate IsChild(rows: Rows, l: nat, i: nat, j: nat, i2: nat) {
    && l + 1 < |rows| && i < |rows[l]| && i2 < |rows[l + 1]|
    && j <= |rows[l][i].node.entries| && i2 == Offset(rows[l], i) + j
  }

  /** FindChildForKey leads to the child that covers the key. */
  lemma {:induction false} ChildCovers(rows: Rows, l: nat, i: nat, j: nat, k: Key)
    requires l + 1 < |rows| && i < |rows[l]| && Nested(rows, l) && Covers(rows[l], i, k)
    requires j <= |rows[l][i].node.entries|
    requires j > 0 ==> rows[l][i].node.entries[j - 1].key <= k
    requires j < |rows[l][i].node.entries| ==> k < rows[l][i].node.entries[j].key
    ensures IsChild(rows, l, i, j, Offset(rows[l], i) + j)
    ensures rows[l + 1][Offset(rows[l], i) + j].page == ChildAt(rows[l][i].node, j)
    ensures Covers(rows[l + 1], Offset(rows[l], i) + j, k)
  {
    var row, off := rows[l], Offset(rows[l], i);
    FlatAt(row, i, j);
    if j > 0 { FlatAt(row, i, j - 1); }
    var face := Face(rows[l + 1]);
    assert face[off + j] == Slots(row[i].node)[j];
    if off + j > 0 { assert face[off + j - 1].bound == if j > 0 then BoundAt(row[i].node, j - 1)
        else row[i - 1].node.high; }
  }

  lemma {:induction false} ChildPage(rows: Rows, l: nat, i: nat, j: nat)
    requires l + 1 < |rows| && i < |rows[l]| && Nested(rows, l) && j <= |rows[l][i].node.entries|
    ensures IsChild(rows, l, i, j, Offset(rows[l], i) + j)
    ensures rows[l + 1][Offset(rows[l], i) + j].page == ChildAt(rows[l][i].node, j)
    ensures rows[l + 1][Offset(rows[l], i) + j].node.high == BoundAt(rows[l][i].node, j)
  {
    FlatAt(rows[l], i, j);
    assert Face(rows[l + 1])[Offset(rows[l], i) + j] == Slots(rows[l][i].node)[j];
  }

  /** ---------- Rows with a part replaced ---------- */

  ghost function Put(row: Row, a: nat, b: nat, mid: Row): Row
    requires a <= b <= |row|
  {
    row[..a] + mid + row[b..]
  }

  lemma {:induction false} PutFlat(row: Row, a: nat, b: nat, mid: Row)
    requires a <= b <= |row|
    ensures Flat(Put(row, a, b, mid)) == Flat(row[..a]) + Flat(mid) + Flat(row[b..])
    ensures Stored(Put(row, a, b, mid)) == Stored(row[..a]) + Stored(mid) + Stored(row[b..])
  {
    FlatConcat(row[..a], mid);
    FlatConcat(row[..a] + mid, row[b..]);
    StoredConcat(row[..a], mid);
    StoredConcat(row[..a] + mid, row[b..]);
  }

  lemma {:induction false} PutNodes(z: Sizes, row: Row, leaf: bool, a: nat, b: nat, mid: Row)
    requires a <= b <= |row| && NodesOk(z, row, leaf) && NodesOk(z, mid, leaf)
    ensures NodesOk(z, Put(row, a, b, mid), leaf)
  {
  }

  /** One node replaced by itself rewritten. */
  lemma {:induction false} LinkedRewrite(row: Row, i: nat, c: Cell)
    requires i < |row| && Linked(row) && c.page == row[i].page && c.node.right == row[i].node.right
    ensures Linked(Put(row, i, i + 1, [c]))
  {
    var row' := Put(row, i, i + 1, [c]);
    forall k | 0 <= k < |row'| ensures LinkAt(row', k) { assert LinkAt(row, k); }
  }

  lemma {:induction false} LinkedSplit(row: Row, i: nat, a: Cell, b: Cell)
    requires i < |row| && Linked(row)
    requires a.page == row[i].page && a.node.right == Some(b.page) && b.node.right == row[i].node.right
    ensures Linked(Put(row, i, i + 1, [a, b]))
  {
    var row' := Put(row, i, i + 1, [a, b]);
    forall k | 0 <= k < |row'| ensures LinkAt(row', k) {
      assert LinkAt(row, if k <= i then k else k - 1);
    }
  }

  lemma {:induction false} LinkedTwo(row: Row, i: nat, a: Cell, b: Cell)
    requires i + 1 < |row| && Linked(row)
    requires a.page == row[i].page && a.node.right == row[i].node.right && b.page == row[i + 1].page
    requires b.node.right == row[i + 1].node.right
    ensures Linked(Put(row, i, i + 2, [a, b]))
  {
    var row' := Put(row, i, i + 2, [a, b]);
    forall k | 0 <= k < |row'| ensures LinkAt(row', k) { assert LinkAt(row, k); }
  }

  lemma {:induction false} LinkedMerge(row: Row, i: nat, a: Cell)
    requires i + 1 < |row| && Linked(row) && a.page == row[i].page && a.node.right == row[i + 1].node.right
    ensures Linked(Put(row, i, i + 2, [a]))
  {
    var row' := Put(row, i, i + 2, [a]);
    forall k | 0 <= k < |row'| ensures LinkAt(row', k) {
      assert LinkAt(row, if k < i then k else k + 1);
    }
  }

  /** ---------- Splitting and the pending separator ---------- */

  /** The description in which slots i and i + 1 are still one. */
  ghost function Joined(f: seq<Slot>, i: nat): seq<Slot>
    requires i + 1 < |f|
  {
    f[..i] + [Slot(f[i].page, f[i + 1].bound)] + f[i + 2..]
  }

  /** Node i of row l was split and the row above does not know it yet; with l == 0 there
      is no row above. */
  ghost predicate Pending(z: Sizes, rows: Rows, l: nat, i: nat) {
    && l < |rows| && i + 1 < |rows[l]|
    && RowsOk(z, rows) && NestedExcept(rows, l - 1) && LeavesOk(Leaves(rows))
    && (if l == 0 then |rows[0]| == 2 else |rows[0]| == 1 && Flat(rows[l - 1]) == Joined(Face(rows[l]), i))
  }

  lemma {:induction false} Unjoin(f: seq<Slot>, i: nat, p: seq<Slot>, s: seq<Slot>, j: nat, q: seq<Slot>)
    requires i + 1 < |f| && Joined(f, i) == p + s + q && |p| + j == i && j < |s|
    ensures s[j] == Slot(f[i].page, f[i + 1].bound)
    ensures f == p + (s[..j] + [f[i], f[i + 1]] + s[j + 1..]) + q
  {
    var g, h := p + s + q, p + (s[..j] + [f[i], f[i + 1]] + s[j + 1..]) + q;
    assert g[i] == s[j] && |h| == |g| + 1 == |f|;
    forall k | 0 <= k < |f| ensures f[k] == h[k] {
      if k < i { assert g[k] == f[k]; } else if k > i + 1 { assert g[k - 1] == f[k]; }
    }
  }

  lemma {:induction false} EditRow(z: Sizes, rows: Rows, l: nat, row: Row)
    requires RowsOk(z, rows) && l < |rows| && NodesOk(z, row, l == |rows| - 1) && Linked(row)
    ensures RowsOk(z, rows[l := row])
  {
  }

  lemma {:induction false} SplitRowsOk(z: Sizes, rows: Rows, l: nat, i: nat, a: Cell, b: Cell)
    requires RowsOk(z, rows) && l < |rows| && i < |rows[l]|
    requires NodeOk(z, a.node, l == |rows| - 1) && NodeOk(z, b.node, l == |rows| - 1)
    requires a.page == rows[l][i].page && a.node.right == Some(b.page) && b.node.right == rows[l][i].node.right
    ensures RowsOk(z, rows[l := Put(rows[l], i, i + 1, [a, b])])
  {
    assert NodesOk(z, rows[l], l == |rows| - 1) && Linked(rows[l]);
    PutNodes(z, rows[l], l == |rows| - 1, i, i + 1, [a, b]);
    LinkedSplit(rows[l], i, a, b);
    hide Linked, NodesOk;
    EditRow(z, rows, l, Put(rows[l], i, i + 1, [a, b]));
  }

  lemma {:induction false} RewriteRowsOk(z: Sizes, rows: Rows, l: nat, i: nat, c: Cell)
    requires RowsOk(z, rows) && l < |rows| && i < |rows[l]| && NodeOk(z, c.node, l == |rows| - 1)
    requires c.page == rows[l][i].page && c.node.right == rows[l][i].node.right
    ensures RowsOk(z, rows[l := Put(rows[l], i, i + 1, [c])])
  {
    assert NodesOk(z, rows[l], l == |rows| - 1) && Linked(rows[l]);
    PutNodes(z, rows[l], l == |rows| - 1, i, i + 1, [c]);
    LinkedRewrite(rows[l], i, c);
    hide Linked, NodesOk;
    EditRow(z, rows, l, Put(rows[l], i, i + 1, [c]));
  }

  lemma {:induction false} OneNodeOk(z: Sizes, rows: Rows, l: nat, i: nat)
    requires RowsOk(z, rows) && l < |rows| && i < |rows[l]|
    ensures NodeOk(z, rows[l][i].node, l == |rows| - 1)
  {
  }

  /** The row that did not describe the one below now does; the row above it may not. */
  lemma {:induction false} MendRow(rows: Rows, l: nat, row: Row)
    requires l + 1 < |rows| && NestedExcept(rows, l) && Flat(row) == Face(rows[l + 1])
    ensures NestedExcept(rows[l := row], l - 1)
    ensures Face(row) == Face(rows[l]) ==> NestedExcept(rows[l := row], -1)
  {
    hide Flat;
    var rows' := rows[l := row];
    forall k | 0 <= k < |rows'| - 1 && (k != l - 1 || Face(row) == Face(rows[l])) ensures Nested(rows', k) {
      if k != l { assert Nested(rows, k); }
    }
  }

  /** A row rewritten under the same description changes nothing above it. */
  lemma {:induction false} SameFaceNests(rows: Rows, l: nat, row: Row, skip: int)
    requires l < |rows| && Face(row) == Face(rows[l]) && NestedExcept(rows, skip)
    requires l < |rows| - 1 && l != skip ==> Flat(row) == Face(rows[l + 1])
    ensures NestedExcept(rows[l := row], skip)
  {
    var rows' := rows[l := row];
    forall m | 0 <= m < |rows'| - 1 && m != skip ensures Nested(rows', m) {
      assert Nested(rows, m);
    }
  }

  /** New entries for leaf i, within its bounds. */
  lemma {:induction false} LeafRewrite(z: Sizes, rows: Rows, i: nat, entries: seq<Entry>)
    requires TreeOk(z, rows) && i < |Leaves(rows)| && CanFit(z, true, |entries|) && SortedKeys(entries)
    requires forall k :: 0 <= k < |entries| ==> Covers(Leaves(rows), i, entries[k].key)
    ensures var row := Leaves(rows); var row' :=
        Put(row, i, i + 1, [Cell(row[i].page, row[i].node.(entries := entries))]);
            TreeOk(z, rows[|rows| - 1 := row'])
  {
    var row, l := Leaves(rows), |rows| - 1;
    var c := Cell(row[i].page, row[i].node.(entries := entries));
    var row' := Put(row, i, i + 1, [c]);
    OneNodeOk(z, rows, l, i);
    RewriteRowsOk(z, rows, l, i, c);
    assert Face(row') == Face(row);
    SameFaceNests(rows, l, row', -1);
    forall k | 0 <= k < |row'| ensures LeafOk(row', k) { assert LeafOk(row, k); }
    assert l == 0 ==> |row'| == 1;
  }

  lemma {:induction false} SplitIncreasing(row: Row, i: nat, a: Cell, b: Cell)
    requires Increasing(Face(row)) && i < |row| && a.node.high.Some? && b.node.high == row[i].node.high
    requires i > 0 ==> row[i - 1].node.high.Some? && row[i - 1].node.high.value < a.node.high.value
    requires row[i].node.high.Some? ==> a.node.high.value < row[i].node.high.value
    ensures Increasing(Face(Put(row, i, i + 1, [a, b])))
  {
    var row' := Put(row, i, i + 1, [a, b]);
    var f, g := Face(row), Face(row');
    assert forall k :: 0 <= k < i ==> row'[k] == row[k];
    assert row'[i] == a && row'[i + 1] == b;
    assert forall k :: i + 1 < k < |row'| ==> row'[k] == row[k - 1];
    IncreasingInsert(f, g, i);
  }

  /** One more bound between its neighbours. */
  lemma {:induction false} IncreasingInsert(f: seq<Slot>, g: seq<Slot>, i: nat)
    requires Increasing(f) && i < |f| && |g| == |f| + 1 && g[i].bound.Some?
    requires forall k :: 0 <= k < i ==> g[k].bound == f[k].bound
    requires forall k :: i < k < |g| ==> g[k].bound == f[k - 1].bound
    requires i > 0 ==> f[i - 1].bound.value < g[i].bound.value
    requires f[i].bound.Some? ==> g[i].bound.value < f[i].bound.value
    ensures Increasing(g)
  {
  }

  /** Leaf i keeps the entries before m, a new leaf after it takes the rest. */
  lemma {:induction false} LeafSplit(z: Sizes, rows: Rows, i: nat, entries: seq<Entry>, m: nat, a: Cell, b: Cell)
    requires TreeOk(z, rows) && i < |Leaves(rows)| && 0 < m < |entries| && SortedKeys(entries)
    requires forall k :: 0 <= k < |entries| ==> Covers(Leaves(rows), i, entries[k].key)
    requires a == Cell(Leaves(rows)[i].page, MakeLeaf(entries[..m], Some(b.page), Some(entries[m].key)))
    requires b.node == MakeLeaf(entries[m..], Leaves(rows)[i].node.right, Leaves(rows)[i].node.high)
    requires CanFit(z, true, m) && CanFit(z, true, |entries| - m)
    ensures Pending(z, rows[|rows| - 1 := Put(Leaves(rows), i, i + 1, [a, b])], |rows| - 1, i)
  {
    var row, l := Leaves(rows), |rows| - 1;
    var row' := Put(row, i, i + 1, [a, b]);
    var rows' := rows[l := row'];
    SplitRowsOk(z, rows, l, i, a, b);
    LeafSplitLeaves(row, i, entries, m, a, b);
    SplitFace(row, i, a, b);
    forall k | 0 <= k < |rows'| - 1 && k != l - 1 ensures Nested(rows', k) { assert Nested(rows, k); }
    if l > 0 { assert Nested(rows, l - 1); }
  }

  lemma {:induction false} SplitFace(row: Row, i: nat, a: Cell, b: Cell)
    requires i < |row| && a.page == row[i].page && b.node.high == row[i].node.high
    ensures i + 1 < |Put(row, i, i + 1, [a, b])| && Joined(Face(Put(row, i, i + 1, [a, b])), i) == Face(row)
  {
  }

  /** A leaf whose entries and bounds are those of a leaf of another row. */
  lemma {:induction false} LeafOkMoved(row: Row, k: nat, row': Row, k': nat)
    requires k < |row| && k' < |row'| && LeafOk(row, k)
    requires row'[k'].node.entries == row[k].node.entries && row'[k'].node.high == row[k].node.high
    requires k' > 0 ==> k > 0 && row'[k' - 1].node.high == row[k - 1].node.high
    ensures LeafOk(row', k')
  {
  }

  lemma {:induction false} LeafSplitLeaves(row: Row, i: nat, entries: seq<Entry>, m: nat, a: Cell, b: Cell)
    requires LeavesOk(row) && i < |row| && 0 < m < |entries| && SortedKeys(entries)
    requires forall k :: 0 <= k < |entries| ==> Covers(row, i, entries[k].key)
    requires a == Cell(row[i].page, MakeLeaf(entries[..m], Some(b.page), Some(entries[m].key)))
    requires b.node == MakeLeaf(entries[m..], row[i].node.right, row[i].node.high)
    ensures LeavesOk(Put(row, i, i + 1, [a, b]))
  {
    var row' := Put(row, i, i + 1, [a, b]);
    assert Covers(row, i, entries[m].key) && Covers(row, i, entries[m - 1].key);
    hide LeafOk;
    SplitIncreasing(row, i, a, b);
    hide Increasing, Covers, SortedKeys;
    forall k | 0 <= k < |row'| ensures LeafOk(row', k) {
      if k < i { LeafOkMoved(row, k, row', k); }
      else if k > i + 1 { LeafOkMoved(row, k - 1, row', k); }
      else { HalfOk(row, i, entries, m, a, b, k); }
    }
  }

  lemma {:induction false} HalfOk(row: Row, i: nat, entries: seq<Entry>, m: nat, a: Cell, b: Cell, k: nat)
    requires i < |row| && 0 < m < |entries| && SortedKeys(entries) && (k == i || k == i + 1)
    requires forall x :: 0 <= x < |entries| ==> Covers(row, i, entries[x].key)
    requires a == Cell(row[i].page, MakeLeaf(entries[..m], Some(b.page), Some(entries[m].key)))
    requires b.node == MakeLeaf(entries[m..], row[i].node.right, row[i].node.high)
    ensures LeafOk(Put(row, i, i + 1, [a, b]), k)
  {
  }

  /** ---------- The parent takes the separator ---------- */

  /** The parent node with the separator of the split child put in. */
  ghost function Absorbed(rows: Rows, l: nat, pi: nat, j: nat): Node
    requires 0 < l < |rows| && pi < |rows[l - 1]| && j <= |rows[l - 1][pi].node.entries|
    requires Offset(rows[l - 1], pi) + j + 1 < |rows[l]| && rows[l][Offset(rows[l - 1], pi) + j].node.high.Some?
  {
    var n, i := rows[l - 1][pi].node, Offset(rows[l - 1], pi) + j;
    n.(entries := InsertAt(n.entries, j, Entry(rows[l][i].node.high.value, rows[l][i + 1].page)))
  }

  /** With the separator in, the slots of the parent's row describe the split row. */
  lemma {:induction false} AbsorbedFlat(z: Sizes, rows: Rows, l: nat, pi: nat, j: nat)
    requires 0 < l < |rows| && pi < |rows[l - 1]| && j <= |rows[l - 1][pi].node.entries|
    requires Pending(z, rows, l, Offset(rows[l - 1], pi) + j)
    ensures rows[l][Offset(rows[l - 1], pi) + j].node.high.Some?
    ensures Face(rows[l]) == Flat(rows[l - 1][..pi]) + Slots(Absorbed(rows, l, pi, j)) + Flat(rows[l - 1][pi + 1..])
  {
    var prow, f, i := rows[l - 1], Face(rows[l]), Offset(rows[l - 1], pi) + j;
    var n := prow[pi].node;
    RowIncreasing(rows, l - 1, l);
    assert f[i].bound.Some?;
    Around(prow, pi, pi + 1);
    assert prow[pi..pi + 1] == [prow[pi]];
    FlatOne(prow[pi]);
    Unjoin(f, i, Flat(prow[..pi]), Slots(n), j, Flat(prow[pi + 1..]));
    SlotsInsert(n, j, Entry(f[i].bound.value, f[i + 1].page));
  }

  lemma {:induction false} ParentAbsorbs(z: Sizes, rows: Rows, l: nat, pi: nat, j: nat, c: Cell)
    requires 0 < l < |rows| && pi < |rows[l - 1]| && j <= |rows[l - 1][pi].node.entries|
    requires Pending(z, rows, l, Offset(rows[l - 1], pi) + j)
    requires rows[l][Offset(rows[l - 1], pi) + j].node.high.Some?
    requires c == Cell(rows[l - 1][pi].page, Absorbed(rows, l, pi, j))
    requires CanFit(z, false, |c.node.entries|)
    ensures TreeOk(z, rows[l - 1 := Put(rows[l - 1], pi, pi + 1, [c])])
  {
    var prow := rows[l - 1];
    var prow' := Put(prow, pi, pi + 1, [c]);
    AbsorbedFlat(z, rows, l, pi, j);
    PutFlat(prow, pi, pi + 1, [c]);
    FlatOne(c);
    assert Flat(prow') == Face(rows[l]);
    OneNodeOk(z, rows, l - 1, pi);
    hide Flat, Slots, RowsOk, LeavesOk;
    RewriteRowsOk(z, rows, l - 1, pi, c);
    assert Face(prow') == Face(prow);
    MendRow(rows, l - 1, prow');
  }

  /** The parent does not fit and splits in turn: the separator moves one row up. */
  lemma {:induction false} ParentSplits(z: Sizes, rows: Rows, l: nat, pi: nat, j: nat, m: nat, a: Cell, b: Cell)
    requires 0 < l < |rows| && pi < |rows[l - 1]| && j <= |rows[l - 1][pi].node.entries|
    requires Pending(z, rows, l, Offset(rows[l - 1], pi) + j) && rows[l][Offset(rows[l - 1], pi) + j].node.high.Some?
    requires var n := Absorbed(rows, l, pi, j);
             && m < |n.entries| && CanFit(z, false, m) && CanFit(z, false, |n.entries| - m - 1)
             && a == Cell(rows[l - 1][pi].page,
                          MakeInternal(n.leftmost, n.entries[..m], Some(b.page), Some(n.entries[m].key)))
             && b.node == MakeInternal(n.entries[m].ref, n.entries[m + 1..], n.right, n.high)
    ensures Pending(z, rows[l - 1 := Put(rows[l - 1], pi, pi + 1, [a, b])], l - 1, pi)
  {
    hide RowsOk, LeavesOk, Flat, Slots, Put;
    var prow, n := rows[l - 1], Absorbed(rows, l, pi, j);
    var prow' := Put(prow, pi, pi + 1, [a, b]);
    AbsorbedFlat(z, rows, l, pi, j);
    assert n.right == prow[pi].node.right && n.high == prow[pi].node.high;
    hide Absorbed;
    assert Flat(prow') == Face(rows[l]) by {
      SlotsSplit(n, a.node, b.node, m);
      PutFlat(prow, pi, pi + 1, [a, b]);
      FlatTwo(a, b);
    }
    SplitRowsOk(z, rows, l - 1, pi, a, b);
    SplitFace(prow, pi, a, b);
    PutLength(prow, pi, a, b);
    MendRow(rows, l - 1, prow');
    if l > 1 { assert Nested(rows, l - 2); }
  }

  lemma {:induction false} PutLength(row: Row, i: nat, a: Cell, b: Cell)
    requires i < |row|
    ensures |Put(row, i, i + 1, [a, b])| == |row| + 1
  {
  }

  /** The root was split: a new root describes the two halves. */
  lemma {:induction false} NewRoot(z: Sizes, rows: Rows, c: Cell)
    requires Pending(z, rows, 0, 0) && CanFit(z, false, 1) && rows[0][0].node.high.Some?
    requires c.node == MakeInternal(rows[0][0].page, [Entry(rows[0][0].node.high.value, rows[0][1].page)], None, None)
    ensures TreeOk(z, [[c]] + rows)
  {
    var rows' := [[c]] + rows;
    RowIncreasing(rows, -1, 0);
    FlatOne(c);
    assert Flat([c]) == Face(rows[0]);
    forall l | 0 <= l < |rows'| ensures NodesOk(z, rows'[l], l == |rows'| - 1) && Linked(rows'[l]) {
      if l > 0 { assert NodesOk(z, rows[l - 1], l - 1 == |rows| - 1) && Linked(rows[l - 1]); }
    }
    forall l | 0 <= l < |rows'| - 1 ensures Nested(rows', l) {
      if l > 0 { assert Nested(rows, l - 1); }
    }
  }

  /** ---------- Borrowing and merging ---------- */

  lemma {:induction false} IncreasingDrop(f: seq<Slot>, g: seq<Slot>, i: nat)
    requires Increasing(f) && i + 1 < |f| && |g| == |f| - 1
    requires forall k :: 0 <= k < i ==> g[k].bound == f[k].bound
    requires forall k :: i <= k < |g| ==> g[k].bound == f[k + 1].bound
    ensures Increasing(g)
  {
  }

  /** Two neighbouring leaves in one. */
  function MergedLeaf(a: Node, b: Node): Node { MakeLeaf(a.entries + b.entries, b.right, b.high) }

  /** Two neighbouring internal nodes in one: the separator comes down between them. */
  function MergedInternal(a: Node, b: Node, separator: Key): Node {
    MakeInternal(a.leftmost, a.entries + [Entry(separator, b.leftmost)] + b.entries, b.right, b.high)
  }

  function Merged(a: Node, b: Node, separator: Key): Node {
    if a.leaf then MergedLeaf(a, b) else MergedInternal(a, b, separator)
  }

  /** A node cut in two before entry m, the right part on page p. */
  function CutLeft(n: Node, m: nat, p: PageNo): Node
    requires m < |n.entries|
  {
    if n.leaf then MakeLeaf(n.entries[..m], Some(p), Some(n.entries[m].key))
    else MakeInternal(n.leftmost, n.entries[..m], Some(p), Some(n.entries[m].key))
  }

  function CutRight(n: Node, m: nat): Node
    requires m < |n.entries|
  {
    if n.leaf then MakeLeaf(n.entries[m..], n.right, n.high)
    else MakeInternal(n.entries[m].ref, n.entries[m + 1..], n.right, n.high)
  }

  lemma {:induction false} LeafMergeLeaves(row: Row, i: nat)
    requires LeavesOk(row) && i + 1 < |row|
    ensures LeavesOk(Put(row, i, i + 2, [Cell(row[i].page, MergedLeaf(row[i].node, row[i + 1].node))]))
  {
    var a, b := row[i].node, row[i + 1].node;
    var row' := Put(row, i, i + 2, [Cell(row[i].page, MergedLeaf(a, b))]);
    assert Increasing(Face(row'))  by {
      assert forall k :: 0 <= k < i ==> row'[k] == row[k];
      assert forall k :: i < k < |row'| ==> row'[k] == row[k + 1];
      IncreasingDrop(Face(row), Face(row'), i);
    }
    assert LeafOk(row, i) && LeafOk(row, i + 1);
    MergedOk(row, i);
    hide LeafOk, Increasing;
    forall k | 0 <= k < |row'| ensures LeafOk(row', k) {
      if k < i { LeafOkMoved(row, k, row', k); }
      else if k > i { LeafOkMoved(row, k + 1, row', k); }
    }
  }

  lemma {:induction false} MergedOk(row: Row, i: nat)
    requires i + 1 < |row| && LeafOk(row, i) && LeafOk(row, i + 1) && Increasing(Face(row))
    ensures LeafOk(Put(row, i, i + 2, [Cell(row[i].page, MergedLeaf(row[i].node, row[i + 1].node))]), i)
  {
  }

  /** The entries of two neighbouring leaves divided anew before entry m. */
  lemma {:induction false} LeafBorrowLeaves(row: Row, i: nat, m: nat, a: Cell, b: Cell)
    requires LeavesOk(row) && i + 1 < |row|
    requires var all := row[i].node.entries + row[i + 1].node.entries;
             && 0 < m < |all|
             && a == Cell(row[i].page, MakeLeaf(all[..m], Some(b.page), Some(all[m].key)))
             && b.node == MakeLeaf(all[m..], row[i + 1].node.right, row[i + 1].node.high)
    ensures LeavesOk(Put(row, i, i + 2, [a, b]))
  {
    var all := row[i].node.entries + row[i + 1].node.entries;
    var c := Cell(row[i].page, MergedLeaf(row[i].node, row[i + 1].node));
    LeafMergeLeaves(row, i);
    assert LeafOk(Put(row, i, i + 2, [c]), i);
    hide LeavesOk, LeafOk, Covers;
    PutPut(row, i, c, [a, b]);
    Redivide(Put(row, i, i + 2, [c]), i, m, a, b);
  }

  lemma {:induction false} PutPut(row: Row, i: nat, c: Cell, mid: Row)
    requires i + 1 < |row|
    ensures |Put(row, i, i + 2, [c])| > i && Put(row, i, i + 2, [c])[i] == c
    ensures Put(Put(row, i, i + 2, [c]), i, i + 1, mid) == Put(row, i, i + 2, mid)
  {
  }

  lemma {:induction false} Redivide(row: Row, i: nat, m: nat, a: Cell, b: Cell)
    requires LeavesOk(row) && i < |row| && 0 < m < |row[i].node.entries|
    requires a == Cell(row[i].page, MakeLeaf(row[i].node.entries[..m], Some(b.page), Some(row[i].node.entries[m].key)))
    requires b.node == MakeLeaf(row[i].node.entries[m..], row[i].node.right, row[i].node.high)
    ensures LeavesOk(Put(row, i, i + 1, [a, b]))
  {
    assert LeafOk(row, i);
    hide LeavesOk;
    LeafSplitLeaves(row, i, row[i].node.entries, m, a, b);
  }

  /** What the row below, or the leaf order, asks of a row that was rearranged. */
  ghost predicate Rearranged(rows: Rows, l: nat, row: Row)
    requires l < |rows|
  {
    if l < |rows| - 1 then Flat(row) == Flat(rows[l]) else LeavesOk(row)
  }

  /** Child and parent rows changed together. */
  lemma {:induction false} TwoRows(z: Sizes, rows: Rows, l: nat, row: Row, prow: Row)
    requires TreeOk(z, rows) && 0 < l < |rows| && Rearranged(rows, l, row)
    requires NodesOk(z, row, l == |rows| - 1) && Linked(row) && NodesOk(z, prow, false) && Linked(prow)
    requires Flat(prow) == Face(row) && Face(prow) == Face(rows[l - 1])
    ensures TreeOk(z, rows[l := row][l - 1 := prow])
  {
    hide Flat, Linked, NodesOk, LeavesOk;
    var rows' := rows[l := row][l - 1 := prow];
    assert |prow| == |Face(prow)| == |rows[l - 1]|;
    forall k | 0 <= k < |rows'| - 1 ensures Nested(rows', k) {
      if k != l - 1 { assert Nested(rows, k); }
    }
  }

  /** An entry moves between nodes i and i + 1, children j and j + 1 of one parent, and the
      separator between them moves with it. */
  lemma {:induction false} BorrowOk(z: Sizes, rows: Rows, l: nat, pi: nat, j: nat, a: Cell, b: Cell)
    requires TreeOk(z, rows) && 0 < l < |rows| && pi < |rows[l - 1]| && j < |rows[l - 1][pi].node.entries|
    requires IsChild(rows, l - 1, pi, j + 1, Offset(rows[l - 1], pi) + j + 1)
    requires var x, y := rows[l][Offset(rows[l - 1], pi) + j], rows[l][Offset(rows[l - 1], pi) + j + 1];
             && a.page == x.page && b.page == y.page && a.node.right == x.node.right && b.node.right == y.node.right
             && a.node.high.Some? && b.node.high == y.node.high
    requires NodeOk(z, a.node, l == |rows| - 1) && NodeOk(z, b.node, l == |rows| - 1)
    requires Rearranged(rows, l, Put(rows[l], Offset(rows[l - 1], pi) + j, Offset(rows[l - 1], pi) + j + 2, [a, b]))
    ensures var i, n := Offset(rows[l - 1], pi) + j, rows[l - 1][pi].node;
            var c := Cell(rows[l - 1][pi].page, n.(entries := n.entries[j := n.entries[j].(key := a.node.high.value)]));
            TreeOk(z, rows[l := Put(rows[l], i, i + 2, [a, b])][l - 1 := Put(rows[l - 1], pi, pi + 1, [c])])
  {
    hide Rearranged, LeavesOk;
    var prow, row, i := rows[l - 1], rows[l], Offset(rows[l - 1], pi) + j;
    var n := prow[pi].node;
    var c := Cell(prow[pi].page, n.(entries := n.entries[j := n.entries[j].(key := a.node.high.value)]));
    var row', prow' := Put(row, i, i + 2, [a, b]), Put(prow, pi, pi + 1, [c]);
    BorrowFaces(rows, l, pi, j, a, b, c);
    assert NodesOk(z, row, l == |rows| - 1) && Linked(row) && NodesOk(z, prow, false) && Linked(prow);
    OneNodeOk(z, rows, l - 1, pi);
    hide RowsOk, NodesOk, Linked, Flat;
    assert NodesOk(z, row', l == |rows| - 1) by {
      PairOk(z, a, b, l == |rows| - 1);
      PutNodes(z, row, l == |rows| - 1, i, i + 2, [a, b]);
    }
    LinkedTwo(row, i, a, b);
    assert NodesOk(z, prow', false) by { SingleOk(z, c, false); PutNodes(z, prow, false, pi, pi + 1, [c]); }
    LinkedRewrite(prow, pi, c);
    TwoRows(z, rows, l, row', prow');
  }

  lemma PairOk(z: Sizes, a: Cell, b: Cell, leaf: bool)
    requires NodeOk(z, a.node, leaf) && NodeOk(z, b.node, leaf)
    ensures NodesOk(z, [a, b], leaf)
  {
  }

  lemma SingleOk(z: Sizes, c: Cell, leaf: bool)
    requires NodeOk(z, c.node, leaf)
    ensures NodesOk(z, [c], leaf)
  {
  }

  lemma {:induction false} BorrowFaces(rows: Rows, l: nat, pi: nat, j: nat, a: Cell, b: Cell, c: Cell)
    requires 0 < l < |rows| && pi < |rows[l - 1]| && j < |rows[l - 1][pi].node.entries| && Nested(rows, l - 1)
    requires IsChild(rows, l - 1, pi, j + 1, Offset(rows[l - 1], pi) + j + 1)
    requires var x, y := rows[l][Offset(rows[l - 1], pi) + j], rows[l][Offset(rows[l - 1], pi) + j + 1];
             a.page == x.page && b.page == y.page && a.node.high.Some? && b.node.high == y.node.high
    requires var n := rows[l - 1][pi].node;
             c == Cell(rows[l - 1][pi].page, n.(entries := n.entries[j := n.entries[j].(key := a.node.high.value)]))
    ensures var i := Offset(rows[l - 1], pi) + j;
            && Flat(Put(rows[l - 1], pi, pi + 1, [c])) == Face(Put(rows[l], i, i + 2, [a, b]))
            && Face(Put(rows[l - 1], pi, pi + 1, [c])) == Face(rows[l - 1])
  {
    var prow, row, i := rows[l - 1], rows[l], Offset(rows[l - 1], pi) + j;
    var n := prow[pi].node;
    assert Face(Put(prow, pi, pi + 1, [c])) == Face(prow);
    FlatAround(rows, l, pi, c);
    SlotsSetKey(n, j, a.node.high.value);
    var p, s, q := Flat(prow[..pi]), Slots(n), Flat(prow[pi + 1..]);
    assert |s| == |n.entries| + 1 && ChildAt(n, j) == s[j].page;
    hide Flat, Slots;
    var f := Face(row);
    assert f == p + s + q;
    SetInside(f, i, p, s, j, q, Slot(a.page, a.node.high));
    PairFace(row, i, a, b);
  }

  lemma {:induction false} PairFace(row: Row, i: nat, a: Cell, b: Cell)
    requires i + 1 < |row| && b.page == row[i + 1].page && b.node.high == row[i + 1].node.high
    ensures Face(Put(row, i, i + 2, [a, b])) == Face(row)[i := Slot(a.page, a.node.high)]
  {
  }

  lemma {:induction false} OneFace(row: Row, i: nat, a: Cell)
    requires i + 1 < |row|
    ensures Face(Put(row, i, i + 2, [a])) == Face(row)[..i] + [Slot(a.page, a.node.high)] + Face(row)[i + 2..]
  {
  }

  /** The slots of the parent's row around one parent, before and after it is rewritten. */
  lemma {:induction false} FlatAround(rows: Rows, l: nat, pi: nat, c: Cell)
    requires 0 < l < |rows| && pi < |rows[l - 1]| && Nested(rows, l - 1)
    ensures var prow := rows[l - 1];
            && Face(rows[l]) == Flat(prow[..pi]) + Slots(prow[pi].node) + Flat(prow[pi + 1..])
            && Flat(Put(prow, pi, pi + 1, [c])) == Flat(prow[..pi]) + Slots(c.node) + Flat(prow[pi + 1..])
  {
    var prow := rows[l - 1];
    PutFlat(prow, pi, pi + 1, [c]);
    FlatOne(c);
    Around(prow, pi, pi + 1);
    assert prow[pi..pi + 1] == [prow[pi]];
    FlatOne(prow[pi]);
  }

  lemma {:induction false} SetInside(f: seq<Slot>, i: nat, p: seq<Slot>, s: seq<Slot>, j: nat, q: seq<Slot>, v: Slot)
    requires f == p + s + q && j < |s| && i == |p| + j
    ensures f[i] == s[j] && f[i := v] == p + s[j := v] + q
  {
  }

  lemma {:induction false} JoinInside(f: seq<Slot>, i: nat, p: seq<Slot>, s: seq<Slot>, j: nat, q: seq<Slot>, v: Slot)
    requires f == p + s + q && j + 1 < |s| && i == |p| + j
    ensures f[i] == s[j] && f[i + 1] == s[j + 1]
    ensures f[..i] + [v] + f[i + 2..] == p + (s[..j] + [v] + s[j + 2..]) + q
  {
  }

  /** Node i + 1 goes into node i and the separator between them goes away. */
  lemma {:induction false} MergeOk(z: Sizes, rows: Rows, l: nat, pi: nat, j: nat, a: Cell)
    requires TreeOk(z, rows) && 0 < l < |rows| && pi < |rows[l - 1]| && j < |rows[l - 1][pi].node.entries|
    requires IsChild(rows, l - 1, pi, j + 1, Offset(rows[l - 1], pi) + j + 1)
    requires var x, y := rows[l][Offset(rows[l - 1], pi) + j], rows[l][Offset(rows[l - 1], pi) + j + 1];
             a.page == x.page && a.node.right == y.node.right && a.node.high == y.node.high
    requires NodeOk(z, a.node, l == |rows| - 1)
    requires Rearranged(rows, l, Put(rows[l], Offset(rows[l - 1], pi) + j, Offset(rows[l - 1], pi) + j + 2, [a]))
    ensures var i, n := Offset(rows[l - 1], pi) + j, rows[l - 1][pi].node;
            var c := Cell(rows[l - 1][pi].page, n.(entries := EraseAt(n.entries, j)));
            TreeOk(z, rows[l := Put(rows[l], i, i + 2, [a])][l - 1 := Put(rows[l - 1], pi, pi + 1, [c])])
  {
    hide Rearranged, LeavesOk;
    var prow, row, i := rows[l - 1], rows[l], Offset(rows[l - 1], pi) + j;
    var n := prow[pi].node;
    var c := Cell(prow[pi].page, n.(entries := EraseAt(n.entries, j)));
    var row', prow' := Put(row, i, i + 2, [a]), Put(prow, pi, pi + 1, [c]);
    MergeFaces(rows, l, pi, j, a, c);
    assert NodesOk(z, row, l == |rows| - 1) && Linked(row) && NodesOk(z, prow, false) && Linked(prow);
    OneNodeOk(z, rows, l - 1, pi);
    FewerFit(z, false, |n.entries|, |n.entries| - 1);
    hide RowsOk, NodesOk, Linked, Flat;
    assert NodesOk(z, row', l == |rows| - 1) by {
      SingleOk(z, a, l == |rows| - 1);
      PutNodes(z, row, l == |rows| - 1, i, i + 2, [a]);
    }
    LinkedMerge(row, i, a);
    assert NodesOk(z, prow', false) by { SingleOk(z, c, false); PutNodes(z, prow, false, pi, pi + 1, [c]); }
    LinkedRewrite(prow, pi, c);
    TwoRows(z, rows, l, row', prow');
  }

  lemma {:induction false} SameFace(row: Row, i: nat, c: Cell)
    requires i < |row| && c.page == row[i].page && c.node.high == row[i].node.high
    ensures Face(Put(row, i, i + 1, [c])) == Face(row)
  {
  }

  lemma {:induction false} MergeFaces(rows: Rows, l: nat, pi: nat, j: nat, a: Cell, c: Cell)
    requires 0 < l < |rows| && pi < |rows[l - 1]| && j < |rows[l - 1][pi].node.entries| && Nested(rows, l - 1)
    requires IsChild(rows, l - 1, pi, j + 1, Offset(rows[l - 1], pi) + j + 1)
    requires var x, y := rows[l][Offset(rows[l - 1], pi) + j], rows[l][Offset(rows[l - 1], pi) + j + 1];
             a.page == x.page && a.node.high == y.node.high
    requires c == Cell(rows[l - 1][pi].page, rows[l - 1][pi].node.(entries := EraseAt(rows[l - 1][pi].node.entries, j)))
    ensures var i := Offset(rows[l - 1], pi) + j;
            && Flat(Put(rows[l - 1], pi, pi + 1, [c])) == Face(Put(rows[l], i, i + 2, [a]))
            && Face(Put(rows[l - 1], pi, pi + 1, [c])) == Face(rows[l - 1])
  {
    var prow, row, i := rows[l - 1], rows[l], Offset(rows[l - 1], pi) + j;
    var n := prow[pi].node;
    SameFace(prow, pi, c);
    FlatAround(rows, l, pi, c);
    SlotsErase(n, j);
    var p, s, q := Flat(prow[..pi]), Slots(n), Flat(prow[pi + 1..]);
    assert |s| == |n.entries| + 1 && ChildAt(n, j) == s[j].page && BoundAt(n, j + 1) == s[j + 1].bound;
    hide Flat, Slots;
    var f := Face(row);
    JoinInside(f, i, p, s, j, q, Slot(a.page, a.node.high));
    OneFace(row, i, a);
  }

  /** A root with one child gives way to it. */
  lemma {:induction false} CollapseOk(z: Sizes, rows: Rows)
    requires TreeOk(z, rows) && |rows| > 1 && rows[0][0].node.entries == []
    ensures TreeOk(z, rows[1..]) && rows[1][0].page == rows[0][0].node.leftmost
  {
    assert Nested(rows, 0);
    FlatOne(rows[0][0]);
    assert rows[0] == [rows[0][0]];
    assert Face(rows[1])[0] == Slots(rows[0][0].node)[0];
    forall l | 0 <= l < |rows[1..]| - 1 ensures Nested(rows[1..], l) { assert Nested(rows, l + 1); }
  }

  lemma {:induction false} MergedSlots(a: Node, b: Node, separator: Key)
    requires a.high == Some(separator)
    ensures Slots(MergedInternal(a, b, separator)) == Slots(a) + Slots(b)
  {
  }

  /** Merging nodes x and x + 1 rearranges their row. */
  lemma {:induction false} MergeRearranges(z: Sizes, rows: Rows, l: nat, x: nat, separator: Key)
    requires TreeOk(z, rows) && l < |rows| && x + 1 < |rows[l]| && rows[l][x].node.high == Some(separator)
    ensures Rearranged(rows, l,
          Put(rows[l], x, x + 2, [Cell(rows[l][x].page, Merged(rows[l][x].node, rows[l][x + 1].node, separator))]))
  {
    var row, a, b := rows[l], rows[l][x], rows[l][x + 1];
    var c := Cell(a.page, Merged(a.node, b.node, separator));
    OneNodeOk(z, rows, l, x);
    if l < |rows| - 1 {
      hide *;
      FlatPair(row, x);
      MergedSlots(a.node, b.node, separator);
      PutFlat(row, x, x + 2, [c]);
      FlatOne(c);
      MergedIsInternal(a.node, b.node, separator);
      RearrangedFlat(rows, l, Put(row, x, x + 2, [c]));
    } else {
      LeafMergeLeaves(row, x);
    }
  }

  lemma RearrangedFlat(rows: Rows, l: nat, row: Row)
    requires l < |rows| - 1 && Flat(row) == Flat(rows[l])
    ensures Rearranged(rows, l, row)
  {
  }

  lemma MergedIsInternal(a: Node, b: Node, separator: Key)
    requires !a.leaf
    ensures Merged(a, b, separator) == MergedInternal(a, b, separator)
  {
  }

  lemma {:induction false} FlatPair(row: Row, x: nat)
    requires x + 1 < |row|
    ensures Flat(row) == Flat(row[..x]) + (Slots(row[x].node) + Slots(row[x + 1].node)) + Flat(row[x + 2..])
    ensures Stored(row) == Stored(row[..x]) + (row[x].node.entries + row[x + 1].node.entries) + Stored(row[x + 2..])
  {
    Around(row, x, x + 2);
    assert row[x..x + 2] == [row[x], row[x + 1]];
    FlatTwo(row[x], row[x + 1]);
  }

  lemma {:induction false} CutSlots(n: Node, m: nat, p: PageNo)
    requires m < |n.entries| && !n.leaf
    ensures Slots(CutLeft(n, m, p)) + Slots(CutRight(n, m)) == Slots(n)
  {
  }

  /** Cutting the merged node elsewhere rearranges the row too: this is borrowing. */
  lemma {:induction false} BorrowRearranges(z: Sizes, rows: Rows, l: nat, x: nat, separator: Key, m: nat)
    requires TreeOk(z, rows) && l < |rows| && x + 1 < |rows[l]| && rows[l][x].node.high == Some(separator)
    requires 0 < m < |Merged(rows[l][x].node, rows[l][x + 1].node, separator).entries|
    ensures var a, b := rows[l][x], rows[l][x + 1];
            var n := Merged(a.node, b.node, separator);
            Rearranged(rows, l, Put(rows[l], x, x + 2,
                                    [Cell(a.page, CutLeft(n, m, b.page)), Cell(b.page, CutRight(n, m))]))
  {
    var row, a, b := rows[l], rows[l][x], rows[l][x + 1];
    var n := Merged(a.node, b.node, separator);
    var c, d := Cell(a.page, CutLeft(n, m, b.page)), Cell(b.page, CutRight(n, m));
    OneNodeOk(z, rows, l, x);
    if l < |rows| - 1 {
      hide *;
      MergedIsInternal(a.node, b.node, separator);
      InternalIsNotLeaf(a.node, b.node, separator);
      FlatPair(row, x);
      MergedSlots(a.node, b.node, separator);
      CutSlots(n, m, b.page);
      PutFlat(row, x, x + 2, [c, d]);
      FlatTwo(c, d);
      RearrangedFlat(rows, l, Put(row, x, x + 2, [c, d]));
    } else {
      LeafBorrowLeaves(row, x, m, c, d);
    }
  }

  lemma InternalIsNotLeaf(a: Node, b: Node, separator: Key)
    ensures !MergedInternal(a, b, separator).leaf
  {
  }

  /** Neither borrowing nor merging changes what the leaves hold. */
  lemma {:induction false} PairStored(row: Row, x: nat, mid: Row)
    requires x + 1 < |row| && Stored(mid) == row[x].node.entries + row[x + 1].node.entries
    ensures Stored(Put(row, x, x + 2, mid)) == Stored(row)
  {
    FlatPair(row, x);
    PutFlat(row, x, x + 2, mid);
  }
}
