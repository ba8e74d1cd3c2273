/** The fix-up after a delete, as functions of the pages: what borrowing and merging make of
    them, when the fix-up can do neither, and when a delete therefore fails. Its failing paths
    unpin the page they stand at as clean, so its last rewrite may be dropped; the second part
    says what is left then (access/btree_delete_entry.cpp). */
module BTreeFixUp {
  import opened Options
  import opened BTreeNodes
  import opened BTreeShape
  import opened BTreePages

  /** ---------- One turn ---------- */

  function NodeAt(pages: Pages, p: PageNo): Node { if p in pages then pages[p] else MakeLeaf([], None, None) }

  /** Child j of the node. */
  function ChildNode(pages: Pages, n: Node, j: nat): Node
    requires j <= |n.entries|
  {
    NodeAt(pages, ChildAt(n, j))
  }

  /** The left neighbour of child j has an entry to spare. */
  predicate LeftLends(z: Sizes, pages: Pages, n: Node, j: nat)
    requires j <= |n.entries|
  {
    j > 0 && var a := ChildNode(pages, n, j - 1); a.entries != [] && !Underfull(z, a.leaf, |a.entries| - 1)
  }

  predicate RightLends(z: Sizes, pages: Pages, n: Node, j: nat)
    requires j <= |n.entries|
  {
    j < |n.entries| && var b := ChildNode(pages, n, j + 1); |b.entries| > 1 && !Underfull(z, b.leaf, |b.entries| - 1)
  }

  /** Children j and j + 1 fit one page, for internal nodes with the separator between them. */
  predicate PairFits(z: Sizes, pages: Pages, n: Node, j: nat)
    requires j < |n.entries|
  {
    var a, b := ChildNode(pages, n, j), ChildNode(pages, n, j + 1);
    CanFit(z, a.leaf, |a.entries| + |b.entries| + if a.leaf then 0 else 1)
  }

  /** No neighbour of child j can lend, and the neighbour it is to merge with, the left one if
      there is one, does not fit, or there is none. */
  predicate Stuck(z: Sizes, pages: Pages, n: Node, j: nat)
    requires j <= |n.entries|
  {
    && !LeftLends(z, pages, n, j) && !RightLends(z, pages, n, j)
    && (j > 0 ==> !PairFits(z, pages, n, j - 1))
    && (j == 0 < |n.entries| ==> !PairFits(z, pages, n, 0))
  }

  function SetSeparator(n: Node, j: nat, k: Key): Node
    requires j < |n.entries|
  {
    n.(entries := n.entries[j := n.entries[j].(key := k)])
  }

  /** The last entry of child j becomes the first of child j + 1; between internal nodes it
      turns through the separator. */
  function LentFromLeft(pages: Pages, parent: PageNo, j: nat): Pages
    requires j < |NodeAt(pages, parent).entries| && ChildNode(pages, NodeAt(pages, parent), j).entries != []
  {
    var n := NodeAt(pages, parent);
    var p, q, separator := ChildAt(n, j), ChildAt(n, j + 1), n.entries[j].key;
    var a, b := NodeAt(pages, p), NodeAt(pages, q);
    var last := |a.entries| - 1;
    var lent := a.entries[last];
    var a' := if a.leaf then MakeLeaf(a.entries[..last], Some(q), Some(lent.key))
              else MakeInternal(a.leftmost, a.entries[..last], Some(q), Some(lent.key));
    var b' := if a.leaf then MakeLeaf([lent] + b.entries, b.right, b.high)
              else MakeInternal(lent.ref, [Entry(separator, b.leftmost)] + b.entries, b.right, b.high);
    pages[p := a'][q := b'][parent := SetSeparator(n, j, lent.key)]
  }

  /** The first entry of child j + 1 becomes the last of child j. */
  function LentFromRight(pages: Pages, parent: PageNo, j: nat): Pages
    requires j < |NodeAt(pages, parent).entries| && |ChildNode(pages, NodeAt(pages, parent), j + 1).entries| > 1
  {
    var n := NodeAt(pages, parent);
    var p, q, separator := ChildAt(n, j), ChildAt(n, j + 1), n.entries[j].key;
    var a, b := NodeAt(pages, p), NodeAt(pages, q);
    var k := if a.leaf then b.entries[1].key else b.entries[0].key;
    var a' := if a.leaf then MakeLeaf(a.entries + [b.entries[0]], a.right, Some(k))
              else MakeInternal(a.leftmost, a.entries + [Entry(separator, b.leftmost)], a.right, Some(k));
    var b' := if a.leaf then MakeLeaf(b.entries[1..], b.right, b.high)
              else MakeInternal(b.entries[0].ref, b.entries[1..], b.right, b.high);
    pages[p := a'][q := b'][parent := SetSeparator(n, j, k)]
  }

  /** Child j + 1 goes into child j and is retired with a redirect. */
  function MergedPages(pages: Pages, parent: PageNo, j: nat): Pages
    requires j < |NodeAt(pages, parent).entries|
  {
    var n := NodeAt(pages, parent);
    var p, q := ChildAt(n, j), ChildAt(n, j + 1);
    var a, b := NodeAt(pages, p), NodeAt(pages, q);
    pages[p := Merged(a, b, n.entries[j].key)][q := Node(a.leaf, p, [], b.right, b.high, true)]
         [parent := n.(entries := EraseAt(n.entries, j))]
  }

  /** Borrow from the left, else from the right, else merge with the left, else with the right. */
  function FixedPages(z: Sizes, pages: Pages, parent: PageNo, j: nat): Pages
    requires j <= |NodeAt(pages, parent).entries| && !Stuck(z, pages, NodeAt(pages, parent), j)
  {
    var n := NodeAt(pages, parent);
    if LeftLends(z, pages, n, j) then LentFromLeft(pages, parent, j - 1)
    else if RightLends(z, pages, n, j) then LentFromRight(pages, parent, j)
    else MergedPages(pages, parent, if j > 0 then j - 1 else j)
  }

  /** ---------- The loop ---------- */

  /** The first child from i on that is the page. */
  function PositionFrom(n: Node, p: PageNo, i: nat): (pos: Option<nat>)
    ensures pos.Some? ==> i <= pos.value <= |n.entries| && ChildAt(n, pos.value) == p
    ensures pos.None? ==> forall k :: i <= k <= |n.entries| ==> ChildAt(n, k) != p
    decreases |n.entries| + 1 - i
  {
    if i > |n.entries| then None else if ChildAt(n, i) == p then Some(i) else PositionFrom(n, p, i + 1)
  }

  /** The node is a child of the parent and the fix-up can do nothing for it. */
  predicate StuckUnder(z: Sizes, pages: Pages, parent: PageNo, current: PageNo) {
    var pos := PositionFrom(NodeAt(pages, parent), current, 0);
    pos.Some? && Stuck(z, pages, NodeAt(pages, parent), pos.value)
  }

  /** Starting from an underfull page, the fix-up meets a page it can do nothing for. */
  predicate FixUpFails(z: Sizes, pages: Pages, root: PageNo, path: seq<PageNo>, current: PageNo)
    decreases |path|
  {
    path != [] &&
    (var parent := path[|path| - 1];
     var pos := PositionFrom(NodeAt(pages, parent), current, 0);
     pos.Some? &&
     (Stuck(z, pages, NodeAt(pages, parent), pos.value) ||
      (var pages' := FixedPages(z, pages, parent, pos.value);
       parent != root && Underfull(z, false, |NodeAt(pages', parent).entries|)
       && FixUpFails(z, pages', root, path[..|path| - 1], parent))))
  }

  /** The child for the key: the last one whose separator is not above it. */
  function ChildFrom(n: Node, k: Key, i: nat): PageNo
    requires i <= |n.entries|
    decreases |n.entries| - i
  {
    if i < |n.entries| && n.entries[i].key <= k then ChildFrom(n, k, i + 1) else ChildAt(n, i)
  }

  /** The leaf a descent ends at and the pages it still latches. */
  datatype Way = Way(leaf: PageNo, path: seq<PageNo>)

  /** The descent of a delete, `height` levels from page p down. */
  function WayDown(z: Sizes, pages: Pages, p: PageNo, k: Key, path: seq<PageNo>, height: nat): Way
    decreases height
  {
    if height == 0 || NodeAt(pages, p).leaf then Way(p, path)
    else
      var c := ChildFrom(NodeAt(pages, p), k, 0);
      var n := NodeAt(pages, c);
      WayDown(z, pages, c, k, if SafeForDelete(z, n.leaf, |n.entries|) then [] else path + [p], height - 1)
  }

  /** The entries without one entry. */
  function RemoveEntry(entries: seq<Entry>, e: Entry): seq<Entry> {
    if entries == [] then [] else if entries[0] == e then entries[1..] else [entries[0]] + RemoveEntry(entries[1..], e)
  }

  function LeafErased(pages: Pages, leaf: PageNo, e: Entry): Pages {
    pages[leaf := NodeAt(pages, leaf).(entries := RemoveEntry(NodeAt(pages, leaf).entries, e))]
  }

  /** Deleting the entry leaves a leaf underfull that the fix-up starts from. */
  predicate StartsFixUp(z: Sizes, pages: Pages, root: PageNo, way: Way, e: Entry) {
    && e in NodeAt(pages, way.leaf).entries && way.leaf != root
    && Underfull(z, true, |NodeAt(pages, way.leaf).entries| - 1)
  }

  /** Deleting the entry fails. */
  predicate DeleteFails(z: Sizes, pages: Pages, root: PageNo, height: nat, e: Entry) {
    var way := WayDown(z, pages, root, e.key, [], height);
    StartsFixUp(z, pages, root, way, e) && FixUpFails(z, LeafErased(pages, way.leaf, e), root, way.path, way.leaf)
  }

  /** It fails at the leaf itself. */
  predicate LeafStuck(z: Sizes, pages: Pages, root: PageNo, height: nat, e: Entry) {
    var way := WayDown(z, pages, root, e.key, [], height);
    way.path != [] && StuckUnder(z, LeafErased(pages, way.leaf, e), way.path[|way.path| - 1], way.leaf)
  }

  /** ---------- How full the nodes are ---------- */

  predicate FullEnough(z: Sizes, pages: Pages, p: PageNo) {
    p in pages ==> pages[p].retired || !Underfull(z, pages[p].leaf, |pages[p].entries|)
  }

  /** No node on these pages is underfull, except the root. */
  ghost predicate Filled(z: Sizes, pages: Pages, s: set<PageNo>, root: PageNo) {
    forall p :: p in s && p != root ==> FullEnough(z, pages, p)
  }

  /** Nor any but x, which lacks one entry. */
  ghost predicate FilledBut(z: Sizes, pages: Pages, s: set<PageNo>, root: PageNo, x: PageNo) {
    && (forall p :: p in s && p != root && p != x ==> FullEnough(z, pages, p))
    && (x in pages && x != root ==> !Underfull(z, pages[x].leaf, |pages[x].entries| + 1))
  }

  /** No node of the tree is underfull, except the root. */
  ghost predicate TreeFilled(z: Sizes, rows: Rows) {
    forall l, i :: 0 < l < |rows| && 0 <= i < |rows[l]| ==>
      !Underfull(z, rows[l][i].node.leaf, |rows[l][i].node.entries|)
  }

  lemma {:induction false} FilledOnPages(z: Sizes, pages: Pages, rows: Rows, root: PageNo)
    requires TreeOk(z, rows) && Holds(pages, rows) && HangsFrom(rows, root) && TreeFilled(z, rows)
    ensures Filled(z, pages, PagesOf(rows), root)
  {
    TopRow(z, rows);
    hide TreeOk, Underfull;
    forall p | p in PagesOf(rows) && p != root ensures FullEnough(z, pages, p) {
      var c :| c in All(rows) && c.page == p;
      var k :| 0 <= k < |All(rows)| && All(rows)[k] == c;
      var l, i := CellOf(rows, k);
      CellAt(pages, rows, l, i);
    }
  }

  lemma {:induction false} FilledInRows(z: Sizes, pages: Pages, rows: Rows, s: set<PageNo>, root: PageNo)
    requires TreeOk(z, rows) && Holds(pages, rows) && HangsFrom(rows, root)
    requires PagesOf(rows) <= s && Filled(z, pages, s, root)
    ensures TreeFilled(z, rows)
  {
    forall l, i | 0 < l < |rows| && 0 <= i < |rows[l]|
      ensures !Underfull(z, rows[l][i].node.leaf, |rows[l][i].node.entries|)
    {
      CellAt(pages, rows, l, i);
      PageIn(pages, rows, l, i);
      OneNodeOk(z, rows, l, i);
      hide TreeOk, Holds, Underfull, CanFit;
      DistinctCells(pages, rows, 0, 0, l, i);
      assert FullEnough(z, pages, rows[l][i].page);
    }
  }

  /** Where cell k of all rows lies. */
  lemma {:induction false} CellOf(rows: Rows, k: nat) returns (l: nat, i: nat)
    requires k < |All(rows)|
    ensures l < |rows| && i < |rows[l]| && rows[l][i] == All(rows)[k]
  {
    if k < |rows[0]| {
      l, i := 0, k;
    } else {
      l, i := CellOf(rows[1..], k - |rows[0]|);
      l := l + 1;
    }
  }

  /** Neighbour j is a node of its own, of the same kind as the child to be fixed. */
  ghost predicate IsNeighbour(pages: Pages, s: set<PageNo>, root: PageNo, parent: PageNo, current: PageNo, p: PageNo) {
    && p in pages && p in s && p != root && p != parent && p != current
    && current in pages && current != parent && current != root
    && !pages[p].retired && pages[p].leaf == pages[current].leaf
  }

  ghost predicate NeighboursOk(pages: Pages, s: set<PageNo>, root: PageNo, parent: PageNo, j: nat) {
    && parent in pages && parent in s && j <= |pages[parent].entries|
    && !pages[parent].leaf && !pages[parent].retired
    && (j > 0 ==> IsNeighbour(pages, s, root, parent, ChildAt(pages[parent], j), ChildAt(pages[parent], j - 1)))
    && (j < |pages[parent].entries| ==>
          IsNeighbour(pages, s, root, parent, ChildAt(pages[parent], j), ChildAt(pages[parent], j + 1)))
  }

  /** Borrowing or merging fills a child that lacks one entry; the parent may lack one then. */
  lemma {:induction false} FixFills(z: Sizes, pages: Pages, s: set<PageNo>, root: PageNo, parent: PageNo, j: nat)
    requires NeighboursOk(pages, s, root, parent, j) && !Stuck(z, pages, pages[parent], j)
    requires FilledBut(z, pages, s, root, ChildAt(pages[parent], j))
    ensures FilledBut(z, FixedPages(z, pages, parent, j), s, root, parent)
  {
    hide Underfull, CanFit, LentFromLeft, LentFromRight, MergedPages, PairFits;
    var n := pages[parent];
    if parent != root {
      assert FullEnough(z, pages, parent) by { assert parent != ChildAt(n, j); }
      MoreIsFuller(z, n.leaf, |n.entries|, |n.entries| + 1);
    }
    if LeftLends(z, pages, n, j) {
      LeftFills(z, pages, s, root, parent, j);
    } else if RightLends(z, pages, n, j) {
      RightFills(z, pages, s, root, parent, j);
    } else {
      MergeFills(z, pages, s, root, parent, j);
    }
  }

  lemma {:induction false} LeftFills(z: Sizes, pages: Pages, s: set<PageNo>, root: PageNo, parent: PageNo, j: nat)
    requires NeighboursOk(pages, s, root, parent, j) && LeftLends(z, pages, pages[parent], j)
    requires FilledBut(z, pages, s, root, ChildAt(pages[parent], j))
    requires parent != root ==> !Underfull(z, false, |pages[parent].entries| + 1)
    ensures FilledBut(z, LentFromLeft(pages, parent, j - 1), s, root, parent)
  {
    hide Underfull;
    var pages' := LentFromLeft(pages, parent, j - 1);
    var p, q := ChildAt(pages[parent], j - 1), ChildAt(pages[parent], j);
    forall x | x in s && x != root && x != parent ensures FullEnough(z, pages', x) {
      if x != p && x != q { assert FullEnough(z, pages, x); }
    }
  }

  lemma {:induction false} RightFills(z: Sizes, pages: Pages, s: set<PageNo>, root: PageNo, parent: PageNo, j: nat)
    requires NeighboursOk(pages, s, root, parent, j) && RightLends(z, pages, pages[parent], j)
    requires FilledBut(z, pages, s, root, ChildAt(pages[parent], j))
    requires parent != root ==> !Underfull(z, false, |pages[parent].entries| + 1)
    ensures FilledBut(z, LentFromRight(pages, parent, j), s, root, parent)
  {
    hide Underfull;
    var pages' := LentFromRight(pages, parent, j);
    var p, q := ChildAt(pages[parent], j), ChildAt(pages[parent], j + 1);
    forall x | x in s && x != root && x != parent ensures FullEnough(z, pages', x) {
      if x != p && x != q { assert FullEnough(z, pages, x); }
    }
  }

  lemma {:induction false} MergeFills(z: Sizes, pages: Pages, s: set<PageNo>, root: PageNo, parent: PageNo, j: nat)
    requires NeighboursOk(pages, s, root, parent, j) && (j > 0 || j < |pages[parent].entries|)
    requires FilledBut(z, pages, s, root, ChildAt(pages[parent], j))
    requires parent != root ==> !Underfull(z, false, |pages[parent].entries|)
    ensures FilledBut(z, MergedPages(pages, parent, if j > 0 then j - 1 else j), s, root, parent)
  {
    hide Underfull;
    var k := if j > 0 then j - 1 else j;
    var pages' := MergedPages(pages, parent, k);
    var p, q := ChildAt(pages[parent], k), ChildAt(pages[parent], k + 1);
    var other := if j > 0 then p else q;
    assert FullEnough(z, pages, other);
    MoreIsFuller(z, pages[other].leaf, |pages[other].entries|, |pages'[p].entries|);
    forall x | x in s && x != root && x != parent ensures FullEnough(z, pages', x) {
      if x != p && x != q { assert FullEnough(z, pages, x); }
    }
  }

  /** The page is the root, or may lose an entry. */
  predicate TopLoses(z: Sizes, pages: Pages, root: PageNo, p: PageNo) {
    p == root || (p in pages && SafeForDelete(z, pages[p].leaf, |pages[p].entries|))
  }

  /** So it is not underfull afterwards. */
  lemma {:induction false} LostAtMostOne(z: Sizes, pages: Pages, root: PageNo, p: PageNo, n: nat)
    requires SizesOk(z) && TopLoses(z, pages, root, p) && p in pages && n + 1 >= |pages[p].entries|
    ensures p == root || !Underfull(z, pages[p].leaf, n)
  {
    hide SafeForDelete, Underfull;
    if p != root {
      SafeLoses(z, pages[p].leaf, |pages[p].entries|);
      MoreIsFuller(z, pages[p].leaf, |pages[p].entries| - 1, n);
    }
  }

  lemma {:induction false} NowFilled(z: Sizes, pages: Pages, s: set<PageNo>, root: PageNo, p: PageNo)
    requires FilledBut(z, pages, s, root, p) && p in pages
    requires p == root || !Underfull(z, pages[p].leaf, |pages[p].entries|)
    ensures Filled(z, pages, s, root)
  {
  }

  /** One entry is gone from a leaf. */
  lemma {:induction false} LeafLost(z: Sizes, pages: Pages, s: set<PageNo>, root: PageNo, p: PageNo, pages': Pages)
    requires Filled(z, pages, s, root) && p in s && p in pages && !pages[p].retired && p in pages'
    requires pages' == pages[p := pages'[p]] && pages'[p].leaf == pages[p].leaf
    requires |pages'[p].entries| + 1 == |pages[p].entries|
    ensures FilledBut(z, pages', s, root, p)
  {
    hide Underfull;
    assert p != root ==> FullEnough(z, pages, p);
    forall x | x in s && x != root && x != p ensures FullEnough(z, pages', x) { assert FullEnough(z, pages, x); }
  }

  /** The old root is retired, the new one may hold as little as it likes. */
  lemma {:induction false} CollapsedFilled(z: Sizes, pages: Pages, s: set<PageNo>, root: PageNo, pages': Pages,
                                           root': PageNo)
    requires FilledBut(z, pages, s, root, root) && root in pages' && pages'[root].retired
    requires pages' == pages[root := pages'[root]]
    ensures Filled(z, pages', s, root')
  {
    hide Underfull;
    forall x | x in s && x != root' ensures FullEnough(z, pages', x) {
      if x != root { assert FullEnough(z, pages, x); }
    }
  }

  /** The parent loses at most one entry. */
  lemma {:induction false} FixedParent(z: Sizes, pages: Pages, parent: PageNo, j: nat)
    requires parent in pages && j <= |pages[parent].entries| && !Stuck(z, pages, pages[parent], j)
    ensures parent in FixedPages(z, pages, parent, j)
    ensures var n' := FixedPages(z, pages, parent, j)[parent];
            n'.leaf == pages[parent].leaf && |pages[parent].entries| - 1 <= |n'.entries| <= |pages[parent].entries|
  {
    hide Underfull, CanFit;
  }

  /** ---------- A dropped rewrite ---------- */

  /** No well-formed tree hangs from this root. */
  ghost predicate NoTree(z: Sizes, pages: Pages, root: PageNo) {
    forall rows: Rows :: TreeOk(z, rows) && Holds(pages, rows) ==> !HangsFrom(rows, root)
  }

  predicate HangsFrom(rows: Rows, root: PageNo) { rows != [] && rows[0] != [] && rows[0][0].page == root }

  /** Child j of the node is retired, or bounded by another key than the node says. */
  predicate Mismatch(pages: Pages, n: Node, j: nat)
    requires j <= |n.entries|
  {
    ChildAt(n, j) in pages ==> ChildNode(pages, n, j).retired || ChildNode(pages, n, j).high != BoundAt(n, j)
  }

  /** The node is not what its page must hold now. */
  ghost predicate Outdated(pages: Pages, parent: PageNo, n: Node) {
    !n.leaf && exists j: nat :: j <= |n.entries| && ChildAt(n, j) != parent && Mismatch(pages, n, j)
  }

  ghost predicate OnPages(a: Row, b: Row) { |a| == |b| && forall i :: 0 <= i < |a| ==> a[i].page == b[i].page }

  /** The pages hold the first m rows. */
  ghost predicate HoldsAbove(pages: Pages, rows: Rows, m: nat) {
    m <= |rows| && forall l :: 0 <= l < m ==> HoldsCells(pages, rows[l])
  }

  ghost predicate HoldsCells(pages: Pages, row: Row) { forall i :: 0 <= i < |row| ==> At(pages, row[i]) }

  /** Two trees with one root that agree on the pages above row m have the same pages there. */
  lemma {:induction false} SamePages(z: Sizes, pages: Pages, rows: Rows, pages': Pages, rows': Rows, m: nat)
    requires TreeOk(z, rows) && Holds(pages, rows) && TreeOk(z, rows') && Holds(pages', rows')
    requires rows'[0][0].page == rows[0][0].page && m < |rows|
    requires HoldsAbove(pages', rows, m)
    ensures m < |rows'| && OnPages(rows'[m], rows[m])
  {
    hide TreeOk, Holds;
    TopRow(z, rows);
    TopRow(z, rows');
    if m > 0 {
      SamePages(z, pages, rows, pages', rows', m - 1);
      var row, row' := rows[m - 1], rows'[m - 1];
      assert HoldsCells(pages', row);
      forall i | 0 <= i < |row| ensures row'[i] == row[i] {
        CellAt(pages', rows', m - 1, i);
        assert At(pages', row[i]);
      }
      SameRowBelow(z, rows, rows', m - 1);
    }
  }

  lemma {:induction false} TopRow(z: Sizes, rows: Rows)
    requires TreeOk(z, rows)
    ensures rows != [] && |rows[0]| == 1
  {
  }

  lemma {:induction false} SameRowBelow(z: Sizes, rows: Rows, rows': Rows, l: nat)
    requires TreeOk(z, rows) && TreeOk(z, rows') && l + 1 < |rows| && l < |rows'| && rows'[l] == rows[l]
    ensures l + 1 < |rows'| && OnPages(rows'[l + 1], rows[l + 1])
  {
    TreeRowIncreasing(z, rows, l);
    OneNodeOk(z, rows, l, 0);
    OneNodeOk(z, rows', l, 0);
    assert Nested(rows, l) && Nested(rows', l);
    var f, f' := Face(rows[l + 1]), Face(rows'[l + 1]);
    var row, row' := rows[l + 1], rows'[l + 1];
    forall i | 0 <= i < |row| ensures row'[i].page == row[i].page { assert f[i] == f'[i]; }
  }

  /** A tree whose node at row m is put back to an outdated one is none: every tree from this
      root would have the same pages down to that node. */
  lemma {:induction false} OutdatedNoTree(z: Sizes, pages: Pages, rows: Rows, m: nat, i: nat, n: Node)
    requires TreeOk(z, rows) && Holds(pages, rows) && m < |rows| && i < |rows[m]|
    requires Outdated(pages, rows[m][i].page, n)
    ensures NoTree(z, pages[rows[m][i].page := n], rows[0][0].page)
  {
    hide TreeOk, Holds;
    TopRow(z, rows);
    var parent := rows[m][i].page;
    var pages' := pages[parent := n];
    var j: nat :| j <= |n.entries| && ChildAt(n, j) != parent && Mismatch(pages, n, j);
    assert Mismatch(pages', n, j);
    forall rows': Rows | TreeOk(z, rows') && Holds(pages', rows') ensures !HangsFrom(rows', rows[0][0].page) {
      if HangsFrom(rows', rows[0][0].page) {
        AboveUntouched(pages, rows, m, i, n);
        SamePages(z, pages, rows, pages', rows', m);
        assert rows'[m][i].page == parent;
        NoMismatch(z, pages', rows', m, i);
      }
    }
  }

  lemma {:induction false} AboveUntouched(pages: Pages, rows: Rows, m: nat, i: nat, n: Node)
    requires Holds(pages, rows) && m < |rows| && i < |rows[m]|
    ensures HoldsAbove(pages[rows[m][i].page := n], rows, m)
  {
    hide Holds;
    forall l | 0 <= l < m ensures HoldsCells(pages[rows[m][i].page := n], rows[l]) {
      var row := rows[l];
      forall k | 0 <= k < |row| ensures At(pages[rows[m][i].page := n], row[k]) {
        CellAt(pages, rows, l, k);
        DistinctCells(pages, rows, l, k, m, i);
      }
    }
  }

  /** The children of a node of a tree are what the node says. */
  lemma {:induction false} NoMismatch(z: Sizes, pages: Pages, rows: Rows, m: nat, i: nat)
    requires TreeOk(z, rows) && Holds(pages, rows) && m < |rows| && i < |rows[m]|
    ensures rows[m][i].page in pages
    ensures var n := pages[rows[m][i].page];
            !n.leaf ==> forall j: nat :: j <= |n.entries| ==> !Mismatch(pages, n, j)
  {
    CellAt(pages, rows, m, i);
    OneNodeOk(z, rows, m, i);
    var n := pages[rows[m][i].page];
    if !n.leaf {
      assert Nested(rows, m);
      forall j: nat | j <= |n.entries| ensures !Mismatch(pages, n, j) {
        ChildPage(rows, m, i, j);
        CellAt(pages, rows, m + 1, Offset(rows[m], i) + j);
        OneNodeOk(z, rows, m + 1, Offset(rows[m], i) + j);
      }
    }
  }

  /** ---------- Why a rewritten parent differs ---------- */

  /** The keys of a node lie below its high key. */
  lemma {:induction false} KeyBelowHigh(z: Sizes, rows: Rows, l: nat, i: nat, k: nat)
    requires TreeOk(z, rows) && l < |rows| && i < |rows[l]| && k < |rows[l][i].node.entries|
    requires rows[l][i].node.high.Some?
    ensures rows[l][i].node.entries[k].key < rows[l][i].node.high.value
  {
    var n := rows[l][i].node;
    if l + 1 < |rows| {
      TreeRowIncreasing(z, rows, l + 1);
      assert Nested(rows, l);
      FlatAt(rows[l], i, k);
      FlatAt(rows[l], i, |n.entries|);
      var f := Flat(rows[l]);
      assert f[Offset(rows[l], i) + k].bound == Some(n.entries[k].key);
    } else {
      assert LeafOk(rows[l], i);
    }
  }

  /** The keys of a node lie above the high key of its left neighbour, strictly if the node is
      internal. */
  lemma {:induction false} KeyAboveLeft(z: Sizes, rows: Rows, l: nat, i: nat, k: nat)
    requires TreeOk(z, rows) && l < |rows| && 0 < i < |rows[l]| && k < |rows[l][i].node.entries|
    ensures rows[l][i - 1].node.high.Some?
    ensures var high, key := rows[l][i - 1].node.high.value, rows[l][i].node.entries[k].key;
            high <= key && (l + 1 < |rows| ==> high < key)
  {
    var n := rows[l][i].node;
    if l + 1 < |rows| {
      TreeRowIncreasing(z, rows, l + 1);
      assert Nested(rows, l);
      FlatAt(rows[l], i, k);
      FlatAt(rows[l], i, |n.entries|);
      var f, off := Flat(rows[l]), Offset(rows[l], i);
      assert f[off + k].bound == Some(n.entries[k].key) && f[off - 1].bound == rows[l][i - 1].node.high;
    } else {
      assert LeafOk(rows[l], i);
      assert Covers(rows[l], i, n.entries[k].key);
    }
  }
}
