/** The B+ tree on its pages: descent, search, insert with splits, delete with borrowing and
    merging (access/btree_core.cpp, access/btree_insert.cpp, access/btree_delete_entry.cpp).
    The code runs over a map from page number to node; the ghost rows say which pages form
    the tree. */
module BTree {
  import opened Options
  import opened BTreeNodes
  import opened BTreeShape
  import opened BTreePages
  import opened BTreeFixUp

  /** ---------- What a key search means ---------- */

  /** The row ids stored under a key, in order. */
  ghost function Matches(entries: seq<Entry>, k: Key): seq<nat> {
    if entries == [] then []
    else if entries[0].key == k then [entries[0].ref] + Matches(entries[1..], k)
    else Matches(entries[1..], k)
  }

  lemma {:induction false} MatchesConcat(a: seq<Entry>, b: seq<Entry>, k: Key)
    ensures Matches(a + b, k) == Matches(a, k) + Matches(b, k)
  {
    if a == [] {
      assert a + b == b;
    } else {
      MatchesConcat(a[1..], b, k);
      assert (a + b)[1..] == a[1..] + b && (a + b)[0] == a[0];
      var x, y := Matches(a[1..], k), Matches(b, k);
      assert [a[0].ref] + (x + y) == [a[0].ref] + x + y;
    }
  }

  lemma {:induction false} NoMatches(entries: seq<Entry>, k: Key)
    requires forall i :: 0 <= i < |entries| ==> entries[i].key != k
    ensures Matches(entries, k) == []
  {
    if entries != [] { NoMatches(entries[1..], k); }
  }

  ghost predicate HasKey(entries: seq<Entry>, k: Key) { exists i :: 0 <= i < |entries| && entries[i].key == k }

  /** With distinct keys a search result names the one entry, or says there is none. */
  lemma {:induction false} MatchesExact(entries: seq<Entry>, k: Key, r: nat)
    requires SortedKeys(entries)
    ensures Matches(entries, k) == [r] <==> Entry(k, r) in entries
    ensures Matches(entries, k) == [] <==> !HasKey(entries, k)
  {
    if HasKey(entries, k) {
      var i :| 0 <= i < |entries| && entries[i].key == k;
      OneMatch(entries, i);
      if Entry(k, r) in entries {
        var x :| 0 <= x < |entries| && entries[x] == Entry(k, r);
      }
    } else {
      NoMatches(entries, k);
    }
  }

  lemma {:induction false} OneMatch(entries: seq<Entry>, i: nat)
    requires SortedKeys(entries) && i < |entries|
    ensures Matches(entries, entries[i].key) == [entries[i].ref]
  {
    var k := entries[i].key;
    assert entries == entries[..i] + ([entries[i]] + entries[i + 1..]);
    MatchesConcat(entries[..i], [entries[i]] + entries[i + 1..], k);
    MatchesConcat([entries[i]], entries[i + 1..], k);
    NoMatches(entries[..i], k);
    NoMatches(entries[i + 1..], k);
    assert Matches([entries[i]], k) == [entries[i].ref] + Matches([entries[i]][1..], k);
  }

  /** The entries of leaves to the left of a covering leaf are smaller, to the right larger. */
  lemma {:induction false} LeftSmaller(row: Row, i: nat, k: Key, x: nat)
    requires LeavesOk(row) && i < |row| && Covers(row, i, k) && x < i
    ensures forall y :: 0 <= y < |row[x].node.entries| ==> row[x].node.entries[y].key < k
  {
    assert LeafOk(row, x);
    var f := Face(row);
    assert f[x].bound.Some? && f[i - 1].bound == row[i - 1].node.high;
    assert x < i - 1 ==> f[x].bound.value < f[i - 1].bound.value;
  }

  lemma {:induction false} RightLarger(row: Row, i: nat, k: Key, x: nat)
    requires LeavesOk(row) && i < x < |row| && Covers(row, i, k)
    ensures forall y :: 0 <= y < |row[x].node.entries| ==> k < row[x].node.entries[y].key
  {
    assert LeafOk(row, x);
    var f := Face(row);
    assert f[i].bound == row[i].node.high && f[x - 1].bound == row[x - 1].node.high && f[i].bound.Some?;
    assert i < x - 1 ==> f[i].bound.value < f[x - 1].bound.value;
  }

  /** Every entry of a row sits in one of its leaves. */
  lemma {:induction false} StoredIn(row: Row, y: nat)
    requires y < |Stored(row)|
    ensures exists x, z :: 0 <= x < |row| && 0 <= z < |row[x].node.entries| && row[x].node.entries[z] == Stored(row)[y]
  {
    if y < |row[0].node.entries| {
      assert row[0].node.entries[y] == Stored(row)[y];
    } else {
      StoredIn(row[1..], y - |row[0].node.entries|);
      var x, z :| 0 <= x < |row[1..]| && 0 <= z < |row[1..][x].node.entries| &&
          row[1..][x].node.entries[z] == Stored(row)[y];
      assert row[x + 1].node.entries[z] == Stored(row)[y];
    }
  }

  lemma {:induction false} NoMatchLeft(row: Row, i: nat, k: Key)
    requires LeavesOk(row) && i < |row| && Covers(row, i, k)
    ensures Matches(Stored(row[..i]), k) == []
    ensures forall y :: 0 <= y < |Stored(row[..i])| ==> Stored(row[..i])[y].key < k
  {
    hide LeavesOk;
    var e := Stored(row[..i]);
    forall y | 0 <= y < |e| ensures e[y].key < k {
      StoredIn(row[..i], y);
      var x, z :| 0 <= x < i && 0 <= z < |row[x].node.entries| && row[x].node.entries[z] == e[y];
      LeftSmaller(row, i, k, x);
    }
    NoMatches(e, k);
  }

  lemma {:induction false} NoMatchRight(row: Row, i: nat, k: Key, n: nat)
    requires LeavesOk(row) && i < n <= |row| && Covers(row, i, k)
    ensures Matches(Stored(row[n..]), k) == []
    ensures forall y :: 0 <= y < |Stored(row[n..])| ==> k < Stored(row[n..])[y].key
  {
    hide LeavesOk;
    var e := Stored(row[n..]);
    forall y | 0 <= y < |e| ensures k < e[y].key {
      StoredIn(row[n..], y);
      var x, z :| 0 <= x < |row[n..]| && 0 <= z < |row[n..][x].node.entries| && row[n..][x].node.entries[z] == e[y];
      assert row[n..][x] == row[n + x];
      RightLarger(row, i, k, n + x);
    }
    NoMatches(e, k);
  }

  /** The leaves from left to right hold their entries in key order. */
  lemma {:induction false} StoredSorted(row: Row)
    requires LeavesOk(row)
    ensures SortedKeys(Stored(row))
  {
    StoredSortedFrom(row, 0);
    assert row[0..] == row;
  }

  lemma {:induction false} StoredSortedFrom(row: Row, n: nat)
    requires LeavesOk(row) && n <= |row|
    ensures SortedKeys(Stored(row[n..]))
    decreases |row| - n
  {
    if n < |row| {
      StoredSortedFrom(row, n + 1);
      assert LeafOk(row, n);
      assert row[n..] == [row[n]] + row[n + 1..];
      StoredConcat([row[n]], row[n + 1..]);
      FlatOne(row[n]);
      var a: seq<Entry>, b: seq<Entry> := row[n].node.entries, Stored(row[n + 1..]);
      forall x, y | 0 <= x < y < |a + b| ensures (a + b)[x].key < (a + b)[y].key {
        if x < |a| <= y {
          assert Covers(row, n, a[x].key);
          NoMatchRight(row, n, a[x].key, n + 1);
        }
      }
    }
  }

  /** ---------- Sorted insertion ---------- */

  /** push_back and sort, on entries that are already in order. */
  function SortedInsert(entries: seq<Entry>, e: Entry): seq<Entry> {
    if entries == [] || e.key < entries[0].key then [e] + entries
    else [entries[0]] + SortedInsert(entries[1..], e)
  }

  lemma {:induction false} SortedInsertAt(entries: seq<Entry>, e: Entry, j: nat)
    requires j <= |entries|
    requires forall i :: 0 <= i < j ==> entries[i].key < e.key
    requires forall i :: j <= i < |entries| ==> e.key < entries[i].key
    ensures SortedInsert(entries, e) == InsertAt(entries, j, e)
  {
    if j > 0 {
      SortedInsertAt(entries[1..], e, j - 1);
      assert entries[..j] == [entries[0]] + entries[1..][..j - 1];
    }
  }

  /** The position of a new key in sorted entries. */
  lemma {:induction false} HasPosition(entries: seq<Entry>, k: Key) returns (j: nat)
    requires SortedKeys(entries) && !HasKey(entries, k)
    ensures j <= |entries|
    ensures forall i :: 0 <= i < j ==> entries[i].key < k
    ensures forall i :: j <= i < |entries| ==> k < entries[i].key
  {
    j := |entries|;
    while j > 0 && k < entries[j - 1].key
      invariant j <= |entries| && forall i :: j <= i < |entries| ==> k < entries[i].key
    {
      j := j - 1;
    }
    if j > 0 { assert entries[j - 1].key != k; }
  }

  /** Insertion adds exactly the entry and keeps the order. */
  lemma {:induction false} SortedInsertKeeps(entries: seq<Entry>, e: Entry)
    requires SortedKeys(entries) && !HasKey(entries, e.key)
    ensures SortedKeys(SortedInsert(entries, e)) && |SortedInsert(entries, e)| == |entries| + 1
    ensures multiset(SortedInsert(entries, e)) == multiset(entries) + multiset{e}
    ensures forall i :: 0 <= i <= |entries| ==>
              SortedInsert(entries, e)[i] == e || SortedInsert(entries, e)[i] in entries
  {
    hide SortedInsert;
    var j := HasPosition(entries, e.key);
    SortedInsertAt(entries, e, j);
    InsertAtCount(entries, e, j);
    InsertAtSorted(entries, e, j);
  }

  lemma {:induction false} InsertAtCount(entries: seq<Entry>, e: Entry, j: nat)
    requires j <= |entries|
    ensures multiset(InsertAt(entries, j, e)) == multiset(entries) + multiset{e}
  {
    assert entries == entries[..j] + entries[j..];
  }

  lemma {:induction false} InsertAtSorted(entries: seq<Entry>, e: Entry, j: nat)
    requires j <= |entries| && SortedKeys(entries)
    requires forall i :: 0 <= i < j ==> entries[i].key < e.key
    requires forall i :: j <= i < |entries| ==> e.key < entries[i].key
    ensures SortedKeys(InsertAt(entries, j, e))
    ensures forall i :: 0 <= i <= |entries| ==> InsertAt(entries, j, e)[i] == e || InsertAt(entries, j, e)[i] in entries
  {
  }

  /** Insertion among larger entries to the right and smaller ones to the left. */
  lemma {:induction false} SortedInsertInside(p: seq<Entry>, mid: seq<Entry>, q: seq<Entry>, e: Entry)
    requires SortedKeys(mid) && !HasKey(mid, e.key)
    requires forall i :: 0 <= i < |p| ==> p[i].key < e.key
    requires forall i :: 0 <= i < |q| ==> e.key < q[i].key
    ensures SortedInsert(p + mid + q, e) == p + SortedInsert(mid, e) + q
  {
    hide SortedInsert;
    var j := HasPosition(mid, e.key);
    SortedInsertAt(mid, e, j);
    InsertAtInside(p, mid, q, j, e);
    var all := p + mid + q;
    forall i | 0 <= i < |p| + j ensures all[i].key < e.key { assert all[i] == if i < |p| then p[i] else mid[i - |p|]; }
    forall i | |p| + j <= i < |all| ensures e.key < all[i].key {
      assert all[i] == if i < |p| + |mid| then mid[i - |p|] else q[i - |p| - |mid|];
    }
    SortedInsertAt(all, e, |p| + j);
  }

  lemma {:induction false} InsertAtInside(p: seq<Entry>, mid: seq<Entry>, q: seq<Entry>, j: nat, e: Entry)
    requires j <= |mid|
    ensures InsertAt(p + mid + q, |p| + j, e) == p + InsertAt(mid, j, e) + q
  {
  }

  /** Keys of a node whose slots lie in an increasing row. */
  lemma {:induction false} SlotsSorted(p: seq<Slot>, n: Node, q: seq<Slot>)
    requires Increasing(p + Slots(n) + q)
    ensures SortedKeys(n.entries)
  {
    var f, s := p + Slots(n) + q, Slots(n);
    forall a, b | 0 <= a < b < |n.entries| ensures n.entries[a].key < n.entries[b].key {
      assert f[|p| + a] == s[a] && f[|p| + b] == s[b];
      assert s[a].bound == Some(n.entries[a].key) && s[b].bound == Some(n.entries[b].key);
      assert f[|p| + a].bound.value < f[|p| + b].bound.value;
    }
  }

  lemma {:induction false} SortedInsertIs(entries: seq<Entry>, j: nat, e: Entry)
    requires j <= |entries| && SortedKeys(InsertAt(entries, j, e))
    ensures SortedInsert(entries, e) == InsertAt(entries, j, e)
  {
    var all := InsertAt(entries, j, e);
    assert all[j] == e;
    assert forall i :: 0 <= i < j ==> all[i] == entries[i];
    assert forall i :: j <= i < |entries| ==> all[i + 1] == entries[i];
    SortedInsertAt(entries, e, j);
  }

  /** ---------- Going down ---------- */

  /** The loop of FindChildForKey. */
  method FindChildForKey(n: Node, k: Key) returns (child: PageNo, ghost j: nat)
    ensures j <= |n.entries| && child == ChildAt(n, j)
    ensures j > 0 ==> n.entries[j - 1].key <= k
    ensures j < |n.entries| ==> k < n.entries[j].key
    ensures child == ChildFrom(n, k, 0)
    ensures child == n.leftmost ||
        exists i :: 0 <= i < |n.entries| && n.entries[i].ref == child && n.entries[i].key <= k
  {
    child, j := n.leftmost, 0;
    var i := 0;
    while i < |n.entries|
      invariant i == j <= |n.entries| && child == ChildAt(n, j) && ChildFrom(n, k, 0) == ChildFrom(n, k, i)
      invariant j > 0 ==> n.entries[j - 1].key <= k
    {
      if k < n.entries[i].key { break; }
      child, i, j := n.entries[i].ref, i + 1, j + 1;
    }
  }

  /** FindChildPosition: which child of the node the page is. */
  method FindChildPosition(n: Node, p: PageNo) returns (pos: Option<nat>)
    ensures pos == PositionFrom(n, p, 0)
    ensures pos.Some? ==> pos.value <= |n.entries| && ChildAt(n, pos.value) == p
    ensures pos.None? ==> forall i :: 0 <= i <= |n.entries| ==> ChildAt(n, i) != p
  {
    if n.leftmost == p { return Some(0); }
    for i := 0 to |n.entries|
      invariant PositionFrom(n, p, 0) == PositionFrom(n, p, i + 1)
    {
      if n.entries[i].ref == p { return Some(i + 1); }
    }
    return None;
  }

  /** The nodes met on the way down, one in each of the first rows. */
  datatype Track = Track(at: seq<nat>, child: seq<nat>)

  ghost predicate OnTrack(rows: Rows, t: Track) {
    && 1 <= |t.at| <= |rows| && |t.child| == |t.at| - 1 && t.at[0] == 0 && |rows[0]| > 0
    && forall l :: 0 <= l < |t.child| ==> IsChild(rows, l, t.at[l], t.child[l], t.at[l + 1])
  }

  /** The pages kept latched: the last ones of the track before its end. */
  ghost predicate OnPath(rows: Rows, t: Track, path: seq<PageNo>) {
    && OnTrack(rows, t) && |path| < |t.at|
    && forall l :: Top(t, path) <= l < |t.at| - 1 ==> PathAt(rows, t, path, l)
  }

  /** The row of the first latched page, or of the end of the track if there is none. */
  ghost function Top(t: Track, path: seq<PageNo>): int { |t.at| - 1 - |path| }

  ghost predicate PathAt(rows: Rows, t: Track, path: seq<PageNo>, l: int)
    requires 0 <= Top(t, path) <= l < |t.at| - 1 && |t.at| <= |rows|
  {
    t.at[l] < |rows[l]| && path[l - Top(t, path)] == rows[l][t.at[l]].page
  }

  class BTree {
    const z: Sizes
    var pages: Pages
    var root: PageNo
    var height: nat
    var numPages: nat
    ghost var rows: Rows

    ghost predicate Valid()
      reads this
    {
      && SizesOk(z) && TreeOk(z, rows) && Placed(|rows|)
    }

    /** The pages, the meta page and the allocator agree with the rows. */
    ghost predicate Placed(h: nat)
      reads this
    {
      && Holds(pages, rows) && rows != [] && rows[0] != [] && root == rows[0][0].page && height == h
      && forall p :: p in pages ==> p < numPages
    }

    ghost function Entries(): seq<Entry>
      requires rows != []
      reads this
    {
      Stored(Leaves(rows))
    }

    /** An empty tree: one leaf. Page 0 is the meta page. */
    constructor (z: Sizes)
      requires SizesOk(z)
      ensures Valid() && this.z == z && Entries() == []
    {
      this.z := z;
      var leaf := MakeLeaf([], None, None);
      pages, root, height, numPages := map[1 := leaf], 1, 1, 2;
      rows := [[Cell(1, leaf)]];
      new;
      EmptyTree(z, rows, pages);
    }

    /** An index that exists already. */
    constructor Open(z: Sizes, pages: Pages, root: PageNo, height: nat, numPages: nat, ghost rows: Rows)
      requires SizesOk(z) && TreeOk(z, rows) && Holds(pages, rows) && HangsFrom(rows, root) && height == |rows|
      requires forall p :: p in pages ==> p < numPages
      ensures Valid() && this.z == z && this.pages == pages && this.root == root && this.height == height
      ensures this.rows == rows
    {
      this.z, this.pages, this.root, this.height, this.numPages := z, pages, root, height, numPages;
      this.rows := rows;
    }

    /** Follow right links while the key lies beyond the high key. */
    method MoveRight(p: PageNo, k: Key, ghost l: nat, ghost i: nat) returns (q: PageNo, ghost i': nat)
      requires Valid() && l < |rows| && i < |rows[l]| && rows[l][i].page == p
      requires i > 0 ==> rows[l][i - 1].node.high.Some? && rows[l][i - 1].node.high.value <= k
      ensures i' < |rows[l]| && rows[l][i'].page == q && Covers(rows[l], i', k)
      ensures Covers(rows[l], i, k) ==> i' == i && q == p
      ensures q in pages && (pages[q].high.Some? ==> k < pages[q].high.value)
    {
      hide Holds, LeavesOk;
      q, i' := p, i;
      assert Increasing(Face(rows[l])) by { TreeRowIncreasing(z, rows, l); }
      assert Linked(rows[l]);
      CellAt(pages, rows, l, i');
      while pages[q].high.Some? && pages[q].right.Some? && k >= pages[q].high.value
        invariant i <= i' < |rows[l]| && rows[l][i'].page == q && At(pages, rows[l][i'])
        invariant i' > 0 ==> rows[l][i' - 1].node.high.Some? && rows[l][i' - 1].node.high.value <= k
        invariant Covers(rows[l], i, k) ==> i' == i
        decreases |rows[l]| - i'
      {
        assert LinkAt(rows[l], i');
        q, i' := pages[q].right.value, i' + 1;
        CellAt(pages, rows, l, i');
      }
      assert LinkAt(rows[l], i');
      assert Face(rows[l])[i'].bound == rows[l][i'].node.high;
    }

    /** One step down: the child of node i of row l that covers the key. */
    method Child(p: PageNo, k: Key, ghost l: nat, ghost i: nat) returns (c: PageNo, ghost j: nat, ghost i': nat)
      requires Valid() && OnNode(rows, l, i, p, k) && p in pages && !pages[p].leaf
      ensures l + 1 < |rows| && IsChild(rows, l, i, j, i') && OnNode(rows, l + 1, i', c, k) && c in pages
      ensures c == ChildFrom(pages[p], k, 0)
    {
      hide Holds, LeavesOk, Covers;
      CellAt(pages, rows, l, i);
      OneNodeOk(z, rows, l, i);
      c, j := FindChildForKey(pages[p], k);
      assert Nested(rows, l);
      ChildCovers(rows, l, i, j, k);
      i' := Offset(rows[l], i) + j;
      CellAt(pages, rows, l + 1, i');
      LowerBound(rows[l + 1], i', k);
      ghost var same;
      c, same := MoveRight(c, k, l + 1, i');
    }

    /** FindLeafPageNo: the leaf that covers the key. */
    method FindLeaf(k: Key) returns (p: PageNo, ghost i: nat)
      requires Valid()
      ensures OnNode(rows, |rows| - 1, i, p, k) && p in pages
    {
      hide Holds, TreeOk, Covers;
      p, i := root, 0;
      ghost var l := 0;
      RootCovers(z, rows, k);
      CellAt(pages, rows, 0, 0);
      while !pages[p].leaf
        invariant OnNode(rows, l, i, p, k) && p in pages
        decreases |rows| - l
      {
        ghost var j;
        p, j, i := Child(p, k, l, i);
        l := l + 1;
      }
      CellAt(pages, rows, l, i);
      LeafIsLast(z, rows, l, i);
    }

    /** Exactly the row id stored under the key, or none. */
    method Search(k: Key) returns (result: seq<nat>)
      requires Valid()
      ensures forall r: nat :: result == [r] <==> Entry(k, r) in Entries()
      ensures result == [] <==> !HasKey(Entries(), k)
    {
      hide Matches, Stored, TreeOk, LeavesOk, HasKey, SortedKeys;
      result := Collect(k);
      LeafRow(z, rows);
      StoredSorted(Leaves(rows));
      MatchesExact(Entries(), k, 0);
      forall r: nat ensures result == [r] <==> Entry(k, r) in Entries() { MatchesExact(Entries(), k, r); }
    }

    /** The scan from the covering leaf to the right. */
    method Collect(k: Key) returns (result: seq<nat>)
      requires Valid()
      ensures result == Matches(Entries(), k)
    {
      hide Holds, TreeOk, Covers, LeavesOk;
      var p;
      ghost var i;
      p, i := FindLeaf(k);
      ghost var row, x := Leaves(rows), i;
      LeafRow(z, rows);
      NoMatchLeft(row, i, k);
      CellAt(pages, rows, |rows| - 1, x);
      result := [];
      while true
        invariant i <= x < |row| && row[x].page == p && At(pages, row[x]) && result == Matches(Stored(row[..x]), k)
        decreases |row| - x
      {
        var n := pages[p];
        SortedLeaf(row, x);
        var found, stop := ScanLeaf(n.entries, k);
        result := result + found;
        MatchesStep(row, x, k);
        if stop || found == [] || n.right.None? || n.entries[|n.entries| - 1].key != k {
          NoMatchRight(row, i, k, x + 1);
          MatchesSplit(row, x + 1, k);
          return;
        }
        assert LinkAt(row, x);
        p, x := n.right.value, x + 1;
        CellAt(pages, rows, |rows| - 1, x);
      }
    }

    /** Down to the leaf for the key. A child that an insert cannot split, or a delete cannot
        leave underfull, lets go of every page above it. */
    method Descend(k: Key, deleting: bool) returns (p: PageNo, path: seq<PageNo>, ghost t: Track)
      requires Valid()
      ensures |t.at| == |rows| && OnPath(rows, t, path) && OnNode(rows, |rows| - 1, t.at[|rows| - 1], p, k)
      ensures p in pages && pages[p].leaf
      ensures !deleting ==> TopAbsorbs(z, rows, t, Top(t, path))
      ensures deleting ==> Way(p, path) == WayDown(z, pages, root, k, [], height)
      ensures deleting ==> TopLoses(z, pages, root, if path == [] then p else path[0])
    {
      hide TreeOk, Holds, Covers, LeavesOk, ChildFrom, SafeForDelete, SafeForInsert;
      p, path, t := root, [], Track([0], []);
      RootCovers(z, rows, k);
      CellAt(pages, rows, 0, 0);
      while !pages[p].leaf
        invariant OnPath(rows, t, path) && OnNode(rows, |t.at| - 1, t.at[|t.at| - 1], p, k) && p in pages
        invariant !deleting ==> TopAbsorbs(z, rows, t, Top(t, path))
        invariant |t.at| <= |rows| == height
        invariant deleting ==> TopLoses(z, pages, root, if path == [] then p else path[0])
        invariant deleting ==>
                    WayDown(z, pages, root, k, [], height) == WayDown(z, pages, p, k, path, height + 1 - |t.at|)
        decreases |rows| - |t.at|
      {
        hide OnTrack, IsChild, OnPath;
        var c;
        ghost var j, i;
        ghost var l := |t.at| - 1;
        c, j, i := Child(p, k, l, t.at[l]);
        CellAt(pages, rows, l + 1, i);
        PathGrows(rows, t, path, p, j, i);
        var n := pages[c];
        if (if deleting then SafeForDelete(z, n.leaf, |n.entries|) else SafeForInsert(z, n.leaf, |n.entries|)) {
          path := [];
        } else {
          path := path + [p];
        }
        t := Track(t.at + [i], t.child + [j]);
        p := c;
      }
      CellAt(pages, rows, |t.at| - 1, t.at[|t.at| - 1]);
      LeafIsLast(z, rows, |t.at| - 1, t.at[|t.at| - 1]);
    }

    /** ---------- Insert ---------- */

    method NewPage() returns (p: PageNo)
      modifies this`numPages
      ensures p == old(numPages) && numPages == p + 1
    {
      p := numPages;
      numPages := numPages + 1;
    }

    /** Adds exactly the entry. A new root appears only above a split old root. */
    method Insert(k: Key, rid: nat)
      requires Valid() && !HasKey(Entries(), k)
      modifies this
      ensures Valid() && Entries() == SortedInsert(old(Entries()), Entry(k, rid))
      ensures (height == old(height) && root == old(root))
              || (height == old(height) + 1 && root in pages && pages[root].leftmost == old(root) &&
                  |pages[root].entries| == 1)
    {
      var p, path;
      ghost var t;
      p, path, t := Descend(k, false);
      InsertIntoLeaf(p, Entry(k, rid), path, t);
    }

    method InsertIntoLeaf(p: PageNo, e: Entry, path: seq<PageNo>, ghost t: Track)
      requires Valid() && !HasKey(Entries(), e.key) && |t.at| == |rows|
      requires OnPath(rows, t, path) && OnNode(rows, |rows| - 1, t.at[|rows| - 1], p, e.key) && p in pages
      requires TopAbsorbs(z, rows, t, Top(t, path))
      modifies this
      ensures Valid() && Entries() == SortedInsert(old(Entries()), e)
      ensures (height == old(height) && root == old(root))
              || (height == old(height) + 1 && root in pages && pages[root].leftmost == old(root) &&
                  |pages[root].entries| == 1)
    {
      hide TreeOk, Holds, Covers, LeavesOk, OnPath, Put, SortedInsert, SortedKeys, Pending;
      ghost var l, i := |rows| - 1, t.at[|rows| - 1];
      CellAt(pages, rows, l, i);
      var entries := SortedInsert(pages[p].entries, e);
      LeafInsertFacts(z, rows, i, e);
      LeafInsertStored(z, rows, i, e);
      if CanFit(z, true, |entries|) {
        RewriteLeaf(p, entries, i);
      } else {
        SplitLeaf(p, entries, path, t, i);
      }
    }

    /** The new entries fit the leaf. */
    method RewriteLeaf(p: PageNo, entries: seq<Entry>, ghost i: nat)
      requires Valid() && i < |Leaves(rows)| && Leaves(rows)[i].page == p && p in pages
      requires CanFit(z, true, |entries|) && SortedKeys(entries) && forall k :: 0 <= k < |entries| ==>
                 Covers(Leaves(rows), i, entries[k].key)
      modifies this`pages, this`rows
      ensures PagesOf(rows) <= PagesOf(old(rows))
      ensures Valid() && Entries() == Stored(old(Leaves(rows))[..i]) + entries + Stored(old(Leaves(rows))[i + 1..])
      ensures |rows| == old(|rows|) && pages == old(pages)[p := old(pages)[p].(entries := entries)]
      ensures rows == old(rows)[|rows| - 1 := old(Leaves(rows))[i := Cell(p, old(pages)[p].(entries := entries))]]
    {
      hide TreeOk, Holds, Covers, LeavesOk, SortedKeys, Put;
      ghost var l := |rows| - 1;
      CellAt(pages, rows, l, i);
      var n := pages[p].(entries := entries);
      ghost var c := Cell(p, n);
      OwnPage(rows, l, i, c);
      LeafRewrite(z, rows, i, entries);
      HoldsRewrite(pages, rows, l, i, n);
      RowHead(rows, l, i, i + 1, [c]);
      PutFlat(rows[l], i, i + 1, [c]);
      FlatOne(c);
      PutOne(rows[l], i, c);
      pages := pages[p := n];
      rows := rows[l := Put(rows[l], i, i + 1, [c])];
    }

    /** They do not: the right half goes to a new page. */
    method SplitLeaf(p: PageNo, entries: seq<Entry>, path: seq<PageNo>, ghost t: Track, ghost i: nat)
      requires Valid() && |t.at| == |rows| && i == t.at[|rows| - 1] && i < |Leaves(rows)| && Leaves(rows)[i].page == p
      requires p in pages
      requires OnPath(rows, t, path) && TopAbsorbs(z, rows, t, Top(t, path))
      requires SortedKeys(entries) && forall k :: 0 <= k < |entries| ==> Covers(Leaves(rows), i, entries[k].key)
      requires |entries| == |pages[p].entries| + 1 && CanFit(z, true, |entries| - 1) && !CanFit(z, true, |entries|)
      modifies this
      ensures Valid() && Entries() == Stored(old(Leaves(rows))[..i]) + entries + Stored(old(Leaves(rows))[i + 1..])
      ensures (height == old(height) && root == old(root))
              || (height == old(height) + 1 && root in pages && pages[root].leftmost == old(root) &&
                  |pages[root].entries| == 1)
    {
      hide TreeOk, Holds, Covers, LeavesOk, OnPath, Put, SortedKeys, Pending, TopAbsorbs, TopOfPath, Stored;
      ghost var l := |rows| - 1;
      CellAt(pages, rows, l, i);
      LeafIsLast(z, rows, l, i);
      var right := NewPage();
      var n, m := pages[p], |entries| / 2;
      LeafHalvesFit(z, |entries|);
      var a, b := MakeLeaf(entries[..m], Some(right), Some(entries[m].key)), MakeLeaf(entries[m..], n.right, n.high);
      ghost var mid := [Cell(p, a), Cell(right, b)];
      LeafSplit(z, rows, i, entries, m, mid[0], mid[1]);
      HoldsSplit(pages, rows, l, i, a, right, b);
      RowHead(rows, l, i, i + 1, mid);
      PutTwo(rows[l], i, mid[0], mid[1]);
      LeafSplitStored(rows[l], i, m, entries, mid[0], mid[1]);
      TrackSame(rows, t, path, rows[l := Put(rows[l], i, i + 1, mid)]);
      TopKept(z, rows, t, path, Put(rows[l], i, i + 1, mid));
      pages := pages[p := a][right := b];
      rows := rows[l := Put(rows[l], i, i + 1, mid)];
      Propagate(path, p, entries[m].key, right, t);
    }

    /** The node at the end of the track was split: hand the separator to the latched
        parents, splitting them in turn, or put a new root on top. */
    method Propagate(latched: seq<PageNo>, firstLeft: PageNo, firstSeparator: Key, firstRight: PageNo,
                     ghost track: Track)
      requires SizesOk(z) && Placed(|rows|) && OnPath(rows, track, latched)
      requires SplitAtEnd(z, rows, track, firstLeft, firstSeparator, firstRight) && TopOfPath(z, rows, track, latched)
      modifies this
      ensures Valid() && Entries() == old(Entries())
      ensures (height == old(height) && root == old(root))
              || (height == old(height) + 1 && root in pages && pages[root].leftmost == old(root) &&
                  |pages[root].entries| == 1)
    {
      hide SplitAtEnd, TopOfPath, OnPath, TreeOk, Stored, Holds;
      var path, left, separator, right := latched, firstLeft, firstSeparator, firstRight;
      ghost var t := track;
      while path != []
        invariant Placed(|rows|) && OnPath(rows, t, path)
        invariant SplitAtEnd(z, rows, t, left, separator, right) && TopOfPath(z, rows, t, path)
        invariant Entries() == old(Entries()) && height == old(height) && root == old(root)
        decreases |path|
      {
        var parent := path[|path| - 1];
        var done;
        done, left, separator, right := GiveToParent(parent, left, separator, right, path, t);
        if done { return; }
        path, t := path[..|path| - 1], Shorter(t);
      }
      PathEnds(z, rows, t);
      GrowRoot(left, separator, right, t);
    }

    /** The parent takes the separator, or splits and hands one up. */
    method GiveToParent(parent: PageNo, left: PageNo, separator: Key, right: PageNo, path: seq<PageNo>, ghost t: Track)
      returns (done: bool, left': PageNo, separator': Key, right': PageNo)
      requires SizesOk(z) && Placed(|rows|) && OnPath(rows, t, path) && path != [] && parent == path[|path| - 1]
      requires SplitAtEnd(z, rows, t, left, separator, right) && TopOfPath(z, rows, t, path)
      modifies this
      ensures done ==> Valid()
      ensures !done ==> Placed(|rows|) && OnPath(rows, Shorter(t), path[..|path| - 1])
                        && SplitAtEnd(z, rows, Shorter(t), left', separator', right')
                        && TopOfPath(z, rows, Shorter(t), path[..|path| - 1])
      ensures rows != [] && Entries() == old(Entries()) && height == old(height) && root == old(root)
    {
      hide Pending, TopOfPath, OnPath, TreeOk, Stored, Holds, SortedInsert, Absorbed, IsChild, Top;
      left', separator', right' := left, separator, right;
      ghost var l := |t.at| - 1;
      PathShorter(rows, t, path);
      ghost var pi, j := t.at[l - 1], t.child[l - 1];
      ParentFacts(z, rows, l, pi, j, t.at[l]);
      CellAt(pages, rows, l - 1, pi);
      var entries := SortedInsert(pages[parent].entries, Entry(separator, right));
      SortedLikeAbsorbed(z, rows, l, pi, j, separator, right);
      if CanFit(z, false, |entries|) {
        AbsorbSeparator(parent, entries, l, pi, j);
        done := true;
      } else {
        separator', right' := SplitInternal(parent, entries, path, t, l, pi, j);
        left', done := parent, false;
      }
    }

    method AbsorbSeparator(parent: PageNo, entries: seq<Entry>, ghost l: nat, ghost pi: nat, ghost j: nat)
      requires SizesOk(z) && Placed(|rows|) && 0 < l < |rows| && pi < |rows[l - 1]|
      requires j <= |rows[l - 1][pi].node.entries|
      requires Pending(z, rows, l, Offset(rows[l - 1], pi) + j) && rows[l][Offset(rows[l - 1], pi) + j].node.high.Some?
      requires parent == rows[l - 1][pi].page && entries == Absorbed(rows, l, pi, j).entries
      requires CanFit(z, false, |entries|)
      modifies this`pages, this`rows
      ensures Valid() && |rows| == old(|rows|) && Entries() == old(Entries())
    {
      hide Pending, TreeOk, Stored, Holds, Put;
      CellAt(pages, rows, l - 1, pi);
      var n := pages[parent].(entries := entries);
      ParentAbsorbs(z, rows, l, pi, j, Cell(parent, n));
      HoldsRewrite(pages, rows, l - 1, pi, n);
      RowHead(rows, l - 1, pi, pi + 1, [Cell(parent, n)]);
      pages := pages[parent := n];
      rows := rows[l - 1 := Put(rows[l - 1], pi, pi + 1, [Cell(parent, n)])];
    }

    method SplitInternal(parent: PageNo, entries: seq<Entry>, path: seq<PageNo>, ghost t: Track, ghost l: nat,
                         ghost pi: nat, ghost j: nat)
      returns (separator: Key, right: PageNo)
      requires SizesOk(z) && Placed(|rows|) && 0 < l < |rows| && pi < |rows[l - 1]|
      requires j <= |rows[l - 1][pi].node.entries|
      requires Pending(z, rows, l, Offset(rows[l - 1], pi) + j) && rows[l][Offset(rows[l - 1], pi) + j].node.high.Some?
      requires parent == rows[l - 1][pi].page && entries == Absorbed(rows, l, pi, j).entries
      requires !CanFit(z, false, |entries|)
      requires |entries| == |rows[l - 1][pi].node.entries| + 1 && NodeOk(z, rows[l - 1][pi].node, false)
      requires l == |t.at| - 1 && pi == t.at[l - 1] && OnPath(rows, t, path) && path != []
      requires TopOfPath(z, rows, t, path)
      modifies this
      ensures Placed(|rows|) && OnPath(rows, Shorter(t), path[..|path| - 1])
      ensures SplitAtEnd(z, rows, Shorter(t), parent, separator, right)
      ensures TopOfPath(z, rows, Shorter(t), path[..|path| - 1])
      ensures Entries() == old(Entries()) && height == old(height) && root == old(root)
    {
      hide Pending, TreeOk, Stored, Holds, Put, OnPath, Shorter, Top, TopAbsorbs;
      CellAt(pages, rows, l - 1, pi);
      var n := pages[parent];
      right := NewPage();
      var m := |entries| / 2;
      separator := entries[m].key;
      var a := MakeInternal(n.leftmost, entries[..m], Some(right), Some(separator));
      var b := MakeInternal(entries[m].ref, entries[m + 1..], n.right, n.high);
      ghost var mid := [Cell(parent, a), Cell(right, b)];
      InternalHalvesFit(z, |entries|);
      ParentSplits(z, rows, l, pi, j, m, mid[0], mid[1]);
      HoldsSplit(pages, rows, l - 1, pi, a, right, b);
      RowHead(rows, l - 1, pi, pi + 1, mid);
      PutTwo(rows[l - 1], pi, mid[0], mid[1]);
      PathShorter(rows, t, path);
      TrackSame(rows, Shorter(t), path[..|path| - 1], rows[l - 1 := Put(rows[l - 1], pi, pi + 1, mid)]);
      TopStays(z, rows, t, path);
      TopKept(z, rows, Shorter(t), path[..|path| - 1], Put(rows[l - 1], pi, pi + 1, mid));
      pages := pages[parent := a][right := b];
      rows := rows[l - 1 := Put(rows[l - 1], pi, pi + 1, mid)];
    }

    method GrowRoot(left: PageNo, separator: Key, right: PageNo, ghost t: Track)
      requires SizesOk(z) && Placed(|rows|) && |t.at| == 1 && OnTrack(rows, t)
      requires SplitAtEnd(z, rows, t, left, separator, right)
      modifies this
      ensures Valid() && Entries() == old(Entries()) && height == old(height) + 1
      ensures root in pages && pages[root].leftmost == old(root) && |pages[root].entries| == 1
    {
      hide TreeOk, Holds, Stored;
      var p := NewPage();
      var n := MakeInternal(left, [Entry(separator, right)], None, None);
      assert CanFit(z, false, 1);
      NewRoot(z, rows, Cell(p, n));
      HoldsRoot(pages, rows, p, n);
      assert Leaves([[Cell(p, n)]] + rows) == Leaves(rows);
      pages, root, height := pages[p := n], p, height + 1;
      rows := [[Cell(p, n)]] + rows;
    }

    /** ---------- Delete ---------- */

    /** An entry has moved between two neighbours: rewrite both and their separator. */
    method ReplacePair(parent: PageNo, p: PageNo, q: PageNo, a: Node, b: Node, j: nat, ghost l: nat, ghost pi: nat,
                       ghost m: nat)
      requires Valid() && PairAt(rows, l, pi, j, parent, p, q)
      requires var n := Merged(Left(rows, l, pi, j).node, Right(rows, l, pi, j).node,
                               rows[l - 1][pi].node.entries[j].key);
               0 < m < |n.entries| && a == CutLeft(n, m, q) && b == CutRight(n, m)
      requires CanFit(z, a.leaf, |a.entries|) && CanFit(z, b.leaf, |b.entries|)
      requires a.high != BoundAt(rows[l - 1][pi].node, j)
      modifies this`pages, this`rows
      ensures PagesOf(rows) <= PagesOf(old(rows))
      ensures Valid() && SamePlaces(old(rows), rows, l, pi) && Entries() == old(Entries())
      ensures parent in old(pages) && j < |old(pages)[parent].entries| && Outdated(pages, parent, old(pages)[parent])
      ensures pages == old(pages)[p := a][q := b][parent := SetSeparator(old(pages)[parent], j, a.high.value)]
    {
      hide TreeOk, Holds, Stored, Put, Rearranged;
      PairChildren(z, pages, rows, l, pi, j, parent, p, q);
      ghost var x := Offset(rows[l - 1], pi) + j;
      PairFacts(z, pages, rows, l, pi, j, parent, p, q);
      ghost var rows1 := rows[l := Put(rows[l], x, x + 2, [Cell(p, a), Cell(q, b)])];
      var n := pages[parent];
      var n' := SetSeparator(n, j, a.high.value);
      BorrowRearranges(z, rows, l, x, n.entries[j].key, m);
      CutIsLeaf(pages[p], pages[q], n.entries[j].key, m, q);
      BorrowOk(z, rows, l, pi, j, Cell(p, a), Cell(q, b));
      BorrowStored(rows, Put(rows[l - 1], pi, pi + 1, [Cell(parent, n')]), l, x, n.entries[j].key, m);
      HoldsPair(pages, rows, l, x, a, b);
      HoldsRewrite(pages[p := a][q := b], rows1, l - 1, pi, n');
      PlacesKept(rows, l, pi, Put(rows[l], x, x + 2, [Cell(p, a), Cell(q, b)]), Cell(parent, n'));
      PairPages(rows, l, x, x + 2, [Cell(p, a), Cell(q, b)], pi, Cell(parent, n'));
      assert Mismatch(pages[p := a][q := b][parent := n'], n, j);
      pages := pages[p := a][q := b][parent := n'];
      rows := rows1[l - 1 := Put(rows[l - 1], pi, pi + 1, [Cell(parent, n')])];
    }

    /** Node q goes into node p; its page is retired with a redirect to p. */
    method MergePair(parent: PageNo, p: PageNo, q: PageNo, j: nat, ghost l: nat, ghost pi: nat) returns (ok: bool)
      requires Valid() && PairAt(rows, l, pi, j, parent, p, q) && p in pages && q in pages && parent in pages
      requires j < |pages[parent].entries|
      modifies this`pages, this`rows
      ensures PagesOf(rows) <= PagesOf(old(rows))
      ensures Valid() && Entries() == old(Entries())
      ensures ok <==> PairFits(z, old(pages), old(pages)[parent], j)
      ensures !ok ==> pages == old(pages) && rows == old(rows)
      ensures ok ==> SamePlaces(old(rows), rows, l, pi) && pages == MergedPages(old(pages), parent, j)
      ensures ok ==> q in pages && pages[q].retired && pages[q].leftmost == p
      ensures ok ==> Outdated(pages, parent, old(pages)[parent])
    {
      hide TreeOk, Holds, Stored;
      PairFacts(z, pages, rows, l, pi, j, parent, p, q);
      PairChildren(z, pages, rows, l, pi, j, parent, p, q);
      var a := Merged(pages[p], pages[q], pages[parent].entries[j].key);
      if !CanFit(z, a.leaf, |a.entries|) { return false; }
      WriteMerged(parent, p, q, a, j, l, pi);
      return true;
    }

    method WriteMerged(parent: PageNo, p: PageNo, q: PageNo, a: Node, j: nat, ghost l: nat, ghost pi: nat)
      requires Valid() && PairAt(rows, l, pi, j, parent, p, q) && q in pages && parent in pages
      requires j < |pages[parent].entries|
      requires a == Merged(Left(rows, l, pi, j).node, Right(rows, l, pi, j).node, rows[l - 1][pi].node.entries[j].key)
      requires CanFit(z, a.leaf, |a.entries|)
      modifies this`pages, this`rows
      ensures PagesOf(rows) <= PagesOf(old(rows))
      ensures Valid() && Entries() == old(Entries()) && SamePlaces(old(rows), rows, l, pi)
      ensures pages == MergedPages(old(pages), parent, j) && q in pages && pages[q].retired && pages[q].leftmost == p
      ensures Outdated(pages, parent, old(pages)[parent])
    {
      hide TreeOk, Holds, Stored, Put, Rearranged;
      PairChildren(z, pages, rows, l, pi, j, parent, p, q);
      ghost var x := Offset(rows[l - 1], pi) + j;
      PairFacts(z, pages, rows, l, pi, j, parent, p, q);
      var n := pages[parent];
      var n' := n.(entries := EraseAt(n.entries, j));
      var retired := Node(a.leaf, p, [], pages[q].right, pages[q].high, true);
      ghost var rows1, prow := rows[l := Put(rows[l], x, x + 2, [Cell(p, a)])],
          Put(rows[l - 1], pi, pi + 1, [Cell(parent, n')]);
      MergeRearranges(z, rows, l, x, n.entries[j].key);
      MergeOk(z, rows, l, pi, j, Cell(p, a));
      MergeStored(rows, prow, l, x, n.entries[j].key);
      HoldsMerge(pages, rows, l, x, a, retired);
      HoldsRewrite(pages[p := a][q := retired], rows1, l - 1, pi, n');
      PlacesKept(rows, l, pi, Put(rows[l], x, x + 2, [Cell(p, a)]), Cell(parent, n'));
      PairPages(rows, l, x, x + 2, [Cell(p, a)], pi, Cell(parent, n'));
      assert Mismatch(pages[p := a][q := retired][parent := n'], n, j + 1);
      pages := pages[p := a][q := retired][parent := n'];
      rows := rows1[l - 1 := prow];
    }

    /** The last entry of the left neighbour moves right. */
    method BorrowFromLeft(parent: PageNo, p: PageNo, q: PageNo, j: nat, ghost l: nat, ghost pi: nat)
      requires Valid() && PairAt(rows, l, pi, j, parent, p, q) && p in pages && q in pages && parent in pages
      requires j < |pages[parent].entries|
      requires ChildAt(pages[parent], j) == p && ChildAt(pages[parent], j + 1) == q
      requires pages[p].entries != [] && !Underfull(z, pages[p].leaf, |pages[p].entries| - 1)
      requires Underfull(z, pages[q].leaf, |pages[q].entries|)
      modifies this`pages, this`rows
      ensures PagesOf(rows) <= PagesOf(old(rows))
      ensures Valid() && SamePlaces(old(rows), rows, l, pi) && Entries() == old(Entries())
      ensures pages == LentFromLeft(old(pages), parent, j) && Outdated(pages, parent, old(pages)[parent])
    {
      hide TreeOk, Holds, Stored, Underfull, CanFit;
      PairFacts(z, pages, rows, l, pi, j, parent, p, q);
      var a, b, separator := pages[p], pages[q], pages[parent].entries[j].key;
      var last := |a.entries| - 1;
      var borrowed := a.entries[last];
      LenderHasMore(z, a.leaf, last, |b.entries|);
      FewerFit(z, a.leaf, last + 1, last);
      FewerFit(z, a.leaf, last + 1, |b.entries| + 1);
      BorrowLeftIsCut(a, b, separator, q);
      KeyBelowHigh(z, rows, l, Offset(rows[l - 1], pi) + j, last);
      var a', b';
      if a.leaf {
        a' := MakeLeaf(a.entries[..last], Some(q), Some(borrowed.key));
        b' := MakeLeaf([borrowed] + b.entries, b.right, b.high);
      } else {
        a' := MakeInternal(a.leftmost, a.entries[..last], Some(q), Some(borrowed.key));
        b' := MakeInternal(borrowed.ref, [Entry(separator, b.leftmost)] + b.entries, b.right, b.high);
      }
      ReplacePair(parent, p, q, a', b', j, l, pi, last);
    }

    /** The first entry of the right neighbour moves left. */
    method BorrowFromRight(parent: PageNo, p: PageNo, q: PageNo, j: nat, ghost l: nat, ghost pi: nat)
      requires Valid() && PairAt(rows, l, pi, j, parent, p, q) && p in pages && q in pages && parent in pages
      requires j < |pages[parent].entries|
      requires ChildAt(pages[parent], j) == p && ChildAt(pages[parent], j + 1) == q
      requires |pages[q].entries| > 1 && !Underfull(z, pages[q].leaf, |pages[q].entries| - 1)
      requires Underfull(z, pages[p].leaf, |pages[p].entries|)
      modifies this`pages, this`rows
      ensures PagesOf(rows) <= PagesOf(old(rows))
      ensures Valid() && SamePlaces(old(rows), rows, l, pi) && Entries() == old(Entries())
      ensures pages == LentFromRight(old(pages), parent, j) && Outdated(pages, parent, old(pages)[parent])
    {
      hide TreeOk, Holds, Stored, Underfull, CanFit;
      PairFacts(z, pages, rows, l, pi, j, parent, p, q);
      var a, b, separator := pages[p], pages[q], pages[parent].entries[j].key;
      LenderHasMore(z, a.leaf, |b.entries| - 1, |a.entries|);
      FewerFit(z, a.leaf, |b.entries|, |b.entries| - 1);
      FewerFit(z, a.leaf, |b.entries|, |a.entries| + 1);
      BorrowRightIsCut(a, b, separator, q);
      SecondKeyAbove(z, rows, l, Offset(rows[l - 1], pi) + j + 1);
      var a', b';
      if a.leaf {
        a' := MakeLeaf(a.entries + [b.entries[0]], a.right, Some(b.entries[1].key));
        b' := MakeLeaf(b.entries[1..], b.right, b.high);
      } else {
        a' := MakeInternal(a.leftmost, a.entries + [Entry(separator, b.leftmost)], a.right, Some(b.entries[0].key));
        b' := MakeInternal(b.entries[0].ref, b.entries[1..], b.right, b.high);
      }
      ReplacePair(parent, p, q, a', b', j, l, pi, |a.entries| + 1);
    }

    /** One turn of the fix-up loop: borrow from the left or the right neighbour, else merge
        with one of them. It fails, changing nothing, when there is no neighbour or the
        merged node does not fit. */
    method FixChild(parent: PageNo, current: PageNo, ghost l: nat, ghost pi: nat, ghost at: nat) returns (ok: bool)
      requires Valid() && ChildAtPage(rows, l, pi, at, parent, current) && parent in pages && current in pages
      requires Underfull(z, pages[current].leaf, |pages[current].entries|)
      modifies this`pages, this`rows
      ensures PagesOf(rows) <= PagesOf(old(rows))
      ensures Valid() && Entries() == old(Entries())
      ensures at <= |old(pages)[parent].entries| && (!ok <==> Stuck(z, old(pages), old(pages)[parent], at))
      ensures ok ==> SamePlaces(old(rows), rows, l, pi) && pages == FixedPages(z, old(pages), parent, at)
      ensures ok ==> Outdated(pages, parent, old(pages)[parent])
      ensures !ok ==> pages == old(pages) && rows == old(rows)
    {
      hide TreeOk, Holds, Stored, Underfull, CanFit, Outdated, LentFromLeft, LentFromRight, MergedPages;
      var n := pages[parent];
      var pos := FindChildPosition(n, current);
      PositionIs(z, pages, rows, l, pi, at, parent, current, pos);
      var j := pos.value;
      if j > 0 {
        var left := ChildAt(n, j - 1);
        Neighbours(z, pages, rows, l, pi, j - 1, parent);
        if pages[left].entries != [] && !Underfull(z, pages[left].leaf, |pages[left].entries| - 1) {
          BorrowFromLeft(parent, left, current, j - 1, l, pi);
          return true;
        }
      }
      if j < |n.entries| {
        var right := ChildAt(n, j + 1);
        Neighbours(z, pages, rows, l, pi, j, parent);
        if |pages[right].entries| > 1 && !Underfull(z, pages[right].leaf, |pages[right].entries| - 1) {
          BorrowFromRight(parent, current, right, j, l, pi);
          return true;
        }
      }
      if j > 0 {
        ok := MergePair(parent, ChildAt(n, j - 1), current, j - 1, l, pi);
        return;
      }
      if j < |n.entries| {
        ok := MergePair(parent, current, ChildAt(n, j + 1), j, l, pi);
        return;
      }
      return false;
    }

    /** The root has one child left: the child becomes the root. */
    method CollapseRoot()
      requires Valid() && height > 1 && root in pages && pages[root].entries == []
      modifies this
      ensures PagesOf(rows) <= PagesOf(old(rows))
      ensures Valid() && Entries() == old(Entries()) && height == old(height) - 1
      ensures root == old(pages)[old(root)].leftmost
      ensures pages == old(pages)[old(root) := old(pages)[old(root)].(right := None, high := None, retired := true)]
    {
      hide TreeOk, Holds, Stored;
      CellAt(pages, rows, 0, 0);
      RootCovers(z, rows, 0);
      CollapseOk(z, rows);
      var n := pages[root];
      TailPages(rows);
      HoldsTail(pages, rows, n.(right := None, high := None, retired := true));
      pages := pages[root := n.(right := None, high := None, retired := true)];
      root, height := n.leftmost, height - 1;
      rows := rows[1..];
    }

    /** The fix-up loop, from an underfull node at the end of the track up the latched path. If
        it fails, `last` is the page it stood at. `moved` says that some level was fixed; then
        `last` was rewritten with it, and `was` is its node before that. */
    method Rebalance(latched: seq<PageNo>, first: PageNo, ghost track: Track, ghost s: set<PageNo>)
      returns (ok: bool, ghost moved: bool, ghost last: PageNo, ghost was: Node)
      requires Valid() && OnPath(rows, track, latched) && AtEnd(rows, track, first) && first in pages
      requires Underfull(z, pages[first].leaf, |pages[first].entries|)
      requires latched != [] && TopLoses(z, pages, root, latched[0]) && PagesOf(rows) <= s
      modifies this
      ensures Valid() && Entries() == old(Entries())
      ensures PagesOf(rows) <= s
      ensures ok && FilledBut(z, old(pages), s, old(root), first) ==> Filled(z, pages, s, root)
      ensures !ok <==> FixUpFails(z, old(pages), old(root), latched, first)
      ensures !ok ==> latched != [] && (moved <==> !StuckUnder(z, old(pages), latched[|latched| - 1], first))
      ensures !ok ==> if moved then NoTree(z, pages[last := was], root)
                      else last == first && pages == old(pages) && root == old(root)
    {
      hide TreeOk, Holds, Stored, Underfull, OnPath, SamePlaces, NoTree, Stuck, FixedPages, Filled, FilledBut;
      hide SafeForDelete;
      moved, last, was := false, first, pages[first];
      var path, current := latched, first;
      ghost var t := track;
      while path != []
        invariant Valid() && Entries() == old(Entries()) && OnPath(rows, t, path) && AtEnd(rows, t, current)
        invariant current in pages && last == current && root == old(root) && PagesOf(rows) <= s
        invariant path != [] ==> TopLoses(z, pages, root, path[0])
        invariant path == [] && FilledBut(z, old(pages), s, root, first) ==> Filled(z, pages, s, root)
        invariant FilledBut(z, old(pages), s, root, first) ==> FilledBut(z, pages, s, root, current)
        invariant Underfull(z, pages[current].leaf, |pages[current].entries|)
        invariant FixUpFails(z, old(pages), root, latched, first) <==> FixUpFails(z, pages, root, path, current)
        invariant !moved ==> pages == old(pages) && path == latched && current == first
        invariant moved ==> latched != [] && !StuckUnder(z, old(pages), latched[|latched| - 1], first)
        invariant moved ==> NoTree(z, pages[last := was], root)
        decreases |path|
      {
        var parent, rest := path[|path| - 1], path[..|path| - 1];
        assert path == rest + [parent];
        path := rest;
        ghost var before := pages;
        ok, t := FixUnder(parent, current, path, t, s);
        if !ok { return; }
        moved, last, was := true, parent, NodeAt(before, parent);
        var entries := pages[parent].entries;
        if parent == root && entries == [] {
          ParentNotLeaf(z, pages, rows, t);
          ghost var fixed := pages;
          CollapseRoot();
          if FilledBut(z, fixed, s, parent, parent) { CollapsedFilled(z, fixed, s, parent, pages, root); }
          return;
        }
        if parent == root || !Underfull(z, false, |entries|) {
          if FilledBut(z, pages, s, root, parent) { NowFilled(z, pages, s, root, parent); }
          return;
        }
        if rest == [] { LostAtMostOne(z, before, root, parent, |entries|); }
        ParentNotLeaf(z, pages, rows, t);
        current := parent;
      }
      ok := true;
    }

    /** FixChild for the end of the track. */
    method FixUnder(parent: PageNo, current: PageNo, rest: seq<PageNo>, ghost t: Track, ghost s: set<PageNo>)
      returns (ok: bool, ghost t': Track)
      requires Valid() && OnPath(rows, t, rest + [parent]) && AtEnd(rows, t, current) && current in pages
      requires PagesOf(rows) <= s
      requires Underfull(z, pages[current].leaf, |pages[current].entries|)
      modifies this`pages, this`rows
      ensures Valid() && Entries() == old(Entries())
      ensures var pos := PositionFrom(NodeAt(old(pages), parent), current, 0);
              && pos.Some? && (!ok <==> Stuck(z, old(pages), NodeAt(old(pages), parent), pos.value))
              && (ok ==> pages == FixedPages(z, old(pages), parent, pos.value))
      ensures ok ==> NoTree(z, pages[parent := NodeAt(old(pages), parent)], root)
      ensures PagesOf(rows) <= PagesOf(old(rows)) && parent in old(pages)
      ensures ok && FilledBut(z, old(pages), s, root, current) ==> FilledBut(z, pages, s, root, parent)
      ensures ok ==> parent in pages && !old(pages)[parent].leaf && !pages[parent].leaf
      ensures ok ==> |pages[parent].entries| >= |old(pages)[parent].entries| - 1
      ensures rest != [] ==> rest[0] in pages && rest[0] in old(pages) && pages[rest[0]] == old(pages)[rest[0]]
      ensures !ok ==> pages == old(pages)
      ensures ok ==> t' == Shorter(t) && |t'.at| < |rows| && OnPath(rows, t', rest)
      ensures ok ==> AtEnd(rows, t', parent) && parent in pages
    {
      hide TreeOk, Holds, Stored, Underfull, OnPath, Top, IsChild, Stuck, FixedPages, NoTree, Outdated, FilledBut,
          NeighboursOk;
      var path := rest + [parent];
      assert path[..|path| - 1] == rest;
      PathShorter(rows, t, path);
      t' := Shorter(t);
      ghost var l := |t.at| - 1;
      ghost var pi, j := t.at[l - 1], t.child[l - 1];
      EndIsChild(rows, t, parent, current);
      CellAt(pages, rows, l - 1, pi);
      ghost var pos := PositionFrom(pages[parent], current, 0);
      PositionIs(z, pages, rows, l, pi, j, parent, current, pos);
      ghost var stale := pages[parent];
      NeighboursGood(z, pages, rows, l, pi, j, parent, current, s, root);
      ghost var before, rowsBefore := pages, rows;
      if rest != [] { PathTopKept(pages, pages, rows, rows, t', rest); }
      ok := FixChild(parent, current, l, pi, j);
      if ok {
        FixedParent(z, before, parent, j);
        if FilledBut(z, before, s, root, current) { FixFills(z, before, s, root, parent, j); }
        if rest != [] { PathTopKept(before, pages, rowsBefore, rows, t', rest); }
        OutdatedNoTree(z, pages, rows, l - 1, pi, stale);
        assert rows[0] != [];
        TrackSame(old(rows), t', rest, rows);
        CellAt(pages, rows, l - 1, pi);
      }
    }

    /** NotFound changes nothing. Otherwise exactly the entry is gone from the buffered pages,
        also when the fix-up gives up. If it does, the rewrite of the page it stood at, which is
        then `was` again, may be dropped: that leaves a tree if and only if no level was fixed,
        namely the one there was before. */
    method Delete(k: Key, rid: nat)
      returns (outcome: DeleteOutcome, ghost moved: bool, ghost last: PageNo, ghost was: Node)
      requires Valid()
      modifies this
      ensures Valid()
      ensures outcome.NotFound? <==> Entry(k, rid) !in old(Entries())
      ensures outcome.NotFound? ==> pages == old(pages) && root == old(root) && Entries() == old(Entries())
      ensures !outcome.NotFound? ==> Entries() == RemoveEntry(old(Entries()), Entry(k, rid))
      ensures outcome.Failed? <==> DeleteFails(z, old(pages), old(root), old(height), Entry(k, rid))
      ensures outcome.Failed? ==> (moved <==> !LeafStuck(z, old(pages), old(root), old(height), Entry(k, rid)))
      ensures outcome.Failed? ==> (NoTree(z, pages[last := was], root) <==> moved)
      ensures outcome.Failed? && !moved ==> pages[last := was] == old(pages) && root == old(root)
      ensures outcome.Deleted? && old(TreeFilled(z, rows)) ==> TreeFilled(z, rows)
    {
      hide TreeOk, Holds, Stored, Underfull, OnPath, Covers, LeavesOk, SortedKeys, CanFit, NoTree, FixUpFails,
          StuckUnder;
      hide TreeFilled, Filled, FilledBut, SafeForDelete, TopLoses, PagesOf, LeafErased, RemoveEntry;
      ghost var s, filled, before := PagesOf(rows), TreeFilled(z, rows), rows;
      if filled { FilledOnPages(z, pages, rows, root); }
      var p, path;
      ghost var t;
      p, path, t := Descend(k, true);
      hide WayDown;
      moved, last, was := false, p, pages[p];
      ghost var l, i := |rows| - 1, t.at[|rows| - 1];
      CellAt(pages, rows, l, i);
      var e := Entry(k, rid);
      var at := FindEntry(pages[p].entries, e);
      OnlyHere(z, rows, i, e);
      if at == |pages[p].entries| { outcome := NotFound; return; }
      EraseEntry(p, path, e, at, t);
      if p == root || !Underfull(z, true, |pages[p].entries|) {
        outcome := Deleted;
        if filled {
          NowFilled(z, pages, s, root, p);
          FilledInRows(z, pages, rows, s, root);
        }
        return;
      }
      ghost var leaf := was;
      assert pages[p := leaf] == old(pages) by { EraseUndone(old(pages), p, e); }
      var ok;
      ok, moved, last, was := Rebalance(path, p, t, s);
      if ok && filled { FilledInRows(z, pages, rows, s, root); }
      outcome := if ok then Deleted else Failed;
      if !ok && !moved {
        was := leaf;
        IsATree(z, old(pages), before, root);
      }
    }

    /** The entry goes from the leaf at the end of the track. */
    method EraseEntry(p: PageNo, path: seq<PageNo>, e: Entry, at: nat, ghost t: Track)
      requires Valid() && |t.at| == |rows| && OnPath(rows, t, path) && AtEnd(rows, t, p) && p in pages
      requires at < |pages[p].entries| && pages[p].entries[at] == e
      requires forall x :: 0 <= x < at ==> pages[p].entries[x] != e
      requires TopLoses(z, pages, root, if path == [] then p else path[0])
      modifies this`pages, this`rows
      ensures Valid() && Entries() == RemoveEntry(old(Entries()), e) && OnPath(rows, t, path) && AtEnd(rows, t, p)
      ensures pages == LeafErased(old(pages), p, e) && p in pages && pages[p].leaf
      ensures |pages[p].entries| == |old(pages)[p].entries| - 1 && PagesOf(rows) <= PagesOf(old(rows))
      ensures Filled(z, old(pages), PagesOf(old(rows)), root) ==> FilledBut(z, pages, PagesOf(old(rows)), root, p)
      ensures if path == [] then p == root || !Underfull(z, true, |pages[p].entries|)
              else TopLoses(z, pages, root, path[0])
    {
      hide TreeOk, Holds, Stored, Underfull, OnPath, Covers, LeavesOk, SortedKeys, CanFit, Filled, FilledBut, PagesOf;
      ghost var l, i, before := |rows| - 1, t.at[|rows| - 1], rows;
      CellAt(pages, rows, l, i);
      LeafIsLast(z, rows, l, i);
      var entries := EraseAt(pages[p].entries, at);
      RemoveEntryAt(pages[p].entries, e, at);
      LeafEraseFacts(z, rows, i, at);
      LeafRow(z, rows);
      LeafEraseStored(rows[l], i, at);
      NotRetired(z, rows, l, i);
      PageIn(pages, rows, l, i);
      if path == [] { LostAtMostOne(z, pages, root, p, |entries|); }
      RewriteLeaf(p, entries, i);
      if Filled(z, old(pages), PagesOf(before), root) { LeafLost(z, old(pages), PagesOf(before), root, p, pages); }
      if path != [] { PathTopKept(old(pages), pages, before, rows, t, path); }
      TrackSame(before, t, path, rows);
    }
  }

  lemma {:induction false} NotRetired(z: Sizes, rows: Rows, l: nat, i: nat)
    requires TreeOk(z, rows) && l < |rows| && i < |rows[l]|
    ensures !rows[l][i].node.retired
  {
    OneNodeOk(z, rows, l, i);
  }

  lemma EraseUndone(pages: Pages, p: PageNo, e: Entry)
    requires p in pages
    ensures LeafErased(pages, p, e)[p := pages[p]] == pages
  {
  }

  datatype DeleteOutcome = NotFound | Deleted | Failed

  lemma {:induction false} RemoveEntryAt(entries: seq<Entry>, e: Entry, j: nat)
    requires j < |entries| && entries[j] == e && forall i :: 0 <= i < j ==> entries[i] != e
    ensures RemoveEntry(entries, e) == EraseAt(entries, j)
  {
    if j > 0 {
      RemoveEntryAt(entries[1..], e, j - 1);
      assert entries[..j] == [entries[0]] + entries[1..][..j - 1];
    }
  }

  /** Exactly one occurrence goes. */
  lemma {:induction false} RemoveEntryCount(entries: seq<Entry>, e: Entry)
    requires e in entries
    ensures multiset(RemoveEntry(entries, e)) == multiset(entries) - multiset{e}
  {
    assert entries == [entries[0]] + entries[1..];
    if entries[0] != e { RemoveEntryCount(entries[1..], e); }
  }

  method FindEntry(entries: seq<Entry>, e: Entry) returns (at: nat)
    ensures at <= |entries| && (at < |entries| ==> entries[at] == e) && forall i :: 0 <= i < at ==> entries[i] != e
  {
    at := 0;
    while at < |entries| && entries[at] != e
      invariant at <= |entries| && forall i :: 0 <= i < at ==> entries[i] != e
    {
      at := at + 1;
    }
  }

  /** An entry with a key the leaf covers is in that leaf or nowhere. */
  lemma {:induction false} OnlyHere(z: Sizes, rows: Rows, i: nat, e: Entry)
    requires TreeOk(z, rows) && i < |Leaves(rows)| && Covers(Leaves(rows), i, e.key)
    ensures e in Stored(Leaves(rows)) <==> e in Leaves(rows)[i].node.entries
  {
    var row := Leaves(rows);
    LeafRow(z, rows);
    hide TreeOk, Covers, LeavesOk;
    NoMatchLeft(row, i, e.key);
    NoMatchRight(row, i, e.key, i + 1);
    Around(row, i, i + 1);
    assert row[i..i + 1] == [row[i]];
    FlatOne(row[i]);
  }

  lemma {:induction false} LeafEraseFacts(z: Sizes, rows: Rows, i: nat, at: nat)
    requires TreeOk(z, rows) && i < |Leaves(rows)| && at < |Leaves(rows)[i].node.entries|
    ensures var row := Leaves(rows); var entries := EraseAt(row[i].node.entries, at);
            && SortedKeys(entries) && CanFit(z, true, |entries|)
            && forall k :: 0 <= k < |entries| ==> Covers(row, i, entries[k].key)
  {
    var row := Leaves(rows);
    OneNodeOk(z, rows, |rows| - 1, i);
    LeafRow(z, rows);
    assert LeafOk(row, i);
    hide TreeOk, LeavesOk, Covers;
    var all := row[i].node.entries;
    FewerFit(z, true, |all|, |all| - 1);
    var entries := EraseAt(all, at);
    assert forall k :: 0 <= k < |entries| ==> entries[k] == all[if k < at then k else k + 1];
  }

  lemma {:induction false} LeafEraseStored(row: Row, i: nat, at: nat)
    requires LeavesOk(row) && i < |row| && at < |row[i].node.entries|
    ensures RemoveEntry(Stored(row), row[i].node.entries[at]) ==
            Stored(row[..i]) + EraseAt(row[i].node.entries, at) + Stored(row[i + 1..])
  {
    hide LeavesOk, Stored, SortedKeys, RemoveEntry;
    StoredSorted(row);
    Around(row, i, i + 1);
    assert row[i..i + 1] == [row[i]];
    FlatOne(row[i]);
    EraseInside(Stored(row[..i]), row[i].node.entries, Stored(row[i + 1..]), at);
  }

  lemma {:induction false} EraseInside(p: seq<Entry>, mid: seq<Entry>, q: seq<Entry>, at: nat)
    requires SortedKeys(p + mid + q) && at < |mid|
    ensures RemoveEntry(p + mid + q, mid[at]) == p + EraseAt(mid, at) + q
  {
    hide RemoveEntry;
    var all, j := p + mid + q, |p| + at;
    assert all[j] == mid[at];
    forall k | 0 <= k < j ensures all[k] != mid[at] { assert all[k].key < all[j].key; }
    hide SortedKeys;
    RemoveEntryAt(all, mid[at], j);
    assert all[..j] == p + mid[..at] && all[j + 1..] == mid[at + 1..] + q;
  }

  /** p is the node at the end of the track. */
  ghost predicate AtEnd(rows: Rows, t: Track, p: PageNo) {
    1 <= |t.at| <= |rows| && t.at[|t.at| - 1] < |rows[|t.at| - 1]| && rows[|t.at| - 1][t.at[|t.at| - 1]].page == p
  }

  lemma {:induction false} EndIsChild(rows: Rows, t: Track, parent: PageNo, current: PageNo)
    requires AtEnd(rows, t, current) && |t.at| > 1 && |t.child| == |t.at| - 1
    requires var l := |t.at| - 1;
             IsChild(rows, l - 1, t.at[l - 1], t.child[l - 1], t.at[l]) && parent == rows[l - 1][t.at[l - 1]].page
    ensures ChildAtPage(rows, |t.at| - 1, t.at[|t.at| - 2], t.child[|t.at| - 2], parent, current)
  {
  }

  lemma {:induction false} ParentNotLeaf(z: Sizes, pages: Pages, rows: Rows, t: Track)
    requires TreeOk(z, rows) && Holds(pages, rows) && 1 <= |t.at| < |rows| && t.at[|t.at| - 1] < |rows[|t.at| - 1]|
    ensures var p := rows[|t.at| - 1][t.at[|t.at| - 1]].page; p in pages && !pages[p].leaf
  {
    CellAt(pages, rows, |t.at| - 1, t.at[|t.at| - 1]);
    OneNodeOk(z, rows, |t.at| - 1, t.at[|t.at| - 1]);
  }

  lemma {:induction false} HoldsTail(pages: Pages, rows: Rows, n: Node)
    requires Holds(pages, rows) && rows != [] && |rows[0]| == 1
    ensures Holds(pages[rows[0][0].page := n], rows[1..])
  {
    var all, rest := All(rows), All(rows[1..]);
    assert all == rows[0] + rest;
    hide All;
    forall i | 0 <= i < |rest| ensures At(pages[rows[0][0].page := n], rest[i]) && rest[i] == all[i + 1] {
      assert rest[i] == all[i + 1] && all[0] == rows[0][0];
    }
  }

  ghost predicate ChildAtPage(rows: Rows, l: nat, pi: nat, j: nat, parent: PageNo, current: PageNo) {
    && 0 < l < |rows| && pi < |rows[l - 1]| && rows[l - 1][pi].page == parent
    && IsChild(rows, l - 1, pi, j, Offset(rows[l - 1], pi) + j) && rows[l][Offset(rows[l - 1], pi) + j].page == current
  }

  lemma {:induction false} Neighbours(z: Sizes, pages: Pages, rows: Rows, l: nat, pi: nat, j: nat, parent: PageNo)
    requires TreeOk(z, rows) && Holds(pages, rows) && 0 < l < |rows| && pi < |rows[l - 1]|
    requires rows[l - 1][pi].page == parent
    requires j < |rows[l - 1][pi].node.entries|
    ensures parent in pages && pages[parent] == rows[l - 1][pi].node
    ensures PairAt(rows, l, pi, j, parent, ChildAt(pages[parent], j), ChildAt(pages[parent], j + 1))
    ensures ChildAt(pages[parent], j) in pages && ChildAt(pages[parent], j + 1) in pages
    ensures pages[ChildAt(pages[parent], j)].leaf == pages[ChildAt(pages[parent], j + 1)].leaf
  {
    CellAt(pages, rows, l - 1, pi);
    assert Nested(rows, l - 1);
    ChildPage(rows, l - 1, pi, j);
    ChildPage(rows, l - 1, pi, j + 1);
    hide TreeOk, Holds;
    PairFacts(z, pages, rows, l, pi, j, parent, ChildAt(pages[parent], j), ChildAt(pages[parent], j + 1));
  }

  /** Pages are distinct, so the position found is the child's. */
  lemma {:induction false} PositionIs(z: Sizes, pages: Pages, rows: Rows, l: nat, pi: nat, j: nat, parent: PageNo,
                                      current: PageNo, pos: Option<nat>)
    requires TreeOk(z, rows) && Holds(pages, rows) && ChildAtPage(rows, l, pi, j, parent, current) && parent in pages
    requires pos.Some? ==> pos.value <= |pages[parent].entries| && ChildAt(pages[parent], pos.value) == current
    requires pos.None? ==> forall i :: 0 <= i <= |pages[parent].entries| ==> ChildAt(pages[parent], i) != current
    ensures pos == Some(j) && pages[parent] == rows[l - 1][pi].node
  {
    CellAt(pages, rows, l - 1, pi);
    assert Nested(rows, l - 1);
    ChildPage(rows, l - 1, pi, j);
    if pos.Some? {
      ChildPage(rows, l - 1, pi, pos.value);
      if pos.value != j { DistinctCells(pages, rows, l, Offset(rows[l - 1], pi) + j, l,
                                        Offset(rows[l - 1], pi) + pos.value); }
    }
  }

  lemma {:induction false} BorrowLeftIsCut(a: Node, b: Node, separator: Key, q: PageNo)
    requires a.entries != [] && a.leaf == b.leaf
    ensures var n, m := Merged(a, b, separator), |a.entries| - 1;
            && m < |n.entries|
            && CutLeft(n, m, q) == (if a.leaf then MakeLeaf(a.entries[..m], Some(q), Some(a.entries[m].key))
                                    else MakeInternal(a.leftmost, a.entries[..m], Some(q), Some(a.entries[m].key)))
            && CutRight(n, m) == (if a.leaf then MakeLeaf([a.entries[m]] + b.entries, b.right, b.high)
                                  else MakeInternal(a.entries[m].ref, [Entry(separator, b.leftmost)] + b.entries,
                                                    b.right, b.high))
  {
  }

  lemma {:induction false} BorrowRightIsCut(a: Node, b: Node, separator: Key, q: PageNo)
    requires |b.entries| > 1 && a.leaf == b.leaf
    ensures var n, m := Merged(a, b, separator), |a.entries| + 1;
            && m < |n.entries|
            && CutLeft(n, m, q) == (if a.leaf then MakeLeaf(a.entries + [b.entries[0]], Some(q), Some(b.entries[1].key))
                                    else MakeInternal(a.leftmost, a.entries + [Entry(separator, b.leftmost)], Some(q),
                                                      Some(b.entries[0].key)))
            && CutRight(n, m) == (if a.leaf then MakeLeaf(b.entries[1..], b.right, b.high)
                                  else MakeInternal(b.entries[0].ref, b.entries[1..], b.right, b.high))
  {
  }

  /** p and q are the children j and j + 1 of the parent. */
  ghost predicate PairAt(rows: Rows, l: nat, pi: nat, j: nat, parent: PageNo, p: PageNo, q: PageNo) {
    && 0 < l < |rows| && pi < |rows[l - 1]| && j < |rows[l - 1][pi].node.entries| && rows[l - 1][pi].page == parent
    && IsChild(rows, l - 1, pi, j + 1, Offset(rows[l - 1], pi) + j + 1)
    && rows[l][Offset(rows[l - 1], pi) + j].page == p && rows[l][Offset(rows[l - 1], pi) + j + 1].page == q
  }

  ghost function Left(rows: Rows, l: nat, pi: nat, j: nat): Cell
    requires 0 < l < |rows| && pi <= |rows[l - 1]| && Offset(rows[l - 1], pi) + j < |rows[l]|
  {
    rows[l][Offset(rows[l - 1], pi) + j]
  }

  ghost function Right(rows: Rows, l: nat, pi: nat, j: nat): Cell
    requires 0 < l < |rows| && pi <= |rows[l - 1]| && Offset(rows[l - 1], pi) + j + 1 < |rows[l]|
  {
    rows[l][Offset(rows[l - 1], pi) + j + 1]
  }

  /** Rows above the parent's are the same, and the parent is where it was. */
  ghost predicate SamePlaces(rows: Rows, rows': Rows, l: nat, pi: nat) {
    && |rows'| == |rows| && 0 < l < |rows| && |rows'[l - 1]| == |rows[l - 1]| && pi < |rows[l - 1]|
    && rows'[l - 1][pi].page == rows[l - 1][pi].page
    && (forall k :: 0 <= k < l - 1 ==> rows'[k] == rows[k])
  }

  /** The first latched page stays as it is when only rows below it change. */
  lemma {:induction false} PathTopKept(pages: Pages, pages': Pages, rows: Rows, rows': Rows, t: Track,
                                       path: seq<PageNo>)
    requires Holds(pages, rows) && Holds(pages', rows') && OnPath(rows, t, path) && path != []
    requires |rows'| == |rows| && forall k :: 0 <= k < |t.at| - 1 ==> rows'[k] == rows[k]
    ensures path[0] in pages && path[0] in pages' && pages'[path[0]] == pages[path[0]]
  {
    var top := Top(t, path);
    assert PathAt(rows, t, path, top);
    CellAt(pages, rows, top, t.at[top]);
    CellAt(pages', rows', top, t.at[top]);
  }

  lemma {:induction false} PairPages(rows: Rows, l: nat, a: nat, b: nat, mid: Row, pi: nat, c: Cell)
    requires 0 < l < |rows| && a < b <= |rows[l]| && pi < |rows[l - 1]| && c.page == rows[l - 1][pi].page
    requires forall k :: 0 <= k < |mid| ==> InPart(rows[l], a, b, mid[k].page)
    ensures PagesOf(rows[l := Put(rows[l], a, b, mid)][l - 1 := Put(rows[l - 1], pi, pi + 1, [c])]) <= PagesOf(rows)
  {
    hide Put, PagesOf, InPart;
    PutPages(rows, l, a, b, mid);
    OwnPage(rows[l := Put(rows[l], a, b, mid)], l - 1, pi, c);
  }

  lemma {:induction false} OwnPage(rows: Rows, l: nat, i: nat, c: Cell)
    requires l < |rows| && i < |rows[l]| && c.page == rows[l][i].page
    ensures PagesOf(rows[l := Put(rows[l], i, i + 1, [c])]) <= PagesOf(rows)
  {
    assert InPart(rows[l], i, i + 1, c.page);
    PutPages(rows, l, i, i + 1, [c]);
  }

  /** Neighbours are nodes of their own below the root. */
  lemma {:induction false} NeighboursGood(z: Sizes, pages: Pages, rows: Rows, l: nat, pi: nat, at: nat, parent: PageNo,
                                          current: PageNo, s: set<PageNo>, root: PageNo)
    requires TreeOk(z, rows) && Holds(pages, rows) && HangsFrom(rows, root) && PagesOf(rows) <= s
    requires ChildAtPage(rows, l, pi, at, parent, current)
    ensures NeighboursOk(pages, s, root, parent, at) && ChildAt(pages[parent], at) == current && !pages[parent].leaf
  {
    CellAt(pages, rows, l - 1, pi);
    PageIn(pages, rows, l - 1, pi);
    OneNodeOk(z, rows, l - 1, pi);
    assert Nested(rows, l - 1);
    ChildPage(rows, l - 1, pi, at);
    hide TreeOk, Holds, PagesOf;
    if at > 0 { OneNeighbour(z, pages, rows, l, pi, at, at - 1, s, root); }
    if at < |pages[parent].entries| { OneNeighbour(z, pages, rows, l, pi, at, at + 1, s, root); }
  }

  lemma {:induction false} OneNeighbour(z: Sizes, pages: Pages, rows: Rows, l: nat, pi: nat, at: nat, k: nat,
                                        s: set<PageNo>, root: PageNo)
    requires TreeOk(z, rows) && Holds(pages, rows) && HangsFrom(rows, root) && PagesOf(rows) <= s
    requires 0 < l < |rows| && pi < |rows[l - 1]| && k != at
    requires at <= |rows[l - 1][pi].node.entries| && k <= |rows[l - 1][pi].node.entries|
    ensures var n := rows[l - 1][pi].node;
            IsNeighbour(pages, s, root, rows[l - 1][pi].page, ChildAt(n, at), ChildAt(n, k))
  {
    assert Nested(rows, l - 1);
    var off := Offset(rows[l - 1], pi);
    ChildPage(rows, l - 1, pi, at);
    ChildPage(rows, l - 1, pi, k);
    CellAt(pages, rows, l, off + at);
    CellAt(pages, rows, l, off + k);
    OneNodeOk(z, rows, l, off + at);
    OneNodeOk(z, rows, l, off + k);
    TopRow(z, rows);
    hide TreeOk, Holds, PagesOf;
    PageIn(pages, rows, l, off + k);
    DistinctCells(pages, rows, l, off + at, l, off + k);
    DistinctCells(pages, rows, l - 1, pi, l, off + at);
    DistinctCells(pages, rows, l - 1, pi, l, off + k);
    DistinctCells(pages, rows, 0, 0, l, off + at);
    DistinctCells(pages, rows, 0, 0, l, off + k);
  }

  lemma {:induction false} IsATree(z: Sizes, pages: Pages, rows: Rows, root: PageNo)
    requires TreeOk(z, rows) && Holds(pages, rows) && HangsFrom(rows, root)
    ensures !NoTree(z, pages, root)
  {
  }

  lemma {:induction false} PairChildren(z: Sizes, pages: Pages, rows: Rows, l: nat, pi: nat, j: nat, parent: PageNo,
                                        p: PageNo, q: PageNo)
    requires TreeOk(z, rows) && Holds(pages, rows) && PairAt(rows, l, pi, j, parent, p, q)
    ensures parent in pages && j < |pages[parent].entries|
    ensures ChildAt(pages[parent], j) == p && ChildAt(pages[parent], j + 1) == q
  {
    CellAt(pages, rows, l - 1, pi);
    assert Nested(rows, l - 1);
    ChildPage(rows, l - 1, pi, j);
    ChildPage(rows, l - 1, pi, j + 1);
  }

  /** The key that becomes the separator when the node lends its first entry. */
  lemma {:induction false} SecondKeyAbove(z: Sizes, rows: Rows, l: nat, i: nat)
    requires TreeOk(z, rows) && l < |rows| && 0 < i < |rows[l]| && |rows[l][i].node.entries| > 1
    ensures rows[l][i - 1].node.high.Some? && rows[l][i].node.leaf == (l == |rows| - 1)
    ensures var n := rows[l][i].node;
            rows[l][i - 1].node.high.value < if n.leaf then n.entries[1].key else n.entries[0].key
  {
    OneNodeOk(z, rows, l, i);
    KeyAboveLeft(z, rows, l, i, 0);
    if l == |rows| - 1 { assert LeafOk(rows[l], i); }
  }

  lemma {:induction false} PairFacts(z: Sizes, pages: Pages, rows: Rows, l: nat, pi: nat, j: nat, parent: PageNo,
                                     p: PageNo, q: PageNo)
    requires TreeOk(z, rows) && Holds(pages, rows) && PairAt(rows, l, pi, j, parent, p, q)
    ensures parent in pages && p in pages && q in pages
    ensures pages[parent] == rows[l - 1][pi].node && pages[p] == Left(rows, l, pi, j).node
    ensures pages[q] == Right(rows, l, pi, j).node
    ensures pages[p].high == Some(pages[parent].entries[j].key) && pages[p].right == Some(q)
    ensures NodeOk(z, pages[p], l == |rows| - 1) && NodeOk(z, pages[q], l == |rows| - 1) && !pages[parent].leaf
    ensures p != q && p != parent && q != parent
  {
    DistinctCells(pages, rows, l - 1, pi, l, Offset(rows[l - 1], pi) + j);
    DistinctCells(pages, rows, l - 1, pi, l, Offset(rows[l - 1], pi) + j + 1);
    DistinctCells(pages, rows, l, Offset(rows[l - 1], pi) + j, l, Offset(rows[l - 1], pi) + j + 1);
    CellAt(pages, rows, l - 1, pi);
    CellAt(pages, rows, l, Offset(rows[l - 1], pi) + j);
    CellAt(pages, rows, l, Offset(rows[l - 1], pi) + j + 1);
    OneNodeOk(z, rows, l, Offset(rows[l - 1], pi) + j);
    OneNodeOk(z, rows, l, Offset(rows[l - 1], pi) + j + 1);
    OneNodeOk(z, rows, l - 1, pi);
    assert Nested(rows, l - 1);
    ChildPage(rows, l - 1, pi, j);
    assert Linked(rows[l]);
    assert LinkAt(rows[l], Offset(rows[l - 1], pi) + j);
  }

  lemma {:induction false} PlacesKept(rows: Rows, l: nat, pi: nat, row: Row, c: Cell)
    requires 0 < l < |rows| && pi < |rows[l - 1]| && c.page == rows[l - 1][pi].page && rows[0] != []
    ensures var rows' := rows[l := row][l - 1 := Put(rows[l - 1], pi, pi + 1, [c])];
            SamePlaces(rows, rows', l, pi) && rows'[0] != [] && rows'[0][0].page == rows[0][0].page
  {
  }

  lemma CutIsLeaf(a: Node, b: Node, separator: Key, m: nat, p: PageNo)
    requires m < |Merged(a, b, separator).entries|
    ensures var n := Merged(a, b, separator);
            && CutLeft(n, m, p).leaf == a.leaf && CutRight(n, m).leaf == a.leaf
            && !CutLeft(n, m, p).retired && !CutRight(n, m).retired && !n.retired && n.leaf == a.leaf
            && CutLeft(n, m, p).right == Some(p) && CutLeft(n, m, p).high.Some? && CutRight(n, m).right == b.right
            && CutRight(n, m).high == b.high
  {
  }

  lemma {:induction false} BorrowStored(rows: Rows, prow: Row, l: nat, x: nat, separator: Key, m: nat)
    requires 0 < l < |rows| && x + 1 < |rows[l]|
    requires m < |Merged(rows[l][x].node, rows[l][x + 1].node, separator).entries|
    requires rows[l][x].node.leaf <==> l == |rows| - 1
    ensures var n := Merged(rows[l][x].node, rows[l][x + 1].node, separator);
            var row := Put(rows[l], x, x + 2,
                           [Cell(rows[l][x].page, CutLeft(n, m, rows[l][x + 1].page)),
                            Cell(rows[l][x + 1].page, CutRight(n, m))]);
            Stored(Leaves(rows[l := row][l - 1 := prow])) == Stored(Leaves(rows))
  {
    var a, b := rows[l][x], rows[l][x + 1];
    var n := Merged(a.node, b.node, separator);
    var c, d := Cell(a.page, CutLeft(n, m, b.page)), Cell(b.page, CutRight(n, m));
    if l == |rows| - 1 {
      FlatTwo(c, d);
      PairStored(rows[l], x, [c, d]);
    }
  }

  lemma {:induction false} MergeStored(rows: Rows, prow: Row, l: nat, x: nat, separator: Key)
    requires 0 < l < |rows| && x + 1 < |rows[l]| && (rows[l][x].node.leaf <==> l == |rows| - 1)
    ensures var row := Put(rows[l], x, x + 2,
                           [Cell(rows[l][x].page, Merged(rows[l][x].node, rows[l][x + 1].node, separator))]);
            Stored(Leaves(rows[l := row][l - 1 := prow])) == Stored(Leaves(rows))
  {
    var c := Cell(rows[l][x].page, Merged(rows[l][x].node, rows[l][x + 1].node, separator));
    if l == |rows| - 1 {
      FlatOne(c);
      PairStored(rows[l], x, [c]);
    }
  }

  /** The track up to the parent. */
  ghost function Shorter(t: Track): Track {
    if t.at == [] || t.child == [] then t else Track(t.at[..|t.at| - 1], t.child[..|t.child| - 1])
  }

  lemma {:induction false} PathShorter(rows: Rows, t: Track, path: seq<PageNo>)
    requires OnPath(rows, t, path) && path != []
    ensures OnPath(rows, Shorter(t), path[..|path| - 1]) && Top(Shorter(t), path[..|path| - 1]) == Top(t, path)
    ensures |t.at| > 1 && |t.child| == |t.at| - 1
    ensures var l := |t.at| - 1;
            && IsChild(rows, l - 1, t.at[l - 1], t.child[l - 1], t.at[l])
            && path[|path| - 1] == rows[l - 1][t.at[l - 1]].page && |Shorter(t).at| == l
            && Shorter(t).at[l - 1] == t.at[l - 1]
  {
    var t', path', l := Shorter(t), path[..|path| - 1], |t.at| - 1;
    assert PathAt(rows, t, path, l - 1);
    assert IsChild(rows, l - 1, t.at[l - 1], t.child[l - 1], t.at[l]);
    forall k | 0 <= k < |t'.child| ensures IsChild(rows, k, t'.at[k], t'.child[k], t'.at[k + 1]) {
      assert IsChild(rows, k, t.at[k], t.child[k], t.at[k + 1]);
    }
    forall k | Top(t', path') <= k < |t'.at| - 1 ensures PathAt(rows, t', path', k) { assert PathAt(rows, t, path, k); }
  }

  lemma {:induction false} TopStays(z: Sizes, rows: Rows, t: Track, path: seq<PageNo>)
    requires OnPath(rows, t, path) && path != [] && TopOfPath(z, rows, t, path)
    ensures TopAbsorbs(z, rows, Shorter(t), Top(Shorter(t), path[..|path| - 1]))
  {
  }

  lemma {:induction false} ParentFacts(z: Sizes, rows: Rows, l: nat, pi: nat, j: nat, i: nat)
    requires 0 < l < |rows| && IsChild(rows, l - 1, pi, j, i) && Pending(z, rows, l, i)
    ensures i == Offset(rows[l - 1], pi) + j && pi < |rows[l - 1]| && j <= |rows[l - 1][pi].node.entries|
    ensures rows[l][i].node.high.Some?
    ensures NodeOk(z, rows[l - 1][pi].node, false)
    ensures |Absorbed(rows, l, pi, j).entries| == |rows[l - 1][pi].node.entries| + 1
  {
    OneNodeOk(z, rows, l - 1, pi);
    AbsorbedFlat(z, rows, l, pi, j);
  }

  lemma {:induction false} PathEnds(z: Sizes, rows: Rows, t: Track)
    requires OnPath(rows, t, []) && TopOfPath(z, rows, t, [])
    ensures |t.at| == 1 && OnTrack(rows, t)
  {
  }

  /** Where the separator belongs in the parent, sorting puts it. */
  lemma {:induction false} SortedLikeAbsorbed(z: Sizes, rows: Rows, l: nat, pi: nat, j: nat, separator: Key,
                                              right: PageNo)
    requires 0 < l < |rows| && pi < |rows[l - 1]| && j <= |rows[l - 1][pi].node.entries|
    requires Pending(z, rows, l, Offset(rows[l - 1], pi) + j)
    requires var i := Offset(rows[l - 1], pi) + j;
             rows[l][i].node.high == Some(separator) && rows[l][i + 1].page == right
    ensures SortedInsert(rows[l - 1][pi].node.entries, Entry(separator, right)) == Absorbed(rows, l, pi, j).entries
  {
    AbsorbedFlat(z, rows, l, pi, j);
    RowIncreasing(rows, l - 1, l);
    var n := Absorbed(rows, l, pi, j);
    SlotsSorted(Flat(rows[l - 1][..pi]), n, Flat(rows[l - 1][pi + 1..]));
    hide *;
    SortedInsertIs(rows[l - 1][pi].node.entries, j, Entry(separator, right));
  }

  lemma InternalHalvesFit(z: Sizes, n: nat)
    requires n > 0 && CanFit(z, false, n - 1)
    ensures n / 2 < n && CanFit(z, false, n / 2) && CanFit(z, false, n - n / 2 - 1)
  {
    FewerFit(z, false, n - 1, n / 2);
    FewerFit(z, false, n - 1, n - n / 2 - 1);
  }

  lemma {:induction false} HoldsRoot(pages: Pages, rows: Rows, p: PageNo, n: Node)
    requires Holds(pages, rows) && p !in pages
    ensures Holds(pages[p := n], [[Cell(p, n)]] + rows)
  {
  }

  /** The last node of the track is the left half of a pending split. */
  ghost predicate SplitAtEnd(z: Sizes, rows: Rows, t: Track, left: PageNo, separator: Key, right: PageNo) {
    && 1 <= |t.at| <= |rows|
    && var l, i := |t.at| - 1, t.at[|t.at| - 1];
    && Pending(z, rows, l, i)
    && rows[l][i].page == left && rows[l][i].node.high == Some(separator) && rows[l][i + 1].page == right
  }

  /** Nothing latched means the split node is the root; otherwise the first latched page is
      the root or can take one more entry. */
  ghost predicate TopOfPath(z: Sizes, rows: Rows, t: Track, path: seq<PageNo>) {
    if path == [] then |t.at| == 1 else TopAbsorbs(z, rows, t, Top(t, path))
  }

  lemma {:induction false} RowHead(rows: Rows, l: nat, a: nat, b: nat, mid: Row)
    requires l < |rows| && a < b <= |rows[l]| && mid != [] && mid[0].page == rows[l][a].page
    ensures var rows' := rows[l := Put(rows[l], a, b, mid)];
            |rows'| == |rows| && (rows[0] != [] ==> rows'[0] != [] && rows'[0][0].page == rows[0][0].page)
  {
  }

  lemma LeafHalvesFit(z: Sizes, n: nat)
    requires SizesOk(z) && n > 0 && CanFit(z, true, n - 1) && !CanFit(z, true, n)
    ensures n >= 2 && CanFit(z, true, n / 2) && CanFit(z, true, n - n / 2)
  {
    assert 1 * EntryBytes(z, true) <= z.capacity;
    FewerFit(z, true, n - 1, n / 2);
    FewerFit(z, true, n - 1, n - n / 2);
  }

  lemma {:induction false} LeafSplitStored(row: Row, i: nat, m: nat, entries: seq<Entry>, a: Cell, b: Cell)
    requires i < |row| && m <= |entries| && a.node.entries == entries[..m] && b.node.entries == entries[m..]
    ensures Stored(Put(row, i, i + 1, [a, b])) == Stored(row[..i]) + entries + Stored(row[i + 1..])
  {
    PutFlat(row, i, i + 1, [a, b]);
    FlatTwo(a, b);
    assert entries == entries[..m] + entries[m..];
  }

  /** Changes at the end of the track leave the track and the path as they are. */
  lemma {:induction false} TrackSame(rows: Rows, t: Track, path: seq<PageNo>, rows': Rows)
    requires OnPath(rows, t, path) && |rows'| >= |t.at| && t.at[|t.at| - 1] < |rows'[|t.at| - 1]| && |rows'[0]| > 0
    requires forall k :: 0 <= k < |t.at| - 1 ==> rows'[k] == rows[k]
    ensures OnPath(rows', t, path) && |path| < |t.at|
  {
    forall k | 0 <= k < |t.child| ensures IsChild(rows', k, t.at[k], t.child[k], t.at[k + 1]) {
      assert IsChild(rows, k, t.at[k], t.child[k], t.at[k + 1]);
      if k + 1 < |t.child| { assert IsChild(rows, k + 1, t.at[k + 1], t.child[k + 1], t.at[k + 2]); }
    }
    forall k | Top(t, path) <= k < |t.at| - 1 ensures PathAt(rows', t, path, k) { assert PathAt(rows, t, path, k); }
  }

  /** A node that had to split could not take one more entry, so it is not the first one of
      the path unless it is the root. */
  lemma {:induction false} TopKept(z: Sizes, rows: Rows, t: Track, path: seq<PageNo>, row: Row)
    requires |path| < |t.at| <= |rows| && TopAbsorbs(z, rows, t, Top(t, path)) && t.at[|t.at| - 1] < |rows[|t.at| - 1]|
    requires var n := rows[|t.at| - 1][t.at[|t.at| - 1]].node; !CanFit(z, n.leaf, |n.entries| + 1)
    ensures TopOfPath(z, rows[|t.at| - 1 := row], t, path)
  {
  }

  lemma {:induction false} PutOne(row: Row, i: nat, c: Cell)
    requires i < |row|
    ensures Put(row, i, i + 1, [c]) == row[i := c]
  {
  }

  lemma {:induction false} PutTwo(row: Row, i: nat, a: Cell, b: Cell)
    requires i < |row|
    ensures var row' := Put(row, i, i + 1, [a, b]); |row'| == |row| + 1 && row'[i] == a && row'[i + 1] == b
  {
  }

  /** The leaf with the new entry is still in order and within its bounds. */
  lemma {:induction false} LeafInsertFacts(z: Sizes, rows: Rows, i: nat, e: Entry)
    requires TreeOk(z, rows) && i < |Leaves(rows)| && Covers(Leaves(rows), i, e.key)
    requires !HasKey(Stored(Leaves(rows)), e.key)
    ensures var row := Leaves(rows); var entries := SortedInsert(row[i].node.entries, e);
            && SortedKeys(entries) && |entries| == |row[i].node.entries| + 1
            && CanFit(z, true, |row[i].node.entries|)
            && (forall k :: 0 <= k < |entries| ==> Covers(row, i, entries[k].key))
  {
    hide Covers, SortedInsert;
    var row := Leaves(rows);
    var mid := row[i].node.entries;
    OneNodeOk(z, rows, |rows| - 1, i);
    LeafRow(z, rows);
    hide TreeOk;
    LeafHasNot(row, i, e.key);
    assert LeafOk(row, i);
    hide LeavesOk;
    SortedInsertKeeps(mid, e);
    hide SortedKeys;
    var entries := SortedInsert(mid, e);
    forall k | 0 <= k < |entries| ensures Covers(row, i, entries[k].key) {
      if entries[k] != e { var x :| 0 <= x < |mid| && mid[x] == entries[k]; }
    }
  }

  lemma {:induction false} LeafHasNot(row: Row, i: nat, k: Key)
    requires i < |row| && !HasKey(Stored(row), k)
    ensures !HasKey(row[i].node.entries, k)
  {
    Around(row, i, i + 1);
    assert row[i..i + 1] == [row[i]];
    FlatOne(row[i]);
    var p, mid, q := Stored(row[..i]), row[i].node.entries, Stored(row[i + 1..]);
    hide Stored;
    forall x | 0 <= x < |mid| ensures mid[x].key != k { assert (p + mid + q)[|p| + x] == mid[x]; }
  }

  /** Among all entries exactly one more. */
  lemma {:induction false} LeafInsertStored(z: Sizes, rows: Rows, i: nat, e: Entry)
    requires TreeOk(z, rows) && i < |Leaves(rows)| && Covers(Leaves(rows), i, e.key)
    requires !HasKey(Stored(Leaves(rows)), e.key)
    ensures var row := Leaves(rows);
            SortedInsert(Stored(row), e) ==
                Stored(row[..i]) + SortedInsert(row[i].node.entries, e) + Stored(row[i + 1..])
  {
    hide Covers, SortedInsert, HasKey;
    var row := Leaves(rows);
    LeafRow(z, rows);
    hide TreeOk;
    SortedLeaf(row, i);
    hide LeavesOk, SortedKeys;
    LeafHasNot(row, i, e.key);
    Around(row, i, i + 1);
    assert row[i..i + 1] == [row[i]];
    FlatOne(row[i]);
    NoMatchLeft(row, i, e.key);
    NoMatchRight(row, i, e.key, i + 1);
    hide Stored;
    SortedInsertInside(Stored(row[..i]), row[i].node.entries, Stored(row[i + 1..]), e);
  }

  /** The first latched node, or the current one if none is, is the root or can take one
      more entry. */
  ghost predicate TopAbsorbs(z: Sizes, rows: Rows, t: Track, top: int) {
    0 <= top < |t.at| <= |rows| && t.at[top] < |rows[top]|
    && (top == 0 || SafeForInsert(z, rows[top][t.at[top]].node.leaf, |rows[top][t.at[top]].node.entries|))
  }

  lemma {:induction false} PathGrows(rows: Rows, t: Track, path: seq<PageNo>, p: PageNo, j: nat, i: nat)
    requires OnPath(rows, t, path) && |t.at| < |rows| && IsChild(rows, |t.at| - 1, t.at[|t.at| - 1], j, i)
    requires p == rows[|t.at| - 1][t.at[|t.at| - 1]].page
    ensures OnPath(rows, Track(t.at + [i], t.child + [j]), path + [p])
    ensures OnPath(rows, Track(t.at + [i], t.child + [j]), [])
  {
    TrackGrows(rows, t, j, i);
    var t', path' := Track(t.at + [i], t.child + [j]), path + [p];
    forall l | Top(t', path') <= l < |t'.at| - 1 ensures PathAt(rows, t', path', l) {
      if l < |t.at| - 1 { assert PathAt(rows, t, path, l); }
    }
  }

  lemma {:induction false} TrackGrows(rows: Rows, t: Track, j: nat, i: nat)
    requires OnTrack(rows, t) && |t.at| < |rows| && IsChild(rows, |t.at| - 1, t.at[|t.at| - 1], j, i)
    ensures OnTrack(rows, Track(t.at + [i], t.child + [j]))
  {
  }

  /** The scan of one leaf: stop at the first larger key. */
  method ScanLeaf(entries: seq<Entry>, k: Key) returns (found: seq<nat>, stop: bool)
    requires SortedKeys(entries)
    ensures found == Matches(entries, k) && (found != [] ==> entries != [])
  {
    found, stop := [], false;
    var i := 0;
    while i < |entries|
      invariant i <= |entries| && Matches(entries, k) == found + Matches(entries[i..], k)
      invariant (found != [] ==> entries != [])
    {
      assert entries[i..][1..] == entries[i + 1..];
      if entries[i].key > k {
        stop := true;
        NoMatches(entries[i..], k);
        return;
      }
      if entries[i].key == k { found := found + [entries[i].ref]; }
      i := i + 1;
    }
    assert entries[i..] == [];
  }

  lemma {:induction false} LeafRow(z: Sizes, rows: Rows)
    requires TreeOk(z, rows)
    ensures LeavesOk(Leaves(rows)) && Linked(Leaves(rows))
  {
  }

  lemma {:induction false} SortedLeaf(row: Row, x: nat)
    requires LeavesOk(row) && x < |row|
    ensures SortedKeys(row[x].node.entries)
  {
    assert LeafOk(row, x);
  }

  lemma {:induction false} MatchesStep(row: Row, x: nat, k: Key)
    requires x < |row|
    ensures Matches(Stored(row[..x + 1]), k) == Matches(Stored(row[..x]), k) + Matches(row[x].node.entries, k)
  {
    assert row[..x + 1] == row[..x] + [row[x]];
    StoredConcat(row[..x], [row[x]]);
    FlatOne(row[x]);
    MatchesConcat(Stored(row[..x]), row[x].node.entries, k);
  }

  lemma {:induction false} MatchesSplit(row: Row, x: nat, k: Key)
    requires x <= |row|
    ensures Matches(Stored(row), k) == Matches(Stored(row[..x]), k) + Matches(Stored(row[x..]), k)
  {
    assert row == row[..x] + row[x..];
    StoredConcat(row[..x], row[x..]);
    MatchesConcat(Stored(row[..x]), Stored(row[x..]), k);
  }

  /** p is node i of row l and covers the key. */
  ghost predicate OnNode(rows: Rows, l: nat, i: nat, p: PageNo, k: Key) {
    l < |rows| && i < |rows[l]| && rows[l][i].page == p && Covers(rows[l], i, k)
  }

  lemma {:induction false} LowerBound(row: Row, i: nat, k: Key)
    requires i < |row| && Covers(row, i, k)
    ensures i > 0 ==> row[i - 1].node.high.Some? && row[i - 1].node.high.value <= k
  {
  }

  lemma {:induction false} RootCovers(z: Sizes, rows: Rows, k: Key)
    requires TreeOk(z, rows)
    ensures rows != [] && |rows[0]| == 1 && Covers(rows[0], 0, k)
  {
    RowIncreasing(rows, -1, 0);
    assert Face(rows[0])[0].bound == rows[0][0].node.high;
  }

  lemma {:induction false} LeafIsLast(z: Sizes, rows: Rows, l: nat, i: nat)
    requires TreeOk(z, rows) && l < |rows| && i < |rows[l]|
    ensures rows[l][i].node.leaf <==> l == |rows| - 1
  {
  }

  lemma {:induction false} EmptyTree(z: Sizes, rows: Rows, pages: Pages)
    requires SizesOk(z) && rows == [[Cell(1, MakeLeaf([], None, None))]] && pages == map[1 := MakeLeaf([], None, None)]
    ensures TreeOk(z, rows) && Holds(pages, rows) && Stored(Leaves(rows)) == []
  {
  }
}
