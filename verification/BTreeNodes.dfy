/** Nodes of the single-column B+ tree and the rows they form. A row lists the nodes of one
    level from left to right. The slots of an internal node are its children with the key
    that bounds each from above; the slots of a row, one node after the other, are exactly
    the nodes of the row below with their high keys. That one equation carries separators,
    high keys, order and equal leaf depth (access/btree_page.cpp, access/btree_internal.h). */
module BTreeNodes {
  import opened Options

  type PageNo = nat
  type Key = int

  /** In a leaf `ref` is the row id of the key, in an internal node the child page. */
  datatype Entry = Entry(key: Key, ref: nat)

  /** `high` bounds the keys below the node; a retired node keeps a redirect in `leftmost`. */
  datatype Node = Node(leaf: bool, leftmost: PageNo, entries: seq<Entry>, right: Option<PageNo>, high: Option<Key>,
                       retired: bool)

  function MakeLeaf(entries: seq<Entry>, right: Option<PageNo>, high: Option<Key>): Node {
    Node(true, 0, entries, right, high, false)
  }

  function MakeInternal(leftmost: PageNo, entries: seq<Entry>, right: Option<PageNo>, high: Option<Key>): Node {
    Node(false, leftmost, entries, right, high, false)
  }

  /** ---------- Bytes ---------- */

  /** Bytes of a leaf entry, of an internal entry (slot included) and of a whole node. */
  datatype Sizes = Sizes(leafEntry: nat, internalEntry: nat, capacity: nat)

  predicate SizesOk(z: Sizes) { 0 < z.leafEntry <= z.capacity && 0 < z.internalEntry <= z.capacity && 2 <= z.capacity }

  function EntryBytes(z: Sizes, leaf: bool): nat { if leaf then z.leafEntry else z.internalEntry }

  function UsedBytes(z: Sizes, leaf: bool, n: nat): nat { n * EntryBytes(z, leaf) }

  predicate CanFit(z: Sizes, leaf: bool, n: nat) { UsedBytes(z, leaf, n) <= z.capacity }

  predicate Underfull(z: Sizes, leaf: bool, n: nat) { UsedBytes(z, leaf, n) < z.capacity / 2 }

  /** The node can take one more entry, whatever it is. */
  predicate SafeForInsert(z: Sizes, leaf: bool, n: nat) {
    if leaf then CanFit(z, leaf, n + 1) else UsedBytes(z, leaf, n) + z.internalEntry <= z.capacity
  }

  /** The node is not underfull after losing one entry. */
  predicate SafeForDelete(z: Sizes, leaf: bool, n: nat) {
    var used := UsedBytes(z, leaf, n);
    var drop := if used < EntryBytes(z, leaf) then used else EntryBytes(z, leaf);
    used >= drop && used - drop >= z.capacity / 2
  }

  lemma SafeAbsorbs(z: Sizes, leaf: bool, n: nat)
    ensures SafeForInsert(z, leaf, n) <==> CanFit(z, leaf, n + 1)
  {
    assert (n + 1) * z.internalEntry == n * z.internalEntry + z.internalEntry;
  }

  /** The test for delete says exactly that the node may lose an entry. */
  lemma SafeLoses(z: Sizes, leaf: bool, n: nat)
    requires SizesOk(z)
    ensures SafeForDelete(z, leaf, n) <==> n > 0 && !Underfull(z, leaf, n - 1)
  {
    assert n > 0 ==> n * EntryBytes(z, leaf) == (n - 1) * EntryBytes(z, leaf) + EntryBytes(z, leaf);
  }

  lemma MoreIsFuller(z: Sizes, leaf: bool, n: nat, m: nat)
    requires n <= m && !Underfull(z, leaf, n)
    ensures !Underfull(z, leaf, m)
  {
    assert n * EntryBytes(z, leaf) <= m * EntryBytes(z, leaf);
  }

  lemma FewerFit(z: Sizes, leaf: bool, n: nat, m: nat)
    requires m <= n && CanFit(z, leaf, n)
    ensures CanFit(z, leaf, m)
  {
    assert m * EntryBytes(z, leaf) <= n * EntryBytes(z, leaf);
  }

  /** Whoever lends an entry and is not underfull has more entries than an underfull node. */
  lemma LenderHasMore(z: Sizes, leaf: bool, lender: nat, n: nat)
    requires !Underfull(z, leaf, lender) && Underfull(z, leaf, n)
    ensures n < lender
  {
    assert lender <= n ==> lender * EntryBytes(z, leaf) <= n * EntryBytes(z, leaf);
  }

  /** ---------- Slots ---------- */

  datatype Slot = Slot(page: PageNo, bound: Option<Key>)

  function ChildAt(n: Node, i: nat): PageNo
    requires i <= |n.entries|
  {
    if i == 0 then n.leftmost else n.entries[i - 1].ref
  }

  function BoundAt(n: Node, i: nat): Option<Key>
    requires i <= |n.entries|
  {
    if i < |n.entries| then Some(n.entries[i].key) else n.high
  }

  ghost function Slots(n: Node): (s: seq<Slot>)
    ensures |s| == |n.entries| + 1
    ensures forall i :: 0 <= i < |s| ==> s[i] == Slot(ChildAt(n, i), BoundAt(n, i))
  {
    seq(|n.entries| + 1, i requires 0 <= i <= |n.entries| => Slot(ChildAt(n, i), BoundAt(n, i)))
  }

  function InsertAt(entries: seq<Entry>, j: nat, e: Entry): seq<Entry>
    requires j <= |entries|
  {
    entries[..j] + [e] + entries[j..]
  }

  function EraseAt(entries: seq<Entry>, j: nat): seq<Entry>
    requires j < |entries|
  {
    entries[..j] + entries[j + 1..]
  }

  /** A separator and its right page put after child j split its slot in two. */
  lemma {:induction false} SlotsInsert(n: Node, j: nat, e: Entry)
    requires j <= |n.entries|
    ensures Slots(n.(entries := InsertAt(n.entries, j, e))) ==
            Slots(n)[..j] + [Slot(ChildAt(n, j), Some(e.key)), Slot(e.ref, BoundAt(n, j))] + Slots(n)[j + 1..]
  {
  }

  /** Erasing separator j joins the slots on its two sides. */
  lemma {:induction false} SlotsErase(n: Node, j: nat)
    requires j < |n.entries|
    ensures Slots(n.(entries := EraseAt(n.entries, j))) ==
            Slots(n)[..j] + [Slot(ChildAt(n, j), BoundAt(n, j + 1))] + Slots(n)[j + 2..]
  {
  }

  lemma {:induction false} SlotsSetKey(n: Node, j: nat, k: Key)
    requires j < |n.entries|
    ensures Slots(n.(entries := n.entries[j := n.entries[j].(key := k)])) == Slots(n)[j := Slot(ChildAt(n, j), Some(k))]
  {
  }

  /** The two halves of an internal node split at entry m, which is promoted. */
  lemma {:induction false} SlotsSplit(n: Node, a: Node, b: Node, m: nat)
    requires m < |n.entries|
    requires a.leftmost == n.leftmost && a.entries == n.entries[..m] && a.high == Some(n.entries[m].key)
    requires b.leftmost == n.entries[m].ref && b.entries == n.entries[m + 1..] && b.high == n.high
    ensures Slots(a) + Slots(b) == Slots(n)
  {
  }

  /** ---------- Rows ---------- */

  datatype Cell = Cell(page: PageNo, node: Node)
  type Row = seq<Cell>

  /** The slots of a row. */
  ghost function Flat(row: Row): seq<Slot> {
    if row == [] then [] else Slots(row[0].node) + Flat(row[1..])
  }

  /** A row as the row above must describe it. */
  ghost function Face(row: Row): (f: seq<Slot>)
    ensures |f| == |row| && forall i :: 0 <= i < |row| ==> f[i] == Slot(row[i].page, row[i].node.high)
  {
    seq(|row|, i requires 0 <= i < |row| => Slot(row[i].page, row[i].node.high))
  }

  /** All entries of a leaf row. */
  ghost function Stored(row: Row): seq<Entry> {
    if row == [] then [] else row[0].node.entries + Stored(row[1..])
  }

  lemma {:induction false} FlatConcat(a: Row, b: Row)
    ensures Flat(a + b) == Flat(a) + Flat(b)
  {
    if a == [] {
      assert a + b == b;
    } else {
      assert (a + b)[1..] == a[1..] + b;
      FlatConcat(a[1..], b);
    }
  }

  lemma {:induction false} StoredConcat(a: Row, b: Row)
    ensures Stored(a + b) == Stored(a) + Stored(b)
  {
    if a == [] {
      assert a + b == b;
    } else {
      assert (a + b)[1..] == a[1..] + b;
      StoredConcat(a[1..], b);
    }
  }

  /** The row around one part of it. */
  lemma {:induction false} Around(row: Row, i: nat, j: nat)
    requires i <= j <= |row|
    ensures row == row[..i] + row[i..j] + row[j..]
    ensures Flat(row) == Flat(row[..i]) + Flat(row[i..j]) + Flat(row[j..])
    ensures Stored(row) == Stored(row[..i]) + Stored(row[i..j]) + Stored(row[j..])
  {
    assert row[..j] == row[..i] + row[i..j] && row == row[..j] + row[j..];
    FlatConcat(row[..i], row[i..j]);
    FlatConcat(row[..j], row[j..]);
    StoredConcat(row[..i], row[i..j]);
    StoredConcat(row[..j], row[j..]);
  }

  lemma {:induction false} FlatOne(c: Cell)
    ensures Flat([c]) == Slots(c.node) && Stored([c]) == c.node.entries
  {
    assert [c][1..] == [];
    assert Flat([c]) == Slots(c.node) + [];
  }

  lemma {:induction false} FlatTwo(a: Cell, b: Cell)
    ensures Flat([a, b]) == Slots(a.node) + Slots(b.node) && Stored([a, b]) == a.node.entries + b.node.entries
  {
    FlatOne(a);
    FlatOne(b);
    assert [a, b] == [a] + [b];
    FlatConcat([a], [b]);
    StoredConcat([a], [b]);
  }

  /** Bounds grow from left to right and only the last is open. */
  ghost predicate Increasing(s: seq<Slot>) {
    && s != [] && s[|s| - 1].bound.None?
    && (forall i :: 0 <= i < |s| - 1 ==> s[i].bound.Some?)
    && (forall i, j :: 0 <= i < j < |s| - 1 ==> s[i].bound.value < s[j].bound.value)
  }

  /** The last slot of a nonempty row has the high key of its last node. */
  lemma {:induction false} FlatLast(row: Row)
    requires row != []
    ensures Flat(row) != [] && Flat(row)[|Flat(row)| - 1].bound == row[|row| - 1].node.high
  {
    if |row| > 1 { FlatLast(row[1..]); }
  }

  /** Where the slots of node i lie in the slots of its row. */
  ghost function Offset(row: Row, i: nat): nat
    requires i <= |row|
  {
    |Flat(row[..i])|
  }

  lemma {:induction false} FlatAt(row: Row, i: nat, j: nat)
    requires i < |row| && j <= |row[i].node.entries|
    ensures Offset(row, i) + j < |Flat(row)| && Flat(row)[Offset(row, i) + j] == Slots(row[i].node)[j]
    ensures (Offset(row, i) > 0 <==> i > 0) && (i > 0 ==> Flat(row)[Offset(row, i) - 1].bound == row[i - 1].node.high)
  {
    Around(row, i, i + 1);
    assert row[i..i + 1] == [row[i]];
    FlatOne(row[i]);
    if i > 0 { FlatLast(row[..i]); }
  }

  /** A row whose slots increase has increasing high keys. */
  lemma {:induction false} FaceIncreasing(row: Row)
    requires Increasing(Flat(row))
    ensures Increasing(Face(row))
  {
    var n := |row|;
    FlatLast(row);
    var at := seq(n, i requires 0 <= i < n => HighAt(row, i));
    forall i | 0 <= i < n ensures at[i] < |Flat(row)| && Flat(row)[at[i]].bound == Face(row)[i].bound {
      FlatAt(row, i, |row[i].node.entries|);
    }
    forall i, j | 0 <= i < j < n ensures at[i] < at[j] { HighAtGrows(row, i, j); }
    hide Flat, HighAt;
    PartIncreasing(Flat(row), Face(row), at);
  }

  lemma {:induction false} PartIncreasing(f: seq<Slot>, g: seq<Slot>, at: seq<nat>)
    requires Increasing(f) && |at| == |g| > 0
    requires forall i :: 0 <= i < |at| ==> at[i] < |f| && f[at[i]].bound == g[i].bound
    requires forall i, j :: 0 <= i < j < |at| ==> at[i] < at[j]
    requires g[|g| - 1].bound.None?
    ensures Increasing(g)
  {
    var n := |g|;
    forall i | 0 <= i < n - 1 ensures at[i] < |f| - 1 { assert at[i] < at[n - 1]; }
  }

  /** The index of node i's own high key among the slots. */
  ghost function HighAt(row: Row, i: nat): nat
    requires i < |row|
  {
    Offset(row, i) + |row[i].node.entries|
  }

  lemma {:induction false} HighAtGrows(row: Row, i: nat, j: nat)
    requires i < j < |row|
    ensures HighAt(row, i) < HighAt(row, j)
  {
    var mid := row[..j];
    FlatAt(mid, i, |row[i].node.entries|);
    assert mid[..i] == row[..i];
  }
}
