/** The pages of a B+ tree and the rows of nodes they hold. */
module BTreePages {
  import opened Options
  import opened BTreeNodes
  import opened BTreeShape

  type Pages = map<PageNo, Node>

  /** ---------- Pages and rows ---------- */

  ghost predicate At(pages: Pages, c: Cell) { c.page in pages && pages[c.page] == c.node }

  /** The pages hold these nodes, each on a page of its own. */
  ghost predicate HoldsRow(pages: Pages, row: Row) {
    && (forall i :: 0 <= i < |row| ==> At(pages, row[i]))
    && (forall i, j :: 0 <= i < j < |row| ==> row[i].page != row[j].page)
  }

  ghost function All(rows: Rows): Row {
    if rows == [] then [] else rows[0] + All(rows[1..])
  }

  ghost predicate Holds(pages: Pages, rows: Rows) { HoldsRow(pages, All(rows)) }

  lemma {:induction false} AllConcat(a: Rows, b: Rows)
    ensures All(a + b) == All(a) + All(b)
  {
    if a == [] {
      assert a + b == b;
    } else {
      assert (a + b)[1..] == a[1..] + b;
      AllConcat(a[1..], b);
    }
  }

  lemma {:induction false} AllAround(rows: Rows, l: nat)
    requires l < |rows|
    ensures All(rows) == All(rows[..l]) + rows[l] + All(rows[l + 1..])
  {
    assert rows == rows[..l] + rows[l..] && rows[l..] == [rows[l]] + rows[l + 1..];
    AllConcat(rows[..l], rows[l..]);
  }

  /** Where row l starts. */
  ghost function Start(rows: Rows, l: nat): nat
    requires l <= |rows|
  {
    |All(rows[..l])|
  }

  lemma {:induction false} CellAt(pages: Pages, rows: Rows, l: nat, i: nat)
    requires Holds(pages, rows) && l < |rows| && i < |rows[l]|
    ensures Start(rows, l) + i < |All(rows)| && All(rows)[Start(rows, l) + i] == rows[l][i]
    ensures At(pages, rows[l][i])
  {
    AllAround(rows, l);
  }

  lemma {:induction false} DistinctCells(pages: Pages, rows: Rows, l: nat, i: nat, m: nat, k: nat)
    requires Holds(pages, rows) && l < |rows| && i < |rows[l]| && m < |rows| && k < |rows[m]|
    requires l < m || (l == m && i != k)
    ensures rows[l][i].page != rows[m][k].page
  {
    CellAt(pages, rows, l, i);
    CellAt(pages, rows, m, k);
    if l < m {
      AllAround(rows[..m], l);
      assert rows[..m][..l] == rows[..l];
    }
  }

  ghost predicate InPart(row: Row, a: int, b: int, p: PageNo)
    requires 0 <= a <= b <= |row|
  {
    exists k :: a <= k < b && row[k].page == p
  }

  /** The new cells use pages of the replaced part or new ones, and no other page changes. */
  ghost predicate Replaces(pages: Pages, row: Row, a: int, b: int, mid: Row, pages': Pages)
    requires 0 <= a <= b <= |row|
  {
    && (forall k :: 0 <= k < |mid| ==> InPart(row, a, b, mid[k].page) || mid[k].page !in pages)
    && (forall p :: p in pages && !InPart(row, a, b, p) ==> p in pages' && pages'[p] == pages[p])
  }

  /** Part a..b of a row is replaced by `mid`, whose pages are taken from that part or new. */
  lemma {:induction false} HoldsRowPut(pages: Pages, row: Row, a: nat, b: nat, mid: Row, pages': Pages)
    requires HoldsRow(pages, row) && a <= b <= |row| && HoldsRow(pages', mid)
    requires Replaces(pages, row, a, b, mid, pages')
    ensures HoldsRow(pages', Put(row, a, b, mid))
  {
  }

  lemma {:induction false} HoldsPut(pages: Pages, rows: Rows, l: nat, a: nat, b: nat, mid: Row, pages': Pages)
    requires Holds(pages, rows) && l < |rows| && a <= b <= |rows[l]| && HoldsRow(pages', mid)
    requires Replaces(pages, rows[l], a, b, mid, pages')
    ensures Holds(pages', rows[l := Put(rows[l], a, b, mid)])
  {
    hide All, InPart, HoldsRow, Put, Replaces, Start;
    AllPut(rows, l, a, b, mid);
    var all, s := All(rows), Start(rows, l);
    ReplacesSame(pages, rows[l], a, b, all, s + a, s + b, mid, pages');
    HoldsRowPut(pages, all, s + a, s + b, mid, pages');
  }

  lemma {:induction false} ReplacesSame(pages: Pages, row: Row, a: nat, b: nat, row2: Row, a2: nat, b2: nat, mid: Row,
                                        pages': Pages)
    requires a <= b <= |row| && a2 <= b2 <= |row2| && Replaces(pages, row, a, b, mid, pages')
    requires forall x :: InPart(row2, a2, b2, x) <==> InPart(row, a, b, x)
    ensures Replaces(pages, row2, a2, b2, mid, pages')
  {
  }

  lemma {:induction false} AllPut(rows: Rows, l: nat, a: nat, b: nat, mid: Row)
    requires l < |rows| && a <= b <= |rows[l]|
    ensures Start(rows, l) + b <= |All(rows)|
    ensures All(rows[l := Put(rows[l], a, b, mid)]) == Put(All(rows), Start(rows, l) + a, Start(rows, l) + b, mid)
    ensures forall x :: InPart(All(rows), Start(rows, l) + a, Start(rows, l) + b, x) <==> InPart(rows[l], a, b, x)
  {
    var rows' := rows[l := Put(rows[l], a, b, mid)];
    AllAround(rows, l);
    AllAround(rows', l);
    assert rows'[..l] == rows[..l] && rows'[l + 1..] == rows[l + 1..];
    hide All, InPart, Put;
    PutInside(All(rows[..l]), rows[l], All(rows[l + 1..]), a, b, mid);
  }

  lemma {:induction false} PutInside(p: Row, row: Row, s: Row, a: nat, b: nat, mid: Row)
    requires a <= b <= |row|
    ensures p + Put(row, a, b, mid) + s == Put(p + row + s, |p| + a, |p| + b, mid)
    ensures forall x :: InPart(p + row + s, |p| + a, |p| + b, x) <==> InPart(row, a, b, x)
  {
    var all := p + row + s;
    forall x ensures InPart(all, |p| + a, |p| + b, x) <==> InPart(row, a, b, x) {
      if InPart(row, a, b, x) {
        var k :| a <= k < b && row[k].page == x;
        assert all[|p| + k].page == x;
      }
      if InPart(all, |p| + a, |p| + b, x) {
        var k :| |p| + a <= k < |p| + b && all[k].page == x;
        assert row[k - |p|].page == x;
      }
    }
  }

  /** One node rewritten. */
  lemma {:induction false} HoldsRewrite(pages: Pages, rows: Rows, l: nat, i: nat, n: Node)
    requires Holds(pages, rows) && l < |rows| && i < |rows[l]|
    ensures Holds(pages[rows[l][i].page := n], rows[l := Put(rows[l], i, i + 1, [Cell(rows[l][i].page, n)])])
  {
    HoldsPut(pages, rows, l, i, i + 1, [Cell(rows[l][i].page, n)], pages[rows[l][i].page := n]);
  }

  /** One node split onto a new page. */
  lemma {:induction false} HoldsSplit(pages: Pages, rows: Rows, l: nat, i: nat, a: Node, p: PageNo, b: Node)
    requires Holds(pages, rows) && l < |rows| && i < |rows[l]| && p !in pages
    ensures Holds(pages[rows[l][i].page := a][p := b],
                  rows[l := Put(rows[l], i, i + 1, [Cell(rows[l][i].page, a), Cell(p, b)])])
  {
    CellAt(pages, rows, l, i);
    HoldsPut(pages, rows, l, i, i + 1, [Cell(rows[l][i].page, a), Cell(p, b)], pages[rows[l][i].page := a][p := b]);
  }

  lemma {:induction false} HoldsPair(pages: Pages, rows: Rows, l: nat, i: nat, a: Node, b: Node)
    requires Holds(pages, rows) && l < |rows| && i + 1 < |rows[l]|
    ensures Holds(pages[rows[l][i].page := a][rows[l][i + 1].page := b],
                  rows[l := Put(rows[l], i, i + 2, [Cell(rows[l][i].page, a), Cell(rows[l][i + 1].page, b)])])
  {
    var x, y := rows[l][i].page, rows[l][i + 1].page;
    CellAt(pages, rows, l, i);
    CellAt(pages, rows, l, i + 1);
    HoldsPut(pages, rows, l, i, i + 2, [Cell(x, a), Cell(y, b)], pages[x := a][y := b]);
  }

  /** Node i + 1 merged into node i; its page keeps only the retired node. */
  lemma {:induction false} HoldsMerge(pages: Pages, rows: Rows, l: nat, i: nat, a: Node, retired: Node)
    requires Holds(pages, rows) && l < |rows| && i + 1 < |rows[l]|
    ensures Holds(pages[rows[l][i].page := a][rows[l][i + 1].page := retired],
                  rows[l := Put(rows[l], i, i + 2, [Cell(rows[l][i].page, a)])])
  {
    var x, y := rows[l][i].page, rows[l][i + 1].page;
    CellAt(pages, rows, l, i);
    CellAt(pages, rows, l, i + 1);
    HoldsPut(pages, rows, l, i, i + 2, [Cell(x, a)], pages[x := a][y := retired]);
  }

  lemma {:induction false} TreeRowIncreasing(z: Sizes, rows: Rows, l: nat)
    requires TreeOk(z, rows) && l < |rows|
    ensures Increasing(Face(rows[l]))
  {
    RowIncreasing(rows, -1, l);
  }

  /** The pages of the tree. */
  ghost function PagesOf(rows: Rows): set<PageNo> { set c | c in All(rows) :: c.page }

  lemma {:induction false} PageIn(pages: Pages, rows: Rows, l: nat, i: nat)
    requires Holds(pages, rows) && l < |rows| && i < |rows[l]|
    ensures rows[l][i].page in PagesOf(rows)
  {
    CellAt(pages, rows, l, i);
    assert rows[l][i] in All(rows);
  }

  /** A replaced part that uses only its own pages adds none. */
  lemma {:induction false} PutPages(rows: Rows, l: nat, a: nat, b: nat, mid: Row)
    requires l < |rows| && a <= b <= |rows[l]|
    requires forall k :: 0 <= k < |mid| ==> InPart(rows[l], a, b, mid[k].page)
    ensures PagesOf(rows[l := Put(rows[l], a, b, mid)]) <= PagesOf(rows)
  {
    hide All, InPart;
    AllPut(rows, l, a, b, mid);
    PutPart(All(rows), Start(rows, l) + a, Start(rows, l) + b, mid);
  }

  lemma {:induction false} PutPart(row: Row, a: nat, b: nat, mid: Row)
    requires a <= b <= |row| && forall k :: 0 <= k < |mid| ==> InPart(row, a, b, mid[k].page)
    ensures forall c :: c in Put(row, a, b, mid) ==> exists d :: d in row && d.page == c.page
  {
    forall c | c in Put(row, a, b, mid) ensures exists d :: d in row && d.page == c.page {
      if c in mid {
        var k :| 0 <= k < |mid| && mid[k] == c;
        assert InPart(row, a, b, mid[k].page);
        var m :| a <= m < b && row[m].page == c.page;
        assert row[m] in row;
      } else {
        assert c in row;
      }
    }
  }

  lemma {:induction false} TailPages(rows: Rows)
    requires rows != []
    ensures PagesOf(rows[1..]) <= PagesOf(rows)
  {
  }
}
