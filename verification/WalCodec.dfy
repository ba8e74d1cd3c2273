/** Bytes of a log record: the serializer, the reader that advances through a payload, and
    their round trip (recovery/wal_records.h). Integers are little-endian. */
module WalCodec {
  import opened Options
  import opened WalRecords

  type Bytes = seq<Byte>

  datatype TxnEntry = TxnEntry(txn: nat, state: nat, lastLsn: nat)
  datatype PageEntry = PageEntry(relation: nat, pageNo: nat, recLsn: nat)

  /** A record as the file stores it; `kind` is the type byte. */
  datatype Payload = Payload(
    kind: nat, lsn: nat, txn: nat, prevLsn: nat, undoNextLsn: nat,
    hasPage: bool, relation: nat, pageNo: nat,
    before: Bytes, after: Bytes, txns: seq<TxnEntry>, pages: seq<PageEntry>)

  /** The record types in the order of their codes. */
  const KINDS: seq<RecordType> := [
    Invalid, Begin, Commit, Abort,
    PageUpdate(HeapInsert), PageUpdate(HeapDelete), PageUpdate(HeapUpdate),
    PageUpdate(BtreeInsert), PageUpdate(BtreeDelete), PageUpdate(BtreePageSplit), PageUpdate(BtreeRebalance),
    PageUpdate(BtreeMerge), PageUpdate(BtreeMetaUpdate),
    BeginCheckpoint, EndCheckpoint, Clr]

  const STATES: seq<TxnState> := [Active, Waiting, Aborting, Committed, Aborted]

  const BEGIN_CHECKPOINT := 13

  /** ---------- Integers ---------- */

  function Limit(width: nat): (n: nat)
    ensures n > 0
  {
    if width == 0 then 1 else 256 * Limit(width - 1)
  }

  function WriteInt(n: nat, width: nat): (b: Bytes)
    ensures |b| == width
  {
    if width == 0 then [] else [n % 256] + WriteInt(n / 256, width - 1)
  }

  function IntOf(b: Bytes): nat {
    if b == [] then 0 else b[0] + 256 * IntOf(b[1..])
  }

  lemma {:induction false} IntRoundTrip(n: nat, width: nat)
    requires n < Limit(width)
    ensures IntOf(WriteInt(n, width)) == n
  {
    if width > 0 {
      IntRoundTrip(n / 256, width - 1);
      assert WriteInt(n, width)[1..] == WriteInt(n / 256, width - 1);
    }
  }

  /** ---------- Writing ---------- */

  function WriteVector(v: Bytes): Bytes { WriteInt(|v|, 4) + v }

  function WriteTxn(e: TxnEntry): Bytes { WriteInt(e.txn, 8) + WriteInt(e.state, 1) + WriteInt(e.lastLsn, 8) }

  function WritePage(e: PageEntry): Bytes { WriteInt(e.relation, 4) + WriteInt(e.pageNo, 4) + WriteInt(e.recLsn, 8) }

  function WriteTxns(es: seq<TxnEntry>): Bytes {
    if es == [] then [] else WriteTxn(es[0]) + WriteTxns(es[1..])
  }

  function WritePages(es: seq<PageEntry>): Bytes {
    if es == [] then [] else WritePage(es[0]) + WritePages(es[1..])
  }

  function WritePageId(p: Payload): Bytes {
    if p.hasPage then WriteInt(p.relation, 4) + WriteInt(p.pageNo, 4) else []
  }

  function Serialize(p: Payload): Bytes {
    WriteInt(p.kind, 1) + (WriteInt(p.lsn, 8) + (WriteInt(p.txn, 8) + (WriteInt(p.prevLsn, 8)
    + (WriteInt(p.undoNextLsn, 8)
    + (WriteInt(if p.hasPage then 1 else 0, 1) + (WritePageId(p) + (WriteVector(p.before) + (WriteVector(p.after)
    + (WriteInt(|p.txns|, 4) + (WriteTxns(p.txns) + (WriteInt(|p.pages|, 4) + WritePages(p.pages))))))))))))
  }

  /** ---------- Reading ---------- */

  /** What a read leaves: the value and the rest of the payload, or an underflow. */
  datatype Read<T> = Underflow | Got(value: T, rest: Bytes)

  function ReadInt(b: Bytes, width: nat): Read<nat> {
    if |b| < width then Underflow else Got(IntOf(b[..width]), b[width..])
  }

  function ReadVector(b: Bytes): Read<Bytes> {
    match ReadInt(b, 4)
    case Underflow => Underflow
    case Got(n, rest) => if |rest| < n then Underflow else Got(rest[..n], rest[n..])
  }

  function ReadTxn(b: Bytes): Read<TxnEntry> {
    match ReadInt(b, 8)
    case Underflow => Underflow
    case Got(txn, b1) =>
      match ReadInt(b1, 1)
      case Underflow => Underflow
      case Got(state, b2) =>
        match ReadInt(b2, 8)
        case Underflow => Underflow
        case Got(last, b3) => Got(TxnEntry(txn, state, last), b3)
  }

  function ReadPage(b: Bytes): Read<PageEntry> {
    match ReadInt(b, 4)
    case Underflow => Underflow
    case Got(relation, b1) =>
      match ReadInt(b1, 4)
      case Underflow => Underflow
      case Got(pageNo, b2) =>
        match ReadInt(b2, 8)
        case Underflow => Underflow
        case Got(rec, b3) => Got(PageEntry(relation, pageNo, rec), b3)
  }

  function ReadTxns(b: Bytes, n: nat): Read<seq<TxnEntry>> {
    if n == 0 then Got([], b)
    else match ReadTxn(b)
      case Underflow => Underflow
      case Got(e, b1) =>
        match ReadTxns(b1, n - 1)
        case Underflow => Underflow
        case Got(es, b2) => Got([e] + es, b2)
  }

  function ReadPages(b: Bytes, n: nat): Read<seq<PageEntry>> {
    if n == 0 then Got([], b)
    else match ReadPage(b)
      case Underflow => Underflow
      case Got(e, b1) =>
        match ReadPages(b1, n - 1)
        case Underflow => Underflow
        case Got(es, b2) => Got([e] + es, b2)
  }

  /** The six fields at the front of every record. */
  function ReadHeader(b: Bytes): Read<Payload> {
    match ReadInt(b, 1) case Underflow => Underflow
    case Got(kind, b1) => match ReadInt(b1, 8) case Underflow => Underflow
    case Got(lsn, b2) => match ReadInt(b2, 8) case Underflow => Underflow
    case Got(txn, b3) => match ReadInt(b3, 8) case Underflow => Underflow
    case Got(prev, b4) => match ReadInt(b4, 8) case Underflow => Underflow
    case Got(undo, b5) => match ReadInt(b5, 1) case Underflow => Underflow
    case Got(flag, b6) => Got(Payload(kind, lsn, txn, prev, undo, flag != 0, 0, 0, [], [], [], []), b6)
  }

  function ReadPageId(p: Payload, b: Bytes): Read<Payload> {
    if !p.hasPage then Got(p, b)
    else match ReadInt(b, 4) case Underflow => Underflow
      case Got(relation, b1) => match ReadInt(b1, 4) case Underflow => Underflow
      case Got(pageNo, b2) => Got(p.(relation := relation, pageNo := pageNo), b2)
  }

  function ReadImages(p: Payload, b: Bytes): Read<Payload> {
    match ReadVector(b) case Underflow => Underflow
    case Got(before, b1) => match ReadVector(b1) case Underflow => Underflow
    case Got(after, b2) => Got(p.(before := before, after := after), b2)
  }

  function ReadLists(p: Payload, b: Bytes): Read<Payload> {
    match ReadInt(b, 4) case Underflow => Underflow
    case Got(n, b1) => match ReadTxns(b1, n) case Underflow => Underflow
    case Got(txns, b2) => match ReadInt(b2, 4) case Underflow => Underflow
    case Got(m, b3) => match ReadPages(b3, m) case Underflow => Underflow
    case Got(pages, b4) => Got(p.(txns := txns, pages := pages), b4)
  }

  function Deserialize(b: Bytes): Option<Payload> {
    match ReadHeader(b) case Underflow => None
    case Got(p1, b1) => match ReadPageId(p1, b1) case Underflow => None
    case Got(p2, b2) => match ReadImages(p2, b2) case Underflow => None
    case Got(p3, b3) => match ReadLists(p3, b3) case Underflow => None
    case Got(p4, _) => Some(p4)
  }

  /** ---------- Round trip ---------- */

  predicate TxnFits(e: TxnEntry) { e.txn < Limit(8) && e.state < Limit(1) && e.lastLsn < Limit(8) }

  predicate PageFits(e: PageEntry) { e.relation < Limit(4) && e.pageNo < Limit(4) && e.recLsn < Limit(8) }

  /** Every field fits its width, and a record without a page has no page id. */
  predicate Fits(p: Payload) {
    && p.kind < Limit(1) && p.lsn < Limit(8) && p.txn < Limit(8) && p.prevLsn < Limit(8) && p.undoNextLsn < Limit(8)
    && p.relation < Limit(4) && p.pageNo < Limit(4) && (!p.hasPage ==> p.relation == 0 && p.pageNo == 0)
    && |p.before| < Limit(4) && |p.after| < Limit(4)
    && |p.txns| < Limit(4) && |p.pages| < Limit(4)
    && (forall i :: 0 <= i < |p.txns| ==> TxnFits(p.txns[i]))
    && (forall i :: 0 <= i < |p.pages| ==> PageFits(p.pages[i]))
  }

  lemma {:induction false} ReadWritten(n: nat, width: nat, rest: Bytes)
    requires n < Limit(width)
    ensures ReadInt(WriteInt(n, width) + rest, width) == Got(n, rest)
  {
    IntRoundTrip(n, width);
    var b := WriteInt(n, width) + rest;
    assert b[..width] == WriteInt(n, width) && b[width..] == rest;
  }

  lemma {:induction false} ReadWrittenVector(v: Bytes, rest: Bytes)
    requires |v| < Limit(4)
    ensures ReadVector(WriteVector(v) + rest) == Got(v, rest)
  {
    assert WriteVector(v) + rest == WriteInt(|v|, 4) + (v + rest);
    ReadWritten(|v|, 4, v + rest);
    assert (v + rest)[..|v|] == v && (v + rest)[|v|..] == rest;
  }

  lemma {:induction false} ReadWrittenTxns(es: seq<TxnEntry>, rest: Bytes)
    requires forall i :: 0 <= i < |es| ==> TxnFits(es[i])
    ensures ReadTxns(WriteTxns(es) + rest, |es|) == Got(es, rest)
  {
    hide WriteInt, ReadInt, Limit;
    if es == [] {
      assert WriteTxns(es) + rest == rest;
    } else {
      var e, tail := es[0], WriteTxns(es[1..]) + rest;
      assert TxnFits(e);
      assert WriteTxns(es) + rest == WriteTxn(e) + tail;
      assert WriteTxn(e) + tail == WriteInt(e.txn, 8) + (WriteInt(e.state, 1) + (WriteInt(e.lastLsn, 8) + tail));
      ReadWritten(e.txn, 8, WriteInt(e.state, 1) + (WriteInt(e.lastLsn, 8) + tail));
      ReadWritten(e.state, 1, WriteInt(e.lastLsn, 8) + tail);
      ReadWritten(e.lastLsn, 8, tail);
      ReadWrittenTxns(es[1..], rest);
      assert [e] + es[1..] == es;
    }
  }

  lemma {:induction false} ReadWrittenPages(es: seq<PageEntry>, rest: Bytes)
    requires forall i :: 0 <= i < |es| ==> PageFits(es[i])
    ensures ReadPages(WritePages(es) + rest, |es|) == Got(es, rest)
  {
    hide WriteInt, ReadInt, Limit;
    if es == [] {
      assert WritePages(es) + rest == rest;
    } else {
      var e, tail := es[0], WritePages(es[1..]) + rest;
      assert PageFits(e);
      assert WritePages(es) + rest == WritePage(e) + tail;
      assert WritePage(e) + tail == WriteInt(e.relation, 4) + (WriteInt(e.pageNo, 4) + (WriteInt(e.recLsn, 8) + tail));
      ReadWritten(e.relation, 4, WriteInt(e.pageNo, 4) + (WriteInt(e.recLsn, 8) + tail));
      ReadWritten(e.pageNo, 4, WriteInt(e.recLsn, 8) + tail);
      ReadWritten(e.recLsn, 8, tail);
      ReadWrittenPages(es[1..], rest);
      assert [e] + es[1..] == es;
    }
  }

  /** The parts of a serialized record after each reading step. */
  function ListBytes(p: Payload): Bytes {
    WriteInt(|p.txns|, 4) + (WriteTxns(p.txns) + (WriteInt(|p.pages|, 4) + WritePages(p.pages)))
  }

  function ImageBytes(p: Payload): Bytes { WriteVector(p.before) + (WriteVector(p.after) + ListBytes(p)) }

  lemma {:induction false} HeaderRead(p: Payload, rest: Bytes)
    requires Fits(p)
    ensures ReadHeader(WriteInt(p.kind, 1) +
        (WriteInt(p.lsn, 8) + (WriteInt(p.txn, 8) + (WriteInt(p.prevLsn, 8) + (WriteInt(p.undoNextLsn, 8)
                       + (WriteInt(if p.hasPage then 1 else 0, 1) + rest)))))) ==
            Got(Payload(p.kind, p.lsn, p.txn, p.prevLsn, p.undoNextLsn, p.hasPage, 0, 0, [], [], [], []), rest)
  {
    var flag := if p.hasPage then 1 else 0;
    assert flag < Limit(1) by { assert Limit(1) == 256 * Limit(0); }
    hide WriteInt, ReadInt, Limit;
    var b6 := rest;
    var b5 := WriteInt(flag, 1) + b6;
    var b4 := WriteInt(p.undoNextLsn, 8) + b5;
    var b3 := WriteInt(p.prevLsn, 8) + b4;
    var b2 := WriteInt(p.txn, 8) + b3;
    var b1 := WriteInt(p.lsn, 8) + b2;
    ReadWritten(p.kind, 1, b1);
    ReadWritten(p.lsn, 8, b2);
    ReadWritten(p.txn, 8, b3);
    ReadWritten(p.prevLsn, 8, b4);
    ReadWritten(p.undoNextLsn, 8, b5);
    ReadWritten(flag, 1, b6);
  }

  lemma {:induction false} PageIdRead(p: Payload, q: Payload, rest: Bytes)
    requires Fits(p) && q.hasPage == p.hasPage && q.relation == 0 && q.pageNo == 0
    ensures ReadPageId(q, WritePageId(p) + rest) == Got(q.(relation := p.relation, pageNo := p.pageNo), rest)
  {
    hide WriteInt, ReadInt, Limit;
    if p.hasPage {
      assert WritePageId(p) + rest == WriteInt(p.relation, 4) + (WriteInt(p.pageNo, 4) + rest);
      ReadWritten(p.relation, 4, WriteInt(p.pageNo, 4) + rest);
      ReadWritten(p.pageNo, 4, rest);
    } else {
      assert WritePageId(p) + rest == rest;
    }
  }

  lemma {:induction false} ListsRead(p: Payload, q: Payload)
    requires Fits(p)
    ensures ReadLists(q, ListBytes(p)) == Got(q.(txns := p.txns, pages := p.pages), [])
  {
    hide WriteInt, ReadInt, Limit, WriteTxns, WritePages, ReadTxns, ReadPages;
    ReadWritten(|p.txns|, 4, WriteTxns(p.txns) + (WriteInt(|p.pages|, 4) + WritePages(p.pages)));
    ReadWrittenTxns(p.txns, WriteInt(|p.pages|, 4) + WritePages(p.pages));
    ReadWritten(|p.pages|, 4, WritePages(p.pages));
    assert WritePages(p.pages) + [] == WritePages(p.pages);
    ReadWrittenPages(p.pages, []);
  }

  /** Every kept record decodes to what was appended. */
  lemma {:induction false} RecordRoundTrip(p: Payload)
    requires Fits(p)
    ensures Deserialize(Serialize(p)) == Some(p)
  {
    var h := Payload(p.kind, p.lsn, p.txn, p.prevLsn, p.undoNextLsn, p.hasPage, 0, 0, [], [], [], []);
    HeaderRead(p, WritePageId(p) + ImageBytes(p));
    PageIdRead(p, h, ImageBytes(p));
    var h2 := h.(relation := p.relation, pageNo := p.pageNo);
    hide WriteInt, Limit, ReadHeader, ReadPageId, ReadLists, ReadVector, WriteVector;
    ReadWrittenVector(p.before, WriteVector(p.after) + ListBytes(p));
    ReadWrittenVector(p.after, ListBytes(p));
    ListsRead(p, h2.(before := p.before, after := p.after));
  }

  /** ---------- The layout ---------- */

  /** The integer whose `width` bytes, lowest byte first, start at `at`. */
  ghost predicate IntAt(b: Bytes, at: nat, width: nat, n: nat) {
    at + width <= |b| && forall k: nat :: k < width ==> b[at + k] == n / Limit(k) % 256
  }

  ghost predicate BytesAt(b: Bytes, at: nat, v: Bytes) {
    at + |v| <= |b| && b[at..at + |v|] == v
  }

  lemma {:induction false} LowestFirst(n: nat, width: nat, k: nat)
    requires k < width
    ensures WriteInt(n, width)[k] == n / Limit(k) % 256
  {
    if k > 0 {
      LowestFirst(n / 256, width - 1, k - 1);
      DivideTwice(n, Limit(k - 1));
    }
  }

  lemma {:induction false} DivideTwice(n: nat, m: nat)
    requires m > 0
    ensures n / 256 / m == n / (256 * m)
  {
    var q := n / 256 / m;
    var r := n - q * (256 * m);
    assert n / 256 == q * m + n / 256 % m;
    assert n == 256 * (n / 256) + n % 256;
    assert 0 <= r < 256 * m;
    assert n == q * (256 * m) + r;
    QuotientIs(n, 256 * m, q, r);
  }

  lemma {:induction false} QuotientIs(n: nat, m: nat, q: nat, r: nat)
    requires m > 0 && n == q * m + r && r < m
    ensures n / m == q
  {
    var d := n / m - q;
    assert n / m * m + n % m == n;
    assert d * m == r - n % m;
  }

  lemma {:induction false} IntHere(front: Bytes, n: nat, width: nat, rest: Bytes)
    ensures IntAt(front + (WriteInt(n, width) + rest), |front|, width, n)
  {
    hide WriteInt, Limit;
    forall k: nat | k < width ensures (front + (WriteInt(n, width) + rest))[|front| + k] == n / Limit(k) % 256 {
      LowestFirst(n, width, k);
    }
  }

  lemma {:induction false} BytesHere(front: Bytes, v: Bytes, rest: Bytes)
    ensures IntAt(front + (WriteVector(v) + rest), |front|, 4, |v|)
    ensures BytesAt(front + (WriteVector(v) + rest), |front| + 4, v)
  {
    hide WriteInt, IntAt;
    IntHere(front, |v|, 4, v + rest);
    assert front + (WriteVector(v) + rest) == front + (WriteInt(|v|, 4) + (v + rest));
  }

  ghost predicate TxnAt(b: Bytes, at: nat, e: TxnEntry) {
    IntAt(b, at, 8, e.txn) && IntAt(b, at + 8, 1, e.state) && IntAt(b, at + 9, 8, e.lastLsn)
  }

  ghost predicate PageAt(b: Bytes, at: nat, e: PageEntry) {
    IntAt(b, at, 4, e.relation) && IntAt(b, at + 4, 4, e.pageNo) && IntAt(b, at + 8, 8, e.recLsn)
  }

  ghost predicate TxnsAt(b: Bytes, at: nat, es: seq<TxnEntry>) {
    forall i: nat :: i < |es| ==> TxnAt(b, at + 17 * i, es[i])
  }

  ghost predicate PagesAt(b: Bytes, at: nat, es: seq<PageEntry>) {
    forall i: nat :: i < |es| ==> PageAt(b, at + 16 * i, es[i])
  }

  lemma {:induction false} TxnHere(front: Bytes, e: TxnEntry, tail: Bytes)
    ensures TxnAt(front + WriteTxn(e) + tail, |front|, e) && |WriteTxn(e)| == 17
  {
    hide WriteInt, IntAt;
    var b := front + WriteTxn(e) + tail;
    var f1 := front + WriteInt(e.txn, 8);
    var f2 := f1 + WriteInt(e.state, 1);
    assert b == f2 + (WriteInt(e.lastLsn, 8) + tail);
    assert b == f1 + (WriteInt(e.state, 1) + (WriteInt(e.lastLsn, 8) + tail));
    assert b == front + (WriteInt(e.txn, 8) + (WriteInt(e.state, 1) + (WriteInt(e.lastLsn, 8) + tail)));
    IntHere(front, e.txn, 8, WriteInt(e.state, 1) + (WriteInt(e.lastLsn, 8) + tail));
    IntHere(f1, e.state, 1, WriteInt(e.lastLsn, 8) + tail);
    IntHere(f2, e.lastLsn, 8, tail);
  }

  lemma {:induction false} TxnsHere(front: Bytes, es: seq<TxnEntry>, rest: Bytes)
    ensures TxnsAt(front + (WriteTxns(es) + rest), |front|, es) && |WriteTxns(es)| == 17 * |es|
    decreases |es|
  {
    hide WriteInt, TxnAt, WriteTxn;
    if es != [] {
      var b, tail := front + (WriteTxns(es) + rest), WriteTxns(es[1..]) + rest;
      TxnHere(front, es[0], tail);
      TxnsHere(front + WriteTxn(es[0]), es[1..], rest);
      assert b == front + WriteTxn(es[0]) + tail;
      forall i: nat | i < |es| ensures TxnAt(b, |front| + 17 * i, es[i]) {
        if i > 0 { assert TxnAt(b, |front| + 17 + 17 * (i - 1), es[1..][i - 1]); }
      }
    }
  }

  lemma {:induction false} PageHere(front: Bytes, e: PageEntry, tail: Bytes)
    ensures PageAt(front + WritePage(e) + tail, |front|, e) && |WritePage(e)| == 16
  {
    hide WriteInt, IntAt;
    var b := front + WritePage(e) + tail;
    var f1 := front + WriteInt(e.relation, 4);
    var f2 := f1 + WriteInt(e.pageNo, 4);
    assert b == f2 + (WriteInt(e.recLsn, 8) + tail);
    assert b == f1 + (WriteInt(e.pageNo, 4) + (WriteInt(e.recLsn, 8) + tail));
    assert b == front + (WriteInt(e.relation, 4) + (WriteInt(e.pageNo, 4) + (WriteInt(e.recLsn, 8) + tail)));
    IntHere(front, e.relation, 4, WriteInt(e.pageNo, 4) + (WriteInt(e.recLsn, 8) + tail));
    IntHere(f1, e.pageNo, 4, WriteInt(e.recLsn, 8) + tail);
    IntHere(f2, e.recLsn, 8, tail);
  }

  lemma {:induction false} PagesHere(front: Bytes, es: seq<PageEntry>, rest: Bytes)
    ensures PagesAt(front + (WritePages(es) + rest), |front|, es) && |WritePages(es)| == 16 * |es|
    decreases |es|
  {
    hide WriteInt, PageAt, WritePage;
    if es != [] {
      var b, tail := front + (WritePages(es) + rest), WritePages(es[1..]) + rest;
      PageHere(front, es[0], tail);
      PagesHere(front + WritePage(es[0]), es[1..], rest);
      assert b == front + WritePage(es[0]) + tail;
      forall i: nat | i < |es| ensures PageAt(b, |front| + 16 * i, es[i]) {
        if i > 0 { assert PageAt(b, |front| + 16 + 16 * (i - 1), es[1..][i - 1]); }
      }
    }
  }

  ghost predicate FrontAt(b: Bytes, p: Payload) {
    && IntAt(b, 0, 1, p.kind) && IntAt(b, 1, 8, p.lsn) && IntAt(b, 9, 8, p.txn) && IntAt(b, 17, 8, p.prevLsn)
    && IntAt(b, 25, 8, p.undoNextLsn) && IntAt(b, 33, 1, if p.hasPage then 1 else 0)
  }

  ghost predicate PageIdAt(b: Bytes, p: Payload) {
    IntAt(b, 34, 4, p.relation) && IntAt(b, 38, 4, p.pageNo)
  }

  ghost predicate ImagesAt(b: Bytes, at: nat, p: Payload) {
    && IntAt(b, at, 4, |p.before|) && BytesAt(b, at + 4, p.before)
    && IntAt(b, at + 4 + |p.before|, 4, |p.after|) && BytesAt(b, at + 8 + |p.before|, p.after)
  }

  /** The two counted lists, up to the end of the record. */
  ghost predicate ListsAt(b: Bytes, at: nat, p: Payload) {
    var at' := at + 4 + 17 * |p.txns|;
    && IntAt(b, at, 4, |p.txns|) && TxnsAt(b, at + 4, p.txns)
    && IntAt(b, at', 4, |p.pages|) && PagesAt(b, at' + 4, p.pages)
    && |b| == at' + 4 + 16 * |p.pages|
  }

  lemma {:induction false} ListsHere(front: Bytes, p: Payload)
    ensures ListsAt(front + ListBytes(p), |front|, p)
  {
    hide WriteInt, IntAt, TxnsAt, PagesAt, WriteTxns, WritePages;
    var b := front + ListBytes(p);
    var rest := WriteInt(|p.pages|, 4) + WritePages(p.pages);
    IntHere(front, |p.txns|, 4, WriteTxns(p.txns) + rest);
    var f1 := front + WriteInt(|p.txns|, 4);
    assert b == f1 + (WriteTxns(p.txns) + rest);
    TxnsHere(f1, p.txns, rest);
    var f2 := f1 + WriteTxns(p.txns);
    assert b == f2 + rest;
    IntHere(f2, |p.pages|, 4, WritePages(p.pages));
    var f3 := f2 + WriteInt(|p.pages|, 4);
    assert b == f3 + (WritePages(p.pages) + []);
    PagesHere(f3, p.pages, []);
  }

  lemma {:induction false} ImagesHere(front: Bytes, p: Payload)
    ensures ImagesAt(front + ImageBytes(p), |front|, p)
    ensures ListsAt(front + ImageBytes(p), |front| + 8 + |p.before| + |p.after|, p)
  {
    hide WriteInt, IntAt, BytesAt, ListBytes, ListsAt;
    var b := front + ImageBytes(p);
    BytesHere(front, p.before, WriteVector(p.after) + ListBytes(p));
    var f1 := front + WriteVector(p.before);
    assert b == f1 + (WriteVector(p.after) + ListBytes(p));
    BytesHere(f1, p.after, ListBytes(p));
    var f2 := f1 + WriteVector(p.after);
    assert b == f2 + ListBytes(p);
    ListsHere(f2, p);
  }

  function FrontBytes(p: Payload): Bytes {
    WriteInt(p.kind, 1) + WriteInt(p.lsn, 8) + WriteInt(p.txn, 8) + WriteInt(p.prevLsn, 8) + WriteInt(p.undoNextLsn, 8)
    + WriteInt(if p.hasPage then 1 else 0, 1)
  }

  lemma {:induction false} FrontHere(p: Payload, rest: Bytes)
    ensures FrontAt(FrontBytes(p) + rest, p) && |FrontBytes(p)| == 34
  {
    hide WriteInt, IntAt;
    var b := FrontBytes(p) + rest;
    var flag := WriteInt(if p.hasPage then 1 else 0, 1);
    var r5 := flag + rest;
    var r4 := WriteInt(p.undoNextLsn, 8) + r5;
    var r3 := WriteInt(p.prevLsn, 8) + r4;
    var r2 := WriteInt(p.txn, 8) + r3;
    var r1 := WriteInt(p.lsn, 8) + r2;
    var f1 := WriteInt(p.kind, 1);
    var f2 := f1 + WriteInt(p.lsn, 8);
    var f3 := f2 + WriteInt(p.txn, 8);
    var f4 := f3 + WriteInt(p.prevLsn, 8);
    var f5 := f4 + WriteInt(p.undoNextLsn, 8);
    assert b == f5 + r5;
    assert b == f4 + r4;
    assert b == f3 + r3;
    assert b == f2 + r2;
    assert b == f1 + r1;
    assert b == [] + (f1 + r1);
    IntHere([], p.kind, 1, r1);
    IntHere(f1, p.lsn, 8, r2);
    IntHere(f2, p.txn, 8, r3);
    IntHere(f3, p.prevLsn, 8, r4);
    IntHere(f4, p.undoNextLsn, 8, r5);
    IntHere(f5, if p.hasPage then 1 else 0, 1, rest);
  }

  lemma {:induction false} PageIdHere(p: Payload, rest: Bytes)
    ensures p.hasPage ==> PageIdAt(FrontBytes(p) + WritePageId(p) + rest, p)
    ensures |FrontBytes(p)| == 34 && |WritePageId(p)| == if p.hasPage then 8 else 0
  {
    hide WriteInt, IntAt, FrontAt, FrontBytes;
    FrontHere(p, []);
    if p.hasPage {
      var f := FrontBytes(p);
      var b := f + WritePageId(p) + rest;
      assert b == f + (WriteInt(p.relation, 4) + (WriteInt(p.pageNo, 4) + rest));
      IntHere(f, p.relation, 4, WriteInt(p.pageNo, 4) + rest);
      var g := f + WriteInt(p.relation, 4);
      assert b == g + (WriteInt(p.pageNo, 4) + rest);
      IntHere(g, p.pageNo, 4, rest);
    }
  }

  lemma {:induction false} InPieces(p: Payload)
    ensures Serialize(p) == FrontBytes(p) + WritePageId(p) + ImageBytes(p)
  {
    hide WriteInt, WriteVector, WriteTxns, WritePages, WritePageId;
    var r5 := WriteInt(if p.hasPage then 1 else 0, 1) + (WritePageId(p) + ImageBytes(p));
    assert Serialize(p) == WriteInt(p.kind, 1) + (WriteInt(p.lsn, 8) + (WriteInt(p.txn, 8) + (WriteInt(p.prevLsn, 8)
                                                                                + (WriteInt(p.undoNextLsn, 8) + r5))));
  }

  /** Every field of a written record stands at its offset. */
  lemma {:induction false} Layout(p: Payload)
    ensures FrontAt(Serialize(p), p) && (p.hasPage ==> PageIdAt(Serialize(p), p))
    ensures var at := if p.hasPage then 42 else 34;
            ImagesAt(Serialize(p), at, p) && ListsAt(Serialize(p), at + 8 + |p.before| + |p.after|, p)
  {
    hide FrontAt, PageIdAt, ImagesAt, ListsAt, FrontBytes, WritePageId, ImageBytes, Serialize;
    InPieces(p);
    FrontHere(p, WritePageId(p) + ImageBytes(p));
    assert FrontBytes(p) + (WritePageId(p) + ImageBytes(p)) == FrontBytes(p) + WritePageId(p) + ImageBytes(p);
    PageIdHere(p, ImageBytes(p));
    ImagesHere(FrontBytes(p) + WritePageId(p), p);
  }

  /** ---------- Records of the log ---------- */

  function KindCode(kind: RecordType): nat {
    match kind
    case Invalid => 0
    case Begin => 1
    case Commit => 2
    case Abort => 3
    case PageUpdate(HeapInsert) => 4
    case PageUpdate(HeapDelete) => 5
    case PageUpdate(HeapUpdate) => 6
    case PageUpdate(BtreeInsert) => 7
    case PageUpdate(BtreeDelete) => 8
    case PageUpdate(BtreePageSplit) => 9
    case PageUpdate(BtreeRebalance) => 10
    case PageUpdate(BtreeMerge) => 11
    case PageUpdate(BtreeMetaUpdate) => 12
    case BeginCheckpoint => 13
    case EndCheckpoint => 14
    case Clr => 15
  }

  function StateCode(state: TxnState): nat {
    match state
    case Active => 0
    case Waiting => 1
    case Aborting => 2
    case Committed => 3
    case Aborted => 4
  }

  /** The codes follow the order of declaration, and 13 is BEGIN_CHECKPOINT. */
  lemma CodesInOrder(kind: RecordType, state: TxnState)
    ensures KindCode(kind) < |KINDS| && KINDS[KindCode(kind)] == kind
    ensures StateCode(state) < |STATES| && STATES[StateCode(state)] == state
    ensures KindCode(kind) == BEGIN_CHECKPOINT <==> kind.BeginCheckpoint?
  {
  }

  function Written(lsn: nat, r: LogRecord): Payload {
    Payload(KindCode(r.kind), lsn, r.txn, r.prevLsn, r.undoNextLsn, r.hasPage, r.page.relation, r.page.pageNo,
            r.before, r.after,
            seq(|r.activeTxns|, i requires 0 <= i < |r.activeTxns| =>
              TxnEntry(r.activeTxns[i].txn, StateCode(r.activeTxns[i].state), r.activeTxns[i].lastLsn)),
            seq(|r.dirtyPages|, i requires 0 <= i < |r.dirtyPages| =>
              PageEntry(r.dirtyPages[i].page.relation, r.dirtyPages[i].page.pageNo, r.dirtyPages[i].recLsn)))
  }

  /** A payload read back as a record; None for a code the program never writes. */
  function RecordOf(p: Payload): Option<LogRecord> {
    if p.kind >= |KINDS| || exists i :: 0 <= i < |p.txns| && p.txns[i].state >= |STATES| then None
    else Some(LogRecord(KINDS[p.kind], p.txn, p.prevLsn, p.undoNextLsn, p.hasPage, PageId(p.relation, p.pageNo),
                        p.before, p.after,
                        seq(|p.txns|, i requires 0 <= i < |p.txns| =>
                          CheckpointTxn(p.txns[i].txn, STATES[p.txns[i].state], p.txns[i].lastLsn)),
                        seq(|p.pages|, i requires 0 <= i < |p.pages| =>
                          DirtyPage(PageId(p.pages[i].relation, p.pages[i].pageNo), p.pages[i].recLsn))))
  }

  lemma {:induction false} WrittenReadBack(lsn: nat, r: LogRecord)
    ensures RecordOf(Written(lsn, r)) == Some(r)
  {
    var p := Written(lsn, r);
    CodesInOrder(r.kind, Active);
    forall i | 0 <= i < |r.activeTxns|
      ensures p.txns[i].state < |STATES| && STATES[p.txns[i].state] == r.activeTxns[i].state
    {
      CodesInOrder(r.kind, r.activeTxns[i].state);
    }
    var r' := RecordOf(p).value;
    assert r'.activeTxns == r.activeTxns && r'.dirtyPages == r.dirtyPages;
  }

  /** A log record written to the file and read back is the same record under the same LSN. */
  lemma {:induction false} LogRecordRoundTrip(lsn: nat, r: LogRecord)
    requires Fits(Written(lsn, r))
    ensures var p := Deserialize(Serialize(Written(lsn, r)));
            p.Some? && p.value.lsn == lsn && RecordOf(p.value) == Some(r)
  {
    hide Fits, RecordOf;
    RecordRoundTrip(Written(lsn, r));
    WrittenReadBack(lsn, r);
  }

  /** ---------- The reader ---------- */

  /** WalPayloadReader: a position that advances through the payload; None is its exception. */
  class PayloadReader {
    const data: Bytes
    var pos: nat

    ghost predicate Valid()
      reads this
    {
      pos <= |data|
    }

    ghost function Rest(): Bytes
      requires Valid()
      reads this
    {
      data[pos..]
    }

    constructor (data: Bytes)
      ensures Valid() && this.data == data && Rest() == data
    {
      this.data, pos := data, 0;
    }

    method ReadPod(width: nat) returns (v: Option<nat>)
      requires Valid()
      modifies this
      ensures Valid()
      ensures match ReadInt(old(Rest()), width)
              case Underflow => v.None?
              case Got(n, rest) => v == Some(n) && Rest() == rest
    {
      if pos + width > |data| { return None; }
      assert data[pos..][..width] == data[pos..pos + width];
      v := Some(IntOf(data[pos..pos + width]));
      pos := pos + width;
    }

    method ReadBytes() returns (v: Option<Bytes>)
      requires Valid()
      modifies this
      ensures Valid()
      ensures match ReadVector(old(Rest()))
              case Underflow => v.None?
              case Got(b, rest) => v == Some(b) && Rest() == rest
    {
      var n := ReadPod(4);
      if n.None? || pos + n.value > |data| { return None; }
      assert data[pos..][..n.value] == data[pos..pos + n.value];
      v := Some(data[pos..pos + n.value]);
      pos := pos + n.value;
    }

    /** The loop over the active transactions of an END_CHECKPOINT record. */
    method ReadTxnEntries(n: nat) returns (es: Option<seq<TxnEntry>>)
      requires Valid()
      modifies this
      ensures Valid()
      ensures match ReadTxns(old(Rest()), n)
              case Underflow => es.None?
              case Got(list, rest) => es == Some(list) && Rest() == rest
    {
      var list: seq<TxnEntry> := [];
      PrependNothing(ReadTxns(Rest(), n));
      for i := 0 to n
        invariant Valid()
        invariant ReadTxns(old(Rest()), n) == Prepend(list, ReadTxns(Rest(), n - i))
      {
        ghost var b := Rest();
        var txn := ReadPod(8);
        if txn.None? { return None; }
        var state := ReadPod(1);
        if state.None? { return None; }
        var last := ReadPod(8);
        if last.None? { return None; }
        var e := TxnEntry(txn.value, state.value, last.value);
        assert ReadTxn(b) == Got(e, Rest());
        PrependOne(list, e, ReadTxns(Rest(), n - i - 1));
        list := list + [e];
      }
      assert list + [] == list;
      es := Some(list);
    }

    method ReadPageEntries(n: nat) returns (es: Option<seq<PageEntry>>)
      requires Valid()
      modifies this
      ensures Valid()
      ensures match ReadPages(old(Rest()), n)
              case Underflow => es.None?
              case Got(list, rest) => es == Some(list) && Rest() == rest
    {
      var list: seq<PageEntry> := [];
      PrependNothing(ReadPages(Rest(), n));
      for i := 0 to n
        invariant Valid()
        invariant ReadPages(old(Rest()), n) == Prepend(list, ReadPages(Rest(), n - i))
      {
        ghost var b := Rest();
        var relation := ReadPod(4);
        if relation.None? { return None; }
        var pageNo := ReadPod(4);
        if pageNo.None? { return None; }
        var recLsn := ReadPod(8);
        if recLsn.None? { return None; }
        var e := PageEntry(relation.value, pageNo.value, recLsn.value);
        assert ReadPage(b) == Got(e, Rest());
        PrependOne(list, e, ReadPages(Rest(), n - i - 1));
        list := list + [e];
      }
      assert list + [] == list;
      es := Some(list);
    }

    method ReadFront() returns (p: Option<Payload>)
      requires Valid()
      modifies this
      ensures Valid()
      ensures match ReadHeader(old(Rest()))
              case Underflow => p.None?
              case Got(q, rest) => p == Some(q) && Rest() == rest
    {
      hide ReadInt;
      var kind := ReadPod(1);
      if kind.None? { return None; }
      var lsn := ReadPod(8);
      if lsn.None? { return None; }
      var txn := ReadPod(8);
      if txn.None? { return None; }
      var prev := ReadPod(8);
      if prev.None? { return None; }
      var undo := ReadPod(8);
      if undo.None? { return None; }
      var flag := ReadPod(1);
      if flag.None? { return None; }
      p := Some(Payload(kind.value, lsn.value, txn.value, prev.value, undo.value, flag.value != 0, 0, 0, [], [], [],
                        []));
    }

    method ReadPagePart(q: Payload) returns (p: Option<Payload>)
      requires Valid()
      modifies this
      ensures Valid()
      ensures match ReadPageId(q, old(Rest()))
              case Underflow => p.None?
              case Got(r, rest) => p == Some(r) && Rest() == rest
    {
      hide ReadInt;
      if !q.hasPage { return Some(q); }
      var relation := ReadPod(4);
      if relation.None? { return None; }
      var pageNo := ReadPod(4);
      if pageNo.None? { return None; }
      p := Some(q.(relation := relation.value, pageNo := pageNo.value));
    }

    method ReadImagePart(q: Payload) returns (p: Option<Payload>)
      requires Valid()
      modifies this
      ensures Valid()
      ensures match ReadImages(q, old(Rest()))
              case Underflow => p.None?
              case Got(r, rest) => p == Some(r) && Rest() == rest
    {
      hide ReadVector;
      var before := ReadBytes();
      if before.None? { return None; }
      var after := ReadBytes();
      if after.None? { return None; }
      p := Some(q.(before := before.value, after := after.value));
    }

    method ReadListPart(q: Payload) returns (p: Option<Payload>)
      requires Valid()
      modifies this
      ensures Valid()
      ensures match ReadLists(q, old(Rest()))
              case Underflow => p.None?
              case Got(r, rest) => p == Some(r) && Rest() == rest
    {
      hide ReadInt, ReadTxns, ReadPages;
      var n := ReadPod(4);
      if n.None? { return None; }
      var txns := ReadTxnEntries(n.value);
      if txns.None? { return None; }
      var m := ReadPod(4);
      if m.None? { return None; }
      var pages := ReadPageEntries(m.value);
      if pages.None? { return None; }
      p := Some(q.(txns := txns.value, pages := pages.value));
    }
  }

  ghost function Prepend<T>(list: seq<T>, r: Read<seq<T>>): Read<seq<T>> {
    match r
    case Underflow => Underflow
    case Got(es, rest) => Got(list + es, rest)
  }

  lemma PrependNothing<T>(r: Read<seq<T>>)
    ensures Prepend([], r) == r
  {
    if r.Got? { assert [] + r.value == r.value; }
  }

  lemma PrependOne<T>(list: seq<T>, e: T, r: Read<seq<T>>)
    ensures Prepend(list + [e], r) ==
        Prepend(list, match r case Underflow => Underflow case Got(es, rest) => Got([e] + es, rest))
  {
    if r.Got? { assert list + [e] + r.value == list + ([e] + r.value); }
  }

  /** DeserializeLogRecordPayload. */
  method DeserializeLogRecordPayload(data: Bytes) returns (p: Option<Payload>)
    ensures p == Deserialize(data)
  {
    hide ReadHeader, ReadPageId, ReadImages, ReadLists;
    var rd := new PayloadReader(data);
    p := rd.ReadFront();
    if p.None? { return; }
    p := rd.ReadPagePart(p.value);
    if p.None? { return; }
    p := rd.ReadImagePart(p.value);
    if p.None? { return; }
    p := rd.ReadListPart(p.value);
  }
}
