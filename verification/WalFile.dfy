/** The log file: framing, the start-up scan that finds the last complete record, the repair
    of a torn tail and of the master record, and how far a flush really reaches
    (recovery/log_manager.cpp). The first eight bytes are the master record. */
module WalFile {
  import opened Options
  import opened WalRecords
  import opened WalCodec

  const MASTER_SIZE := 8

  /** ---------- Frames ---------- */

  function Frame(p: Payload): Bytes { WriteInt(4 + |Serialize(p)|, 4) + Serialize(p) }

  predicate Writable(p: Payload) { Fits(p) && 4 + |Serialize(p)| < Limit(4) }

  ghost predicate AllWritable(ps: seq<Payload>) { forall i :: 0 <= i < |ps| ==> Writable(ps[i]) }

  function Frames(ps: seq<Payload>): Bytes {
    if ps == [] then [] else Frame(ps[0]) + Frames(ps[1..])
  }

  datatype Found = Found(payload: Payload, size: nat)

  /** The complete record at the front of the bytes, if there is one. */
  function FrameOf(b: Bytes): (f: Option<Found>)
    ensures f.Some? ==> 4 <= f.value.size <= |b|
  {
    if |b| < 4 then None
    else
      var total := IntOf(b[..4]);
      if total < 4 || |b| < total then None
      else match Deserialize(b[4..total])
        case None => None
        case Some(p) => Some(Found(p, total))
  }

  /** How many bytes of complete records there are. */
  function ValidLength(b: Bytes): (n: nat)
    ensures n <= |b|
    decreases |b|
  {
    match FrameOf(b)
    case None => 0
    case Some(f) => f.size + ValidLength(b[f.size..])
  }

  function Payloads(b: Bytes): seq<Payload>
    decreases |b|
  {
    match FrameOf(b)
    case None => []
    case Some(f) => [f.payload] + Payloads(b[f.size..])
  }

  /** The type of the record at every offset; the bytes start at `offset`. */
  function Kinds(b: Bytes, offset: nat): map<nat, nat>
    decreases |b|
  {
    match FrameOf(b)
    case None => map[]
    case Some(f) => map[offset := f.payload.kind] + Kinds(b[f.size..], offset + f.size)
  }

  lemma {:induction false} FrameFound(p: Payload, rest: Bytes)
    requires Writable(p)
    ensures FrameOf(Frame(p) + rest) == Some(Found(p, |Frame(p)|))
  {
    hide WriteInt, IntOf, Serialize, Deserialize, Fits, Limit;
    var b, body := Frame(p) + rest, Serialize(p);
    RecordRoundTrip(p);
    IntRoundTrip(4 + |body|, 4);
    assert b[..4] == WriteInt(4 + |body|, 4);
    assert b[4..4 + |body|] == body;
  }

  lemma {:induction false} FrameTorn(p: Payload, n: nat)
    requires Writable(p) && n < |Frame(p)|
    ensures FrameOf(Frame(p)[..n]) == None
  {
    hide WriteInt, IntOf, Serialize, Deserialize, Fits, Limit;
    var b, body := Frame(p)[..n], Serialize(p);
    IntRoundTrip(4 + |body|, 4);
    if n >= 4 { assert b[..4] == WriteInt(4 + |body|, 4); }
  }

  /** ---------- Torn tail ---------- */

  /** How many records lie completely within the first n bytes. */
  function CompleteCount(ps: seq<Payload>, n: nat): (k: nat)
    ensures k <= |ps|
  {
    if ps == [] || n < |Frame(ps[0])| then 0 else 1 + CompleteCount(ps[1..], n - |Frame(ps[0])|)
  }

  lemma {:induction false} CompleteExactly(ps: seq<Payload>, n: nat)
    requires n <= |Frames(ps)|
    ensures var k := CompleteCount(ps, n);
            |Frames(ps[..k])| <= n && (k < |ps| ==> n < |Frames(ps[..k + 1])|)
  {
    hide Frame;
    if ps != [] && n >= |Frame(ps[0])| {
      CompleteExactly(ps[1..], n - |Frame(ps[0])|);
      var k := CompleteCount(ps[1..], n - |Frame(ps[0])|);
      assert ps[..k + 1][0] == ps[0] && ps[..k + 1][1..] == ps[1..][..k];
      if k + 1 < |ps| { assert ps[..k + 2][0] == ps[0] && ps[..k + 2][1..] == ps[1..][..k + 1]; }
    } else if ps != [] {
      assert ps[..1][0] == ps[0] && ps[..1][1..] == [];
      assert Frames(ps[..1]) == Frame(ps[0]) + Frames([]);
    }
  }

  /** Whatever records were appended and wherever the file is cut, the scan ends exactly
      after the last complete record and reads back exactly the complete records. */
  lemma {:induction false} TornTail(ps: seq<Payload>, n: nat)
    requires AllWritable(ps) && n <= |Frames(ps)|
    ensures var k := CompleteCount(ps, n);
            && ValidLength(Frames(ps)[..n]) == |Frames(ps[..k])|
            && Payloads(Frames(ps)[..n]) == ps[..k]
  {
    hide Frame, FrameOf, Writable;
    if ps == [] {
      assert Frames(ps)[..n] == [];
      NothingFound();
    } else {
      var p, rest := ps[0], ps[1..];
      assert Writable(p);
      var b := Frames(ps)[..n];
      if n < |Frame(p)| {
        assert b == Frame(p)[..n];
        FrameTorn(p, n);
      } else {
        var m := n - |Frame(p)|;
        var k := CompleteCount(rest, m);
        assert b == Frame(p) + Frames(rest)[..m];
        FrameFound(p, Frames(rest)[..m]);
        assert b[|Frame(p)|..] == Frames(rest)[..m];
        TornTail(rest, m);
        assert [p] + rest[..k] == ps[..k + 1];
        assert Frames(ps[..k + 1]) == Frame(p) + Frames(ps[..k + 1][1..]);
        assert ps[..k + 1][1..] == rest[..k];
      }
    }
  }

  lemma NothingFound()
    ensures FrameOf([]) == None
  {
  }

  /** The LSN of record i is the offset it starts at. */
  ghost function StartOf(ps: seq<Payload>, i: nat): nat
    requires i <= |ps|
  {
    MASTER_SIZE + |Frames(ps[..i])|
  }

  /** LSNs are positive and grow along the log, so comparing LSNs is comparing positions. */
  lemma {:induction false} StartsGrow(ps: seq<Payload>, i: nat, j: nat)
    requires i < j <= |ps|
    ensures 0 < StartOf(ps, i) < StartOf(ps, j)
    decreases j
  {
    hide Frame, Frames;
    FramesSnoc(ps[..j - 1], ps[j - 1]);
    assert ps[..j] == ps[..j - 1] + [ps[j - 1]];
    if i < j - 1 { StartsGrow(ps, i, j - 1); }
  }

  lemma {:induction false} FramesSnoc(ps: seq<Payload>, p: Payload)
    ensures |Frames(ps + [p])| == |Frames(ps)| + |Frame(p)| && |Frame(p)| >= 4
  {
    if ps == [] {
      assert (ps + [p])[1..] == [];
      assert Frames(ps + [p]) == Frame(p) + Frames([]);
    } else {
      assert (ps + [p])[1..] == ps[1..] + [p];
      FramesSnoc(ps[1..], p);
    }
  }

  /** ---------- Repair ---------- */

  predicate MasterOk(master: nat, kinds: map<nat, nat>) {
    master == 0 || (master in kinds && kinds[master] == BEGIN_CHECKPOINT)
  }

  /** What EnsureWalInitializedAndTrimmed leaves on disk. */
  function Repair(file: Bytes): Bytes {
    if |file| < MASTER_SIZE then WriteInt(0, MASTER_SIZE)
    else
      var body, master := file[MASTER_SIZE..], file[..MASTER_SIZE];
      (if MasterOk(IntOf(master), Kinds(body, MASTER_SIZE)) then master else WriteInt(0, MASTER_SIZE)) +
          body[..ValidLength(body)]
  }

  lemma {:induction false} TrimmedFrame(b: Bytes, n: nat)
    requires n <= |b| && FrameOf(b).Some? && FrameOf(b).value.size <= n
    ensures FrameOf(b[..n]) == FrameOf(b)
  {
    hide Deserialize, IntOf;
    var t := b[..n];
    assert t[..4] == b[..4];
    var total := FrameOf(b).value.size;
    assert t[4..total] == b[4..total];
  }

  /** Cutting the invalid tail off changes nothing before it. */
  lemma {:induction false} TrimmedScan(b: Bytes, offset: nat)
    ensures var t := b[..ValidLength(b)];
            ValidLength(t) == |t| && Kinds(t, offset) == Kinds(b, offset) && Payloads(t) == Payloads(b)
    decreases |b|
  {
    hide FrameOf;
    var t := b[..ValidLength(b)];
    if FrameOf(b).None? {
      assert t == [];
      NothingFound();
    } else {
      var size := FrameOf(b).value.size;
      TrimmedFrame(b, |t|);
      TrimmedScan(b[size..], offset + size);
      assert t[size..] == b[size..][..ValidLength(b[size..])];
    }
  }

  /** Repairing twice changes nothing more, for any bytes at all. */
  lemma {:induction false} RepairIsIdempotent(file: Bytes)
    ensures Repair(Repair(file)) == Repair(file)
  {
    var once := Repair(file);
    IntRoundTrip(0, MASTER_SIZE);
    hide IntOf, FrameOf, WriteInt;
    if |file| < MASTER_SIZE {
      assert once[MASTER_SIZE..] == [] && once[..MASTER_SIZE] == once;
    } else {
      var body := file[MASTER_SIZE..];
      TrimmedScan(body, MASTER_SIZE);
      assert once[MASTER_SIZE..] == body[..ValidLength(body)];
      assert body[..ValidLength(body)][..ValidLength(once[MASTER_SIZE..])] == body[..ValidLength(body)];
    }
  }

  /** After the repair the file is whole records behind a usable master record. */
  lemma {:induction false} RepairedIsClean(file: Bytes)
    ensures |Repair(file)| >= MASTER_SIZE && ValidLength(Repair(file)[MASTER_SIZE..]) == |Repair(file)| - MASTER_SIZE
    ensures MasterOk(IntOf(Repair(file)[..MASTER_SIZE]), Kinds(Repair(file)[MASTER_SIZE..], MASTER_SIZE))
  {
    var once := Repair(file);
    IntRoundTrip(0, MASTER_SIZE);
    hide IntOf, FrameOf, WriteInt;
    if |file| < MASTER_SIZE {
      assert once[MASTER_SIZE..] == [] && once[..MASTER_SIZE] == once;
    } else {
      var body := file[MASTER_SIZE..];
      TrimmedScan(body, MASTER_SIZE);
      assert once[MASTER_SIZE..] == body[..ValidLength(body)];
    }
  }

  /** One record of the scan: the checks of the loop body of ScanWalFile. */
  method ReadFrame(file: Bytes, offset: nat) returns (f: Option<Found>)
    requires offset <= |file|
    ensures f == FrameOf(file[offset..])
  {
    hide Deserialize, IntOf;
    ghost var rest := file[offset..];
    if offset + 4 > |file| { return None; }
    var total := IntOf(file[offset..offset + 4]);
    assert rest[..4] == file[offset..offset + 4];
    if total < 4 { return None; }
    if offset + total > |file| { return None; }
    assert rest[4..total] == file[offset + 4..offset + total];
    var rec := DeserializeLogRecordPayload(file[offset + 4..offset + total]);
    if rec.None? { return None; }
    return Some(Found(rec.value, total));
  }

  lemma ScanStops(b: Bytes, offset: nat)
    ensures FrameOf(b).None? ==> ValidLength(b) == 0 && Kinds(b, offset) == map[]
  {
  }

  lemma {:induction false} ScanGoesOn(kinds: map<nat, nat>, file: Bytes, offset: nat)
    requires offset <= |file| && FrameOf(file[offset..]).Some?
    ensures var f := FrameOf(file[offset..]).value;
            && offset + f.size <= |file|
            && ValidLength(file[offset..]) == f.size + ValidLength(file[offset + f.size..])
            && kinds + Kinds(file[offset..], offset) ==
                kinds + map[offset := f.payload.kind] + Kinds(file[offset + f.size..], offset + f.size)
  {
    hide FrameOf;
    var f := FrameOf(file[offset..]).value;
    assert file[offset..][f.size..] == file[offset + f.size..];
  }

  method ScanWalFile(file: Bytes) returns (validEnd: nat, kinds: map<nat, nat>)
    ensures validEnd == if |file| < MASTER_SIZE then MASTER_SIZE else MASTER_SIZE + ValidLength(file[MASTER_SIZE..])
    ensures |file| >= MASTER_SIZE ==> kinds == Kinds(file[MASTER_SIZE..], MASTER_SIZE)
  {
    hide FrameOf, ValidLength, Kinds;
    ScanStops([], |file|);
    NothingFound();
    kinds := map[];
    if |file| <= MASTER_SIZE { return MASTER_SIZE, kinds; }
    var offset := MASTER_SIZE;
    ghost var body := file[MASTER_SIZE..];
    while offset < |file|
      invariant MASTER_SIZE <= offset <= |file|
      invariant MASTER_SIZE + ValidLength(body) == offset + ValidLength(file[offset..])
      invariant kinds + Kinds(file[offset..], offset) == Kinds(body, MASTER_SIZE)
      decreases |file| - offset
    {
      var f := ReadFrame(file, offset);
      ScanStops(file[offset..], offset);
      if f.None? { return offset, kinds; }
      ScanGoesOn(kinds, file, offset);
      kinds := kinds + map[offset := f.value.payload.kind];
      offset := offset + f.value.size;
    }
    assert file[offset..] == [];
    validEnd := offset;
  }

  /** EnsureWalInitializedAndTrimmed. */
  method EnsureWalInitializedAndTrimmed(file: Bytes) returns (repaired: Bytes)
    ensures repaired == Repair(file)
  {
    if |file| < MASTER_SIZE { return WriteInt(0, MASTER_SIZE); }
    var validEnd, kinds := ScanWalFile(file);
    var master := file[..MASTER_SIZE];
    repaired := file[..validEnd];
    assert file[MASTER_SIZE..][..validEnd - MASTER_SIZE] == repaired[MASTER_SIZE..];
    assert repaired[..MASTER_SIZE] == master;
    if !MasterOk(IntOf(master), kinds) { repaired := WriteInt(0, MASTER_SIZE) + repaired[MASTER_SIZE..]; }
  }

  /** ---------- Appending and flushing ---------- */

  function Min(a: nat, b: nat): nat { if a < b then a else b }

  /** The persistent LSN and the durable length, both as byte offsets. */
  datatype Flushed = Flushed(persistent: nat, durable: nat)

  /** What FlushUpTo(lsn) makes of them when the file ends at `end`. */
  function FlushBytes(s: Flushed, end: nat, lsn: nat): Flushed {
    if lsn <= s.persistent then s else Flushed(Min(lsn, end), end)
  }

  class LogManager {
    var file: Bytes
    var persistentLsn: nat
    // how many bytes a crash is sure to leave
    ghost var durable: nat
    // the end of the file when it was opened, and whether it was flushed since
    ghost const openEnd: nat
    ghost var flushed: bool
    // where each record appended since starts and ends
    ghost var ends: map<nat, nat>

    ghost predicate Valid()
      reads this
    {
      && openEnd <= persistentLsn <= |file| && openEnd <= durable <= |file|
      && (forall s :: s in ends ==> openEnd <= s < ends[s] <= |file|)
      && (!flushed ==> persistentLsn == openEnd && durable == openEnd)
      && (flushed ==> persistentLsn in ends && forall s :: s in ends && s <= persistentLsn ==> ends[s] <= durable)
    }

    constructor (onDisk: Bytes)
      ensures Valid() && file == Repair(onDisk) && !flushed && ends == map[] && openEnd == |file|
    {
      var f := EnsureWalInitializedAndTrimmed(onDisk);
      file, persistentLsn, durable, openEnd, flushed, ends := f, |f|, |f|, |f|, false, map[];
    }

    method AppendRecord(p: Payload) returns (lsn: nat)
      requires Valid()
      modifies this`file, this`ends
      ensures Valid() && lsn == old(|file|) && file == old(file) + Frame(p.(lsn := lsn))
      ensures ends == old(ends)[lsn := |file|]
    {
      lsn := |file|;
      file := file + Frame(p.(lsn := lsn));
      ends := ends[lsn := |file|];
    }

    /** Called with the LSN of a record. It makes the record durable, with one exception: the
        first record appended since the file was opened starts exactly where the persistent
        LSN stands, and is taken for durable until something behind it is flushed. */
    method FlushUpTo(lsn: nat)
      requires Valid() && (lsn in ends || lsn < openEnd)
      modifies this`persistentLsn, this`durable, this`flushed
      ensures Valid() && old(durable) <= durable
      ensures lsn in ends ==> (ends[lsn] <= durable <==> old(flushed) || lsn != openEnd)
      ensures flushed == (old(flushed) || (lsn in ends && lsn != openEnd))
      ensures Flushed(persistentLsn, durable) == FlushBytes(Flushed(old(persistentLsn), old(durable)), |file|, lsn)
    {
      if lsn <= persistentLsn { return; }
      durable, flushed := |file|, true;
      persistentLsn := Min(lsn, |file|);
    }
  }

  /** The exception at work: a page record appended first after opening is not durable when
      the flush that its page waits for returns. */
  method FirstRecordIsNotFlushed(onDisk: Bytes, p: Payload) returns (log: LogManager, lsn: nat)
    ensures fresh(log) && log.Valid() && lsn in log.ends && log.durable < log.ends[lsn]
  {
    log := new LogManager(onDisk);
    lsn := log.AppendRecord(p);
    log.FlushUpTo(lsn);
  }
}
