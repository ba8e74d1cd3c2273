/** The engine counts log records where the log manager counts bytes. A flush means the same
    to both (recovery/log_manager.cpp). */
module FlushOffsets {
  import opened WalRecords
  import opened WalCodec
  import opened UndoPass
  import WalFile
  import Engine

  /** The byte offset that is the LSN of record number `lsn`; one past the last record is the
      end of the file. */
  ghost function OffsetOf(ps: seq<Payload>, lsn: Lsn): nat
    requires 1 <= lsn <= |ps| + 1
  {
    WalFile.StartOf(ps, lsn - 1)
  }

  lemma {:induction false} SameOrder(ps: seq<Payload>, a: Lsn, b: Lsn)
    requires 1 <= a <= |ps| + 1 && 1 <= b <= |ps| + 1
    ensures OffsetOf(ps, a) <= OffsetOf(ps, b) <==> a <= b
  {
    hide WalFile.StartOf;
    if a < b { WalFile.StartsGrow(ps, a - 1, b - 1); }
    if b < a { WalFile.StartsGrow(ps, b - 1, a - 1); }
  }

  ghost function Offsets(ps: seq<Payload>, s: Engine.State): WalFile.Flushed
    requires |ps| == |s.log| && FlushOk(s.log, s.durable, s.persistent)
  {
    WalFile.Flushed(OffsetOf(ps, s.persistent), OffsetOf(ps, s.durable + 1))
  }

  /** FlushUpTo on the engine's record numbers is FlushUpTo on the offsets of those records. */
  lemma {:induction false} FlushRefines(ps: seq<Payload>, s: Engine.State, lsn: Lsn)
    requires |ps| == |s.log| && FlushOk(s.log, s.durable, s.persistent) && 1 <= lsn <= |ps|
    ensures var s' := Engine.Flushed(s, lsn);
            && s'.log == s.log && FlushOk(s'.log, s'.durable, s'.persistent)
            && Offsets(ps, s') == WalFile.FlushBytes(Offsets(ps, s), OffsetOf(ps, |ps| + 1), OffsetOf(ps, lsn))
  {
    hide WalFile.StartOf;
    SameOrder(ps, lsn, s.persistent);
    SameOrder(ps, lsn, |ps| + 1);
  }

  /** Wherever a crash cuts the log file at or behind the durable bytes, the records the scan
      still finds are a log that recovery repairs the disk with. */
  lemma {:induction false} CutIsCrashState(ps: seq<Payload>, s: Engine.State, init: map<PageId, Image>, cut: nat)
    requires WalFile.AllWritable(ps) && |ps| == |s.log| && Engine.Ok(s, init) && s.durable <= |ps|
    requires OffsetOf(ps, s.durable + 1) <= cut <= OffsetOf(ps, |ps| + 1)
    ensures WalFile.MASTER_SIZE <= cut
    ensures var n := cut - WalFile.MASTER_SIZE;
            && n <= |WalFile.Frames(ps)|
            && var k := WalFile.CompleteCount(ps, n);
            && s.durable <= k <= |s.log|
            && WalFile.Payloads(WalFile.Frames(ps)[..n]) == ps[..k]
            && CrashState(s.log[..k], init, s.disk, s.master)
  {
    hide Engine.Ok, CrashState, WalFile.Frames, WalFile.AllWritable, WalFile.Payloads, WalFile.ValidLength;
    assert ps[..|ps|] == ps;
    var n := cut - WalFile.MASTER_SIZE;
    WalFile.CompleteExactly(ps, n);
    WalFile.TornTail(ps, n);
    var k := WalFile.CompleteCount(ps, n);
    if k < s.durable { SameOrder(ps, k + 2, s.durable + 1); }
    Engine.CrashLeavesCrashState(s, init, k);
  }
}
