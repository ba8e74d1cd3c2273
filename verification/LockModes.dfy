/** Lock modes, their compatibility and their join, and the key ranges of index locks
    (concurrency/lock_manager_helpers.cpp, concurrency/lock_manager_common.cpp). */
module LockModes {
  import opened Options


  datatype LockMode = IS | IX | S | SIX | X

  datatype Kind = TableLock | RecordLock | RangeLock

  predicate Compatible(kind: Kind, requested: LockMode, held: LockMode) {
    if !kind.TableLock? then requested.S? && held.S?
    else match requested
      case IS => held.IS? || held.IX? || held.S? || held.SIX?
      case IX => held.IS? || held.IX?
      case S => held.IS? || held.S?
      case SIX => held.IS?
      case X => false
  }

  function CombineTableModes(current: LockMode, requested: LockMode): LockMode {
    if current == requested then current
    else if current.X? || requested.X? then X
    else if current.SIX? || requested.SIX? then SIX
    else if (current.S? && requested.IX?) || (current.IX? && requested.S?) then SIX
    else if current.S? || requested.S? then S
    else if current.IX? || requested.IX? then IX
    else IS
  }

  function CombineTupleOrRangeModes(current: LockMode, requested: LockMode): LockMode {
    if current.X? || requested.X? then X else S
  }

  function Combine(kind: Kind, current: LockMode, requested: LockMode): LockMode {
    if kind.TableLock? then CombineTableModes(current, requested) else CombineTupleOrRangeModes(current, requested)
  }

  predicate ModeSatisfies(kind: Kind, held: LockMode, requested: LockMode) {
    Combine(kind, held, requested) == held
  }

  predicate IsTupleOrRangeLockMode(mode: LockMode) { mode.S? || mode.X? }

  predicate ModeFits(kind: Kind, mode: LockMode) { kind.TableLock? || IsTupleOrRangeLockMode(mode) }

  /** Holding this table mode allows record X locks. */
  predicate IntendsX(mode: LockMode) { mode.IX? || mode.SIX? || mode.X? }

  /** `a` keeps out whatever `b` keeps out. */
  ghost predicate Covers(kind: Kind, a: LockMode, b: LockMode) {
    forall m :: ModeFits(kind, m) && Compatible(kind, a, m) ==> Compatible(kind, b, m)
  }

  lemma CompatibleSymmetric(kind: Kind, a: LockMode, b: LockMode)
    ensures Compatible(kind, a, b) == Compatible(kind, b, a)
  {
  }

  /** The combined mode is the weakest one that protects as much as both. */
  lemma CombineIsLeastUpperBound(kind: Kind, a: LockMode, b: LockMode, c: LockMode)
    requires ModeFits(kind, a) && ModeFits(kind, b) && ModeFits(kind, c)
    ensures ModeFits(kind, Combine(kind, a, b))
    ensures Covers(kind, Combine(kind, a, b), a) && Covers(kind, Combine(kind, a, b), b)
    ensures Covers(kind, c, a) && Covers(kind, c, b) ==> Covers(kind, c, Combine(kind, a, b))
  {
  }

  /** ---------- Key ranges ---------- */

  type Key = seq<int>

  datatype Bound = Unbounded | Bounded(key: Key)

  datatype Range = Range(lower: Bound, upper: Bound, lowerInclusive: bool, upperInclusive: bool)

  const WHOLE := Range(Unbounded, Unbounded, true, true)

  /** Lexicographic comparison from position i on: -1, 0 or 1. */
  function CompareFrom(a: Key, b: Key, i: nat): (c: int)
    requires |a| == |b| && i <= |a|
    ensures c == -1 || c == 0 || c == 1
    decreases |a| - i
  {
    if i == |a| then 0
    else if a[i] < b[i] then -1
    else if a[i] > b[i] then 1
    else CompareFrom(a, b, i + 1)
  }

  /** Vectors of different length are refused. */
  method CompareKeyVectors(a: Key, b: Key) returns (c: Option<int>)
    ensures c.None? <==> |a| != |b|
    ensures c.Some? ==> c.value == CompareFrom(a, b, 0) && (c.value == 0 <==> a == b)
  {
    if |a| != |b| { return None; }
    for i := 0 to |a|
      invariant CompareFrom(a, b, 0) == CompareFrom(a, b, i) && a[..i] == b[..i]
    {
      if a[i] < b[i] { return Some(-1); }
      if a[i] > b[i] { return Some(1); }
    }
    return Some(0);
  }

  predicate ArityIs(n: nat, r: Range) {
    (r.lower.Bounded? ==> |r.lower.key| == n) && (r.upper.Bounded? ==> |r.upper.key| == n)
  }

  predicate SameArity(a: Range, b: Range) {
    a.upper.Bounded? && b.lower.Bounded? ==> |a.upper.key| == |b.lower.key|
  }

  predicate RangeEndsBefore(a: Range, b: Range)
    requires SameArity(a, b)
  {
    if a.upper.Unbounded? || b.lower.Unbounded? then false
    else
      var cmp := CompareFrom(a.upper.key, b.lower.key, 0);
      cmp < 0 || (cmp == 0 && !(a.upperInclusive && b.lowerInclusive))
  }

  /** Key vectors of different lengths make the comparison throw; queues of one index
      never mix lengths, so the model calls such ranges overlapping. */
  predicate RangesOverlap(a: Range, b: Range) {
    SameArity(a, b) && SameArity(b, a) ==> !RangeEndsBefore(a, b) && !RangeEndsBefore(b, a)
  }

  ghost predicate InRange(k: Key, r: Range)
    requires ArityIs(|k|, r)
  {
    && (r.lower.Bounded? ==> var c := CompareFrom(r.lower.key, k, 0); c < 0 || (c == 0 && r.lowerInclusive))
    && (r.upper.Bounded? ==> var c := CompareFrom(k, r.upper.key, 0); c < 0 || (c == 0 && r.upperInclusive))
  }

  lemma {:induction false} CompareTransitive(a: Key, b: Key, c: Key, i: nat)
    requires |a| == |b| == |c| && i <= |a|
    requires CompareFrom(a, b, i) <= 0 && CompareFrom(b, c, i) <= 0
    ensures CompareFrom(a, c, i) <= 0
    ensures CompareFrom(a, c, i) == 0 ==> CompareFrom(a, b, i) == 0 && CompareFrom(b, c, i) == 0
    decreases |a| - i
  {
    if i < |a| && a[i] == b[i] && b[i] == c[i] { CompareTransitive(a, b, c, i + 1); }
  }

  lemma {:induction false} CompareMirrors(a: Key, b: Key, i: nat)
    requires |a| == |b| && i <= |a|
    ensures CompareFrom(a, b, i) == -CompareFrom(b, a, i)
    decreases |a| - i
  {
    if i < |a| && a[i] == b[i] { CompareMirrors(a, b, i + 1); }
  }

  lemma {:induction false} SharedKeyNotBefore(k: Key, a: Range, b: Range)
    requires ArityIs(|k|, a) && ArityIs(|k|, b) && InRange(k, a) && InRange(k, b)
    ensures !RangeEndsBefore(a, b)
  {
    if a.upper.Bounded? && b.lower.Bounded? {
      CompareTransitive(b.lower.key, k, a.upper.key, 0);
      CompareMirrors(b.lower.key, a.upper.key, 0);
    }
  }

  /** Two ranges that share a key are always reported as overlapping. */
  lemma {:induction false} SharedKeyOverlaps(k: Key, a: Range, b: Range)
    requires ArityIs(|k|, a) && ArityIs(|k|, b) && InRange(k, a) && InRange(k, b)
    ensures RangesOverlap(a, b)
  {
    SharedKeyNotBefore(k, a, b);
    SharedKeyNotBefore(k, b, a);
  }

  /** ---------- The overlap test is exact ---------- */

  /** A key, or the place just before or just after it: between any two keys of an ordered type
      there may be others. */
  datatype Point = Point(key: Key, side: int)

  predicate IsPoint(p: Point, n: nat) { |p.key| == n && -1 <= p.side <= 1 }

  predicate PointLe(p: Point, q: Point)
    requires |p.key| == |q.key|
  {
    var c := CompareFrom(p.key, q.key, 0);
    c < 0 || (c == 0 && p.side <= q.side)
  }

  /** The first and the last point of a bounded side. */
  function LowerPoint(r: Range): Point
    requires r.lower.Bounded?
  {
    Point(r.lower.key, if r.lowerInclusive then 0 else 1)
  }

  function UpperPoint(r: Range): Point
    requires r.upper.Bounded?
  {
    Point(r.upper.key, if r.upperInclusive then 0 else -1)
  }

  ghost predicate PointIn(p: Point, r: Range)
    requires ArityIs(|p.key|, r)
  {
    && (r.lower.Bounded? ==> PointLe(LowerPoint(r), p))
    && (r.upper.Bounded? ==> PointLe(p, UpperPoint(r)))
  }

  ghost predicate SharePoint(a: Range, b: Range, n: nat)
    requires ArityIs(n, a) && ArityIs(n, b)
  {
    exists p :: IsPoint(p, n) && PointIn(p, a) && PointIn(p, b)
  }

  /** A key is in a range as a point exactly when it is in it. */
  lemma KeyIsPoint(k: Key, r: Range)
    requires ArityIs(|k|, r)
    ensures PointIn(Point(k, 0), r) <==> InRange(k, r)
  {
  }

  lemma {:induction false} PointTransitive(p: Point, q: Point, r: Point)
    requires |p.key| == |q.key| == |r.key| && PointLe(p, q) && PointLe(q, r)
    ensures PointLe(p, r)
  {
    CompareTransitive(p.key, q.key, r.key, 0);
  }

  lemma {:induction false} PointTotal(p: Point, q: Point)
    requires |p.key| == |q.key|
    ensures PointLe(p, q) || PointLe(q, p)
  {
    CompareMirrors(p.key, q.key, 0);
  }

  /** A range ends before another one begins when its last point lies before the first one. */
  lemma {:induction false} EndsBeforeExact(a: Range, b: Range, n: nat)
    requires ArityIs(n, a) && ArityIs(n, b)
    ensures RangeEndsBefore(a, b) <==>
            a.upper.Bounded? && b.lower.Bounded? && !PointLe(LowerPoint(b), UpperPoint(a))
  {
    if a.upper.Bounded? && b.lower.Bounded? { CompareMirrors(a.upper.key, b.lower.key, 0); }
  }

  /** Two ranges that are not empty are reported as overlapping if and only if they have a
      point in common. */
  lemma {:induction false} OverlapExact(a: Range, b: Range, n: nat)
    requires ArityIs(n, a) && ArityIs(n, b) && SharePoint(a, a, n) && SharePoint(b, b, n)
    ensures RangesOverlap(a, b) <==> SharePoint(a, b, n)
  {
    hide PointLe, RangeEndsBefore;
    EndsBeforeExact(a, b, n);
    EndsBeforeExact(b, a, n);
    if SharePoint(a, b, n) {
      var p :| IsPoint(p, n) && PointIn(p, a) && PointIn(p, b);
      if a.upper.Bounded? && b.lower.Bounded? { PointTransitive(LowerPoint(b), p, UpperPoint(a)); }
      if b.upper.Bounded? && a.lower.Bounded? { PointTransitive(LowerPoint(a), p, UpperPoint(b)); }
    }
    if RangesOverlap(a, b) { MeetingPoint(a, b, n); }
  }

  /** The larger of the first points, or the smaller of the last ones, or any point. */
  lemma {:induction false} MeetingPoint(a: Range, b: Range, n: nat)
    requires ArityIs(n, a) && ArityIs(n, b) && SharePoint(a, a, n) && SharePoint(b, b, n)
    requires a.upper.Bounded? && b.lower.Bounded? ==> PointLe(LowerPoint(b), UpperPoint(a))
    requires b.upper.Bounded? && a.lower.Bounded? ==> PointLe(LowerPoint(a), UpperPoint(b))
    ensures SharePoint(a, b, n)
  {
    hide PointLe;
    OwnBounds(a, n);
    OwnBounds(b, n);
    var zero := Point(seq(n, i => 0), 0);
    var p :=
      if a.lower.Bounded? && b.lower.Bounded? then
        if PointLe(LowerPoint(a), LowerPoint(b)) then LowerPoint(b) else LowerPoint(a)
      else if a.lower.Bounded? then LowerPoint(a)
      else if b.lower.Bounded? then LowerPoint(b)
      else if a.upper.Bounded? && b.upper.Bounded? then
        if PointLe(UpperPoint(a), UpperPoint(b)) then UpperPoint(a) else UpperPoint(b)
      else if a.upper.Bounded? then UpperPoint(a)
      else if b.upper.Bounded? then UpperPoint(b)
      else zero;
    PointSelf(p);
    if a.lower.Bounded? && b.lower.Bounded? { PointTotal(LowerPoint(a), LowerPoint(b)); }
    if a.upper.Bounded? && b.upper.Bounded? { PointTotal(UpperPoint(a), UpperPoint(b)); }
    assert IsPoint(p, n) && PointIn(p, a) && PointIn(p, b);
  }

  lemma PointSelf(p: Point)
    ensures PointLe(p, p)
  {
    CompareSelf(p.key, 0);
  }

  lemma {:induction false} CompareSelf(k: Key, i: nat)
    requires i <= |k|
    ensures CompareFrom(k, k, i) == 0
    decreases |k| - i
  {
    if i < |k| { CompareSelf(k, i + 1); }
  }

  lemma {:induction false} OwnBounds(r: Range, n: nat)
    requires ArityIs(n, r) && SharePoint(r, r, n)
    ensures r.lower.Bounded? && r.upper.Bounded? ==> PointLe(LowerPoint(r), UpperPoint(r))
  {
    hide PointLe;
    var p :| IsPoint(p, n) && PointIn(p, r);
    if r.lower.Bounded? && r.upper.Bounded? { PointTransitive(LowerPoint(r), p, UpperPoint(r)); }
  }
}
