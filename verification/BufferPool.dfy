/** The buffer pool: frames, page table, dirty page table and the clock that picks frames to
    reuse. The pool is a cache one cannot see through: no fetch, eviction or flush changes
    what a page holds, except that eviction drops a change whose last pin was given back as
    clean (buffer/buffer_pool_manager.cpp, buffer/clock_replacer.cpp). */
module BufferPool {
  import opened Options
  import opened WalRecords

  const MAX_USAGE := 5

  datatype Frame = Frame(page: PageId, valid: bool, dirty: bool, pins: nat, usage: nat, data: Page)

  function Zeros(n: nat): Image {
    if n == 0 then [] else [0] + Zeros(n - 1)
  }

  /** What ResetMemory leaves. */
  const ZERO_PAGE := Page(Zeros(PAGE_SIZE), 0)

  const EMPTY_FRAME := Frame(NO_PAGE, false, false, 0, 0, ZERO_PAGE)

  /** ---------- The clock ---------- */

  predicate Busy(f: Frame) { f.valid && f.pins > 0 }

  /** Frames that differ at most in their usage count. */
  predicate SameButUsage(f: Frame, g: Frame) { f.(usage := 0) == g.(usage := 0) }

  /** How far the hand at `start` has to move to reach frame g. */
  function Distance(start: nat, n: nat, g: nat): nat
    requires start < n && g < n
  {
    if g >= start then g - start else g + n - start
  }

  /** After `rounds` full rounds and `off` more steps from `start`, none of which found a
      frame: an unpinned frame was counted down once for each time the hand met it. */
  ghost predicate Swept(was: seq<Frame>, now: seq<Frame>, start: nat, rounds: nat, off: nat, g: nat)
    requires |was| == |now| && start < |was| && g < |was|
  {
    var met := rounds + if Distance(start, |was|, g) < off then 1 else 0;
    && SameButUsage(was[g], now[g])
    && (Busy(was[g]) ==> now[g] == was[g])
    && (!was[g].valid ==> met == 0 && now[g] == was[g])
    && (was[g].valid && !Busy(was[g]) ==> now[g].usage + met == was[g].usage)
  }

  /** How often the hand passes the frame before it takes it. */
  function Rounds(f: Frame): nat { if f.valid then f.usage else 0 }

  /** The clock takes the unpinned frame with the least usage count, of equal ones the first
      behind the hand, and counts every other one down once for each time it met it. */
  ghost predicate IsClockVictim(was: seq<Frame>, now: seq<Frame>, start: nat, v: nat)
    requires |was| == |now| && start < |was| && v < |was|
  {
    && !Busy(was[v])
    && (forall g :: 0 <= g < |was| && !Busy(was[g]) ==> ComesFirst(was, start, v, g))
    && (forall g :: 0 <= g < |was| ==> Swept(was, now, start, Rounds(was[v]), Distance(start, |was|, v), g))
  }

  predicate ComesFirst(was: seq<Frame>, start: nat, v: nat, g: nat)
    requires start < |was| && v < |was| && g < |was|
  {
    || Rounds(was[v]) < Rounds(was[g])
    || (Rounds(was[v]) == Rounds(was[g]) && Distance(start, |was|, v) <= Distance(start, |was|, g))
  }

  class Clock {
    var hand: nat

    constructor ()
      ensures hand == 0
    {
      hand := 0;
    }

    /** A frame is refused only when every frame is valid and pinned: usage counts are at
        most 5, so seven rounds count any unpinned frame down. */
    method Victim(frames: seq<Frame>) returns (victim: Option<nat>, frames': seq<Frame>)
      requires |frames| > 0 ==> hand < |frames|
      requires forall g :: 0 <= g < |frames| ==> frames[g].usage <= MAX_USAGE
      modifies this
      ensures |frames| > 0 ==> hand < |frames|
      ensures |frames'| == |frames| && forall g :: 0 <= g < |frames| ==>
                SameButUsage(frames[g], frames'[g]) && frames'[g].usage <= frames[g].usage
      ensures victim.None? <==> forall g :: 0 <= g < |frames| ==> Busy(frames[g])
      ensures victim.Some? ==> victim.value < |frames| && !Busy(frames[victim.value])
      ensures victim.Some? ==> old(hand) < |frames| && IsClockVictim(frames, frames', old(hand), victim.value)
      ensures victim.Some? ==> hand == if victim.value + 1 == |frames| then 0 else victim.value + 1
    {
      hide Swept, SameButUsage, Busy, IsClockVictim;
      frames' := frames;
      var n := |frames|;
      if n == 0 { return None, frames; }
      ghost var start, rounds, off := hand, 0, 0;
      SweepStart(frames, start);
      var step := 0;
      while step < n * (MAX_USAGE + 2)
        invariant |frames'| == n && hand < n && off < n && step == rounds * n + off && step <= n * (MAX_USAGE + 2)
        invariant hand == if start + off < n then start + off else start + off - n
        invariant forall g :: 0 <= g < n ==> Swept(frames, frames', start, rounds, off, g)
        decreases n * (MAX_USAGE + 2) - step
      {
        var current := hand;
        assert Distance(start, n, current) == off;
        hand := if hand + 1 == n then 0 else hand + 1;
        var frame := frames'[current];
        if !frame.valid || (frame.pins == 0 && frame.usage == 0) {
          FoundFree(frames, frames', start, rounds, off, current);
          return Some(current), frames';
        }
        ghost var before := frames';
        if frame.pins == 0 { frames' := frames'[current := frame.(usage := frame.usage - 1)]; }
        SweepStep(frames, before, frames', start, rounds, off, current);
        step := step + 1;
        if off + 1 == n { rounds, off := rounds + 1, 0; } else { off := off + 1; }
      }
      AllBusy(frames, frames', start, rounds, off, n);
      victim := None;
    }
  }

  /** RecordAccess. */
  function Accessed(f: Frame): Frame {
    if f.usage < MAX_USAGE then f.(usage := f.usage + 1) else f
  }

  lemma {:induction false} SweepStart(was: seq<Frame>, start: nat)
    requires start < |was|
    ensures forall g :: 0 <= g < |was| ==> Swept(was, was, start, 0, 0, g)
  {
  }

  lemma {:induction false} FoundFree(was: seq<Frame>, now: seq<Frame>, start: nat, rounds: nat, off: nat, g: nat)
    requires |was| == |now| && start < |was| && g < |was|
    requires forall x :: 0 <= x < |was| ==> Swept(was, now, start, rounds, off, x)
    requires !now[g].valid || (now[g].pins == 0 && now[g].usage == 0)
    requires Distance(start, |was|, g) == off
    ensures IsClockVictim(was, now, start, g)
    ensures forall x :: 0 <= x < |was| ==> SameButUsage(was[x], now[x]) && now[x].usage <= was[x].usage
    ensures !Busy(was[g])
  {
    forall x | 0 <= x < |was| ensures SameButUsage(was[x], now[x]) && now[x].usage <= was[x].usage {
      assert Swept(was, now, start, rounds, off, x);
    }
    assert Swept(was, now, start, rounds, off, g);
    assert Rounds(was[g]) == rounds;
    forall x | 0 <= x < |was| && !Busy(was[x]) ensures ComesFirst(was, start, g, x) {
      assert Swept(was, now, start, rounds, off, x);
    }
  }

  lemma {:induction false} SweepStep(was: seq<Frame>, before: seq<Frame>, now: seq<Frame>, start: nat, rounds: nat,
                                     off: nat, current: nat)
    requires |was| == |before| == |now| && start < |was| && current < |was| && off < |was|
    requires forall g :: 0 <= g < |was| ==> Swept(was, before, start, rounds, off, g)
    requires Distance(start, |was|, current) == off && before[current].valid
    requires (before[current].pins == 0 ==> before[current].usage > 0)
    requires now == if before[current].pins == 0
        then before[current := before[current].(usage := before[current].usage - 1)] else before
    ensures var rounds', off' := if off + 1 == |was| then rounds + 1 else rounds, if off + 1 == |was| then 0
        else off + 1;
            forall g :: 0 <= g < |was| ==> Swept(was, now, start, rounds', off', g)
  {
    var rounds', off' := if off + 1 == |was| then rounds + 1 else rounds, if off + 1 == |was| then 0 else off + 1;
    forall g | 0 <= g < |was| ensures Swept(was, now, start, rounds', off', g) {
      assert Swept(was, before, start, rounds, off, g);
      assert g != current ==> Distance(start, |was|, g) != off;
    }
  }

  lemma {:induction false} AllBusy(was: seq<Frame>, now: seq<Frame>, start: nat, rounds: nat, off: nat, n: nat)
    requires |was| == |now| == n && start < n && off < n && rounds * n + off == n * (MAX_USAGE + 2)
    requires forall g :: 0 <= g < n ==> Swept(was, now, start, rounds, off, g)
    requires forall g :: 0 <= g < n ==> was[g].usage <= MAX_USAGE
    ensures forall g :: 0 <= g < n ==> Busy(was[g]) && SameButUsage(was[g], now[g]) && now[g].usage <= was[g].usage
  {
    assert rounds <= MAX_USAGE ==> rounds * n <= MAX_USAGE * n;
    forall g | 0 <= g < n ensures Busy(was[g]) && SameButUsage(was[g], now[g]) && now[g].usage <= was[g].usage {
      assert Swept(was, now, start, rounds, off, g);
    }
  }

  /** ---------- The pool ---------- */

  type Frames = seq<Frame>
  type Disk = map<PageId, Page>

  /** The page table maps exactly the pages of valid frames to their frames. */
  ghost predicate TableOk(frames: Frames, table: map<PageId, nat>) {
    && (forall p :: p in table ==> table[p] < |frames| && frames[table[p]].valid && frames[table[p]].page == p)
    && (forall f :: 0 <= f < |frames| && frames[f].valid ==> frames[f].page in table && table[frames[f].page] == f)
  }

  /** The dirty page table lists exactly the pages of dirty frames. */
  ghost predicate DirtyOk(frames: Frames, dirty: map<PageId, Lsn>) {
    && (forall p :: p in dirty ==> exists f :: 0 <= f < |frames| && DirtyFrame(frames[f], p))
    && (forall f :: 0 <= f < |frames| && frames[f].valid && frames[f].dirty ==> frames[f].page in dirty)
  }

  predicate DirtyFrame(f: Frame, p: PageId) { f.valid && f.dirty && f.page == p }

  /** A frame holds what its page is; a clean one that nobody is changing also agrees with
      the disk. */
  ghost predicate FrameOk(f: Frame, disk: Disk, pages: Disk, changing: set<PageId>) {
    && f.usage <= MAX_USAGE
    && (!f.valid ==> f == EMPTY_FRAME.(usage := f.usage))
    && (f.valid ==>
          && f.page in disk && f.page in pages && f.data == pages[f.page]
          && (!f.dirty && f.page !in changing ==> disk[f.page] == f.data))
  }

  /** Pages without a frame are on disk as they are. */
  ghost predicate DiskOk(table: map<PageId, nat>, disk: Disk, pages: Disk, durable: Lsn) {
    && pages.Keys == disk.Keys
    && (forall p :: p in disk && p !in table ==> disk[p] == pages[p])
    && (forall p :: p in disk ==> disk[p].lsn <= durable)
  }

  /** The change of the page is in its frame only: nobody pins it, and the frame is clean. */
  predicate IsUnsaved(frames: Frames, table: map<PageId, nat>, changing: set<PageId>, p: PageId) {
    p in changing && p in table && table[p] < |frames| && frames[table[p]].pins == 0 && !frames[table[p]].dirty
  }

  /** No page changed, but for pages with an unsaved change, which may have fallen back to
      what the disk has. */
  ghost predicate OnlyUnsavedFell(pages: Disk, pages': Disk, disk: Disk, unsaved: set<PageId>) {
    && pages'.Keys == pages.Keys
    && forall p :: p in pages ==> pages'[p] == pages[p] || (p in unsaved && p in disk && pages'[p] == disk[p])
  }

  /** How many pins the page has. */
  function PinsOf(frames: Frames, table: map<PageId, nat>, p: PageId): nat {
    if p in table && table[p] < |frames| then frames[table[p]].pins else 0
  }

  /** Every page has the pins it had. */
  ghost predicate SamePins(frames: Frames, table: map<PageId, nat>, frames': Frames, table': map<PageId, nat>) {
    forall q :: PinsOf(frames', table', q) == PinsOf(frames, table, q)
  }

  /** So does every page but p, which has `n`. */
  ghost predicate PinsBut(frames: Frames, table: map<PageId, nat>, frames': Frames, table': map<PageId, nat>, p: PageId,
                          n: int)
  {
    PinsOf(frames', table', p) == n && forall q :: q != p ==> PinsOf(frames', table', q) == PinsOf(frames, table, q)
  }

  /** Entries of the dirty page table that are left are what they were. */
  ghost predicate DirtyKept(dirty: map<PageId, Lsn>, dirty': map<PageId, Lsn>) {
    forall p :: p in dirty' ==> p in dirty && dirty'[p] == dirty[p]
  }

  class BufferPool {
    var frames: Frames
    var table: map<PageId, nat>
    var dirty: map<PageId, Lsn>
    var disk: Disk
    // how far the log manager was told to flush
    var durable: Lsn
    const clock: Clock
    // what every page is, whether cached or not
    ghost var pages: Disk
    // pages changed since they were last unpinned as dirty
    ghost var changing: set<PageId>

    ghost function Unsaved(): set<PageId>
      reads this
    {
      set p | p in changing && IsUnsaved(frames, table, changing, p)
    }

    ghost predicate Valid()
      reads this, clock
    {
      && TableOk(frames, table) && DirtyOk(frames, dirty) && DiskOk(table, disk, pages, durable)
      && AllFramesOk(frames, disk, pages, changing)
      && (|frames| > 0 ==> clock.hand < |frames|)
      && (forall p :: p in changing ==> p in table)
    }

    constructor (size: nat, disk: Disk, durable: Lsn)
      requires forall p :: p in disk ==> disk[p].lsn <= durable
      ensures Valid() && |frames| == size && pages == disk && changing == {} && fresh(clock)
    {
      frames, table, dirty := seq(size, i => EMPTY_FRAME), map[], map[];
      this.disk, this.durable, pages, changing := disk, durable, disk, {};
      clock := new Clock();
    }

    /** A dirty frame is written after the log up to its LSN, and is clean then. */
    method FlushFrame(f: nat)
      requires Valid() && f < |frames|
      modifies this`frames, this`dirty, this`disk, this`durable
      ensures Valid() && |frames| == old(|frames|) && disk.Keys == old(disk.Keys)
      ensures frames == old(frames)[f := old(frames)[f].(dirty := frames[f].dirty)]
      ensures !(frames[f].valid && frames[f].dirty)
      ensures var frame := old(frames)[f];
              if frame.valid && frame.dirty then
                disk == old(disk)[frame.page := frame.data] && dirty == old(dirty) - {frame.page}
              else disk == old(disk) && dirty == old(dirty) && frames == old(frames)
      ensures SamePins(old(frames), table, frames, table)
    {
      hide TableOk, DirtyOk, DiskOk, FrameOk;
      var frame := frames[f];
      if frame.valid && frame.dirty {
        WriteBackOk(frames, table, dirty, disk, pages, changing, durable, f);
        durable := Max(durable, frame.data.lsn);
        disk := disk[frame.page := frame.data];
        frames := frames[f := frame.(dirty := false)];
        dirty := dirty - {frame.page};
      }
    }

    /** A frame for a new page: the clock's choice, written back if dirty and emptied. An
        unsaved change of the page that was in it is gone. */
    method PrepareFrame() returns (got: Option<nat>, ghost counted: Frames)
      requires Valid()
      modifies this`frames, this`table, this`dirty, this`disk, this`durable, this`pages, this`changing, clock
      ensures Valid() && |frames| == old(|frames|) && (forall p :: p in table ==> p in old(table))
      ensures disk.Keys == old(disk.Keys)
      ensures got.None? <==> forall f :: 0 <= f < |frames| ==> Busy(old(frames)[f])
      ensures got.Some? ==> got.value < |frames| && frames[got.value] == EMPTY_FRAME
      ensures got.Some? ==>
                && |counted| == |old(frames)| && old(clock.hand) < |old(frames)|
                && IsClockVictim(old(frames), counted, old(clock.hand), got.value)
                && frames == counted[got.value := EMPTY_FRAME]
                && table == if counted[got.value].valid then old(table) - {counted[got.value].page} else old(table)
      ensures got.None? ==> table == old(table) && dirty == old(dirty) && disk == old(disk) && pages == old(pages)
      ensures SamePins(old(frames), old(table), frames, table) && DirtyKept(old(dirty), dirty)
      ensures OnlyUnsavedFell(old(pages), pages, old(disk), old(Unsaved()))
      ensures forall p :: p in old(Unsaved()) && p in pages && p !in table ==>
                p in old(disk) && pages[p] == old(disk)[p]
    {
      hide TableOk, DirtyOk, DiskOk, FrameOk, AllFramesOk, SameButUsage, SamePins, IsClockVictim;
      hide OnlyUnsavedFell, Swept;
      UsageBounded(frames, disk, pages, changing);
      var swept;
      got, swept := clock.Victim(frames);
      counted := swept;
      CountedOk(frames, swept, table, dirty, disk, pages, changing);
      PinsCounted(frames, swept, table);
      frames := swept;
      NothingFell(pages, disk, Unsaved());
      assert Unsaved() == old(Unsaved()) by { UnsavedCounted(old(frames), swept, table, changing); }
      if got.None? {
        AllCached(frames, table, disk, pages, changing);
        return;
      }
      var f := got.value;
      if frames[f].valid {
        EvictFrame(f);
        PinsThen(old(frames), old(table), swept, frames, table);
      } else {
        ResetOk(frames, table, dirty, disk, pages, changing, f);
        AllCached(frames, table, disk, pages, changing);
        PinsReset(old(frames), frames, table, f);
        frames := frames[f := EMPTY_FRAME];
      }
    }

    /** The page of an unpinned frame leaves the pool. */
    method EvictFrame(f: nat)
      requires Valid() && f < |frames| && frames[f].valid && frames[f].pins == 0
      modifies this`frames, this`table, this`dirty, this`disk, this`durable, this`pages, this`changing
      ensures Valid() && |frames| == old(|frames|) && disk.Keys == old(disk.Keys) && frames[f] == EMPTY_FRAME
      ensures table == old(table) - {old(frames)[f].page} && frames == old(frames)[f := EMPTY_FRAME]
      ensures SamePins(old(frames), old(table), frames, table) && DirtyKept(old(dirty), dirty)
      ensures OnlyUnsavedFell(old(pages), pages, old(disk), old(Unsaved()))
      ensures forall p :: p in old(Unsaved()) && p in pages && p !in table ==>
                p in old(disk) && pages[p] == old(disk)[p]
    {
      hide TableOk, DirtyOk, DiskOk, AllFramesOk, FrameOk;
      var page := frames[f].page;
      FramePage(frames, table, disk, pages, changing, f);
      AllCached(frames, table, disk, pages, changing);
      FlushFrame(f);
      EvictOk(frames, table, dirty, disk, pages, changing, durable, f);
      PinsEvict(old(frames), table, f);
      pages := pages[page := disk[page]];
      changing, table := changing - {page}, table - {page};
      frames := frames[f := EMPTY_FRAME];
    }

    /** The frame of a page, pinned. Null means the page does not exist or every frame is in
        use. */
    method FetchPage(p: PageId) returns (got: Option<nat>)
      requires Valid()
      modifies this`frames, this`table, this`dirty, this`disk, this`durable, this`pages, this`changing, clock
      ensures Valid() && OnlyUnsavedFell(old(pages), pages, old(disk), old(Unsaved()))
      ensures got.None? <==>
                p !in pages || (p !in old(table) && forall f :: 0 <= f < |old(frames)| ==> Busy(old(frames)[f]))
      ensures got.Some? ==> got.value < |frames| && frames[got.value].valid && frames[got.value].page == p
                            && frames[got.value].pins > 0 && frames[got.value].data == pages[p]
      ensures if got.Some? then PinsBut(old(frames), old(table), frames, table, p,
                                        PinsOf(old(frames), old(table), p) + 1)
              else SamePins(old(frames), old(table), frames, table)
      ensures DirtyKept(old(dirty), dirty)
      ensures p in old(table) ==>
                got == Some(old(table)[p]) && table == old(table) && disk == old(disk) && dirty == old(dirty)
                && got.value < |old(frames)|
                && var was := old(frames)[got.value];
                   frames == old(frames)[got.value := Accessed(was.(pins := was.pins + 1))]
      ensures p !in old(table) && got.Some? ==>
                frames[got.value] == Accessed(Frame(p, true, false, 1, 0, pages[p])) && table[p] == got.value
    {
      hide TableOk, DirtyOk, DiskOk, FrameOk, AllFramesOk, Busy, PinsOf;
      if p in table {
        var f := table[p];
        PinOk(frames, table, dirty, disk, pages, changing, p);
        PinsSet(frames, table, p, Accessed(frames[f].(pins := frames[f].pins + 1)));
        frames := frames[f := Accessed(frames[f].(pins := frames[f].pins + 1))];
        CachedPage(frames, table, disk, pages, changing, p);
        return Some(f);
      }
      PagesOnDisk(table, disk, pages, durable, p);
      if p !in disk { return None; }
      ghost var counted;
      got, counted := PrepareFrame();
      if got.None? { return; }
      PagesOnDisk(table, disk, pages, durable, p);
      LoadOk(frames, table, dirty, disk, pages, changing, durable, got.value, p);
      var frame := Accessed(Frame(p, true, false, 1, 0, disk[p]));
      PinsLoad(old(frames), old(table), frames, table, p, got.value, frame);
      frames, table := frames[got.value := frame], table[p := got.value];
    }

    /** A new page on the page number the disk manager allocated, which is zero there too. */
    method NewPage(p: PageId) returns (got: Option<nat>)
      requires Valid() && p !in disk
      modifies this, clock
      ensures Valid() && (got.None? <==> forall f :: 0 <= f < |old(frames)| ==> Busy(old(frames)[f]))
      ensures OnlyUnsavedFell(if got.Some? then old(pages)[p := ZERO_PAGE]
          else old(pages), pages, old(disk), old(Unsaved()))
      ensures got.Some? ==>
                got.value < |frames| && frames[got.value] == Accessed(Frame(p, true, false, 1, 0, ZERO_PAGE))
                && pages[p] == ZERO_PAGE && table[p] == got.value
      ensures if got.Some? then PinsBut(old(frames), old(table), frames, table, p, 1)
              else SamePins(old(frames), old(table), frames, table)
      ensures DirtyKept(old(dirty), dirty)
    {
      hide TableOk, DirtyOk, DiskOk, FrameOk, AllFramesOk, Busy, PinsOf, PinsBut, SamePins, DirtyKept;
      hide OnlyUnsavedFell, IsUnsaved, IsClockVictim, Accessed;
      PagesOnDisk(table, disk, pages, durable, p);
      NotCached(frames, table, disk, pages, changing, p);
      ghost var counted;
      got, counted := PrepareFrame();
      if got.None? { return; }
      AllocateOk(frames, table, dirty, disk, pages, changing, durable, p);
      FellAndGrew(old(pages), pages, old(disk), old(Unsaved()), p);
      disk, pages := disk[p := ZERO_PAGE], pages[p := ZERO_PAGE];
      LoadOk(frames, table, dirty, disk, pages, changing, durable, got.value, p);
      var frame := Accessed(Frame(p, true, false, 1, 0, ZERO_PAGE));
      AccessedFacts(Frame(p, true, false, 1, 0, ZERO_PAGE));
      PinsLoad(old(frames), old(table), frames, table, p, got.value, frame);
      frames, table := frames[got.value := frame], table[p := got.value];
    }

    /** A pin holder changes the page. */
    method Modify(f: nat, data: Page)
      requires Valid() && f < |frames| && frames[f].valid && frames[f].pins > 0
      modifies this`frames, this`pages, this`changing
      ensures Valid() && pages == old(pages)[old(frames)[f].page := data]
      ensures frames == old(frames)[f := old(frames)[f].(data := data)]
    {
      hide TableOk, DirtyOk, DiskOk, FrameOk, AllFramesOk;
      var page := frames[f].page;
      ModifyOk(frames, table, dirty, disk, pages, changing, durable, f, data);
      frames := frames[f := frames[f].(data := data)];
      pages, changing := pages[page := data], changing + {page};
    }

    /** The change of a page is unsaved afterwards exactly when its last pin is given back as
        clean and no one has marked the page dirty. */
    method UnpinPage(p: PageId, isDirty: bool) returns (ok: bool)
      requires Valid()
      modifies this`frames, this`dirty, this`changing
      ensures Valid() && pages == old(pages)
      ensures ok <==> p in table && table[p] < |old(frames)| && old(frames)[table[p]].pins > 0
      ensures if ok then PinsBut(old(frames), table, frames, table, p, PinsOf(old(frames), table, p) - 1)
              else frames == old(frames) && dirty == old(dirty)
      ensures ok ==> var was := old(frames)[table[p]];
                     frames == old(frames)[table[p] := was.(pins := was.pins - 1, dirty := was.dirty || isDirty)]
      ensures !isDirty ==> dirty == old(dirty)
      ensures ok ==> (p in Unsaved() <==>
          p in old(changing) && !isDirty && old(frames)[table[p]].pins == 1 && !old(frames)[table[p]].dirty)
      ensures forall q :: q != p ==> (q in Unsaved() <==> q in old(Unsaved()))
      ensures ok && isDirty ==>
                p in pages
                && dirty == old(dirty)[p := if p in old(dirty) then Min(old(dirty)[p], pages[p].lsn) else pages[p].lsn]
    {
      hide TableOk, DirtyOk, DiskOk, FrameOk, AllFramesOk;
      if p !in table { return false; }
      var f := table[p];
      CachedPage(frames, table, disk, pages, changing, p);
      if frames[f].pins == 0 { return false; }
      UnpinOk(frames, table, dirty, disk, pages, changing, p, isDirty);
      var frame := frames[f].(pins := frames[f].pins - 1);
      if isDirty {
        var rec := frame.data.lsn;
        dirty := dirty[p := if p in dirty then Min(dirty[p], rec) else rec];
        frame := frame.(dirty := true);
        changing := changing - {p};
      }
      forall q | q != p
        ensures IsUnsaved(frames[f := frame], table, changing, q) == IsUnsaved(frames, table, old(changing), q)
      {
        OtherFrame(frames, table, f, p, q);
      }
      PinsSet(frames, table, p, frame);
      frames := frames[f := frame];
      ok := true;
    }

    /** A pinned page stays; otherwise its frame and its disk page go, unwritten. */
    method DeletePage(p: PageId) returns (ok: bool)
      requires Valid()
      modifies this
      ensures Valid()
      ensures ok <==> !(p in old(table) && old(table)[p] < |old(frames)| && old(frames)[old(table)[p]].pins > 0)
      ensures pages == if ok then old(pages) - {p} else old(pages)
      ensures disk == if ok then old(disk) - {p} else old(disk)
      ensures dirty == if ok then old(dirty) - {p} else old(dirty)
      ensures table == if ok then old(table) - {p} else old(table)
      ensures SamePins(old(frames), old(table), frames, table)
    {
      hide TableOk, DirtyOk, DiskOk, FrameOk, AllFramesOk;
      if p in table {
        var f := table[p];
        CachedPage(frames, table, disk, pages, changing, p);
        if frames[f].pins > 0 { return false; }
        DropOk(frames, table, dirty, disk, pages, changing, durable, p);
        PinsEvict(frames, table, f);
        frames, table, dirty := frames[f := EMPTY_FRAME], table - {p}, dirty - {p};
        changing := changing - {p};
      } else {
        GoneOk(frames, table, disk, pages, changing, durable, p);
        NotDirty(frames, table, dirty, p);
      }
      disk, pages := disk - {p}, pages - {p};
      ok := true;
    }

    method FlushPage(p: PageId) returns (ok: bool)
      requires Valid()
      modifies this`frames, this`dirty, this`disk, this`durable
      ensures Valid() && (ok <==> p in table)
      ensures ok && p !in changing ==> p in disk && p in pages && disk[p] == pages[p]
      ensures !ok ==> frames == old(frames) && dirty == old(dirty) && disk == old(disk)
      ensures ok ==> p !in dirty && (forall q :: q in old(dirty) && q != p ==> q in dirty)
      ensures DirtyKept(old(dirty), dirty) && SamePins(old(frames), table, frames, table)
    {
      hide DiskOk;
      if p !in table { return false; }
      CachedPage(frames, table, disk, pages, changing, p);
      FlushFrame(table[p]);
      assert FrameOk(frames[table[p]], disk, pages, changing);
      CleanNotDirty(frames, table, dirty, p);
      ok := true;
    }

    /** Afterwards no frame is dirty, so the disk has every page nobody is changing. */
    method FlushAllPages()
      requires Valid()
      modifies this`frames, this`dirty, this`disk, this`durable
      ensures Valid() && dirty == map[] && SamePins(old(frames), table, frames, table)
      ensures forall p :: p in pages && p !in changing ==> p in disk && disk[p] == pages[p]
    {
      hide TableOk, DirtyOk, DiskOk, FrameOk, AllFramesOk;
      for f := 0 to |frames|
        invariant Valid() && |frames| == old(|frames|)
        invariant forall g :: 0 <= g < f ==> !(frames[g].valid && frames[g].dirty)
        invariant SamePins(old(frames), table, frames, table)
      {
        FlushFrame(f);
      }
      AllClean(frames, table, dirty, disk, pages, changing, durable);
    }
  }

  function Min(a: nat, b: nat): nat { if a < b then a else b }

  /** ---------- Pins ---------- */

  lemma {:induction false} PinsCounted(frames: Frames, frames': Frames, table: map<PageId, nat>)
    requires |frames'| == |frames| && forall f :: 0 <= f < |frames| ==> SameButUsage(frames[f], frames'[f])
    ensures SamePins(frames, table, frames', table)
  {
    forall f | 0 <= f < |frames| ensures frames'[f].pins == frames[f].pins {
      assert SameButUsage(frames[f], frames'[f]);
      assert frames'[f] == frames[f].(usage := frames'[f].usage);
    }
  }

  lemma PinsThen(a: Frames, ta: map<PageId, nat>, b: Frames, c: Frames, tc: map<PageId, nat>)
    requires SamePins(a, ta, b, ta) && SamePins(b, ta, c, tc)
    ensures SamePins(a, ta, c, tc)
  {
  }

  lemma {:induction false} PinsReset(was: Frames, frames: Frames, table: map<PageId, nat>, f: nat)
    requires SamePins(was, table, frames, table) && f < |frames| && !frames[f].valid && TableOk(frames, table)
    ensures SamePins(was, table, frames[f := EMPTY_FRAME], table)
  {
  }

  /** An unpinned frame is emptied. */
  lemma {:induction false} PinsEvict(frames: Frames, table: map<PageId, nat>, f: nat)
    requires f < |frames| && frames[f].valid && frames[f].pins == 0 && TableOk(frames, table)
    ensures SamePins(frames, table, frames[f := EMPTY_FRAME], table - {frames[f].page})
  {
  }

  lemma {:induction false} PinsSet(frames: Frames, table: map<PageId, nat>, p: PageId, frame: Frame)
    requires TableOk(frames, table) && p in table
    ensures PinsBut(frames, table, frames[table[p] := frame], table, p, frame.pins)
    ensures PinsOf(frames, table, p) == frames[table[p]].pins
  {
  }

  lemma {:induction false} PinsLoad(was: Frames, tableWas: map<PageId, nat>, frames: Frames, table: map<PageId, nat>,
                                    p: PageId, f: nat, frame: Frame)
    requires SamePins(was, tableWas, frames, table) && TableOk(frames, table) && p !in table && p !in tableWas
    requires f < |frames| && frames[f] == EMPTY_FRAME && frame.pins == 1
    ensures PinsBut(was, tableWas, frames[f := frame], table[p := f], p, 1) && PinsOf(was, tableWas, p) == 0
  {
  }

  lemma {:induction false} NotCached(frames: Frames, table: map<PageId, nat>, disk: Disk, pages: Disk,
                                     changing: set<PageId>, p: PageId)
    requires TableOk(frames, table) && AllFramesOk(frames, disk, pages, changing) && p !in disk
    ensures p !in table
  {
    if p in table { CachedPage(frames, table, disk, pages, changing, p); }
  }

  lemma {:induction false} CleanNotDirty(frames: Frames, table: map<PageId, nat>, dirty: map<PageId, Lsn>, p: PageId)
    requires TableOk(frames, table) && DirtyOk(frames, dirty) && p in table && !frames[table[p]].dirty
    ensures p !in dirty
  {
  }

  lemma FellAndGrew(pages: Disk, pages': Disk, disk: Disk, unsaved: set<PageId>, p: PageId)
    requires OnlyUnsavedFell(pages, pages', disk, unsaved)
    ensures OnlyUnsavedFell(pages[p := ZERO_PAGE], pages'[p := ZERO_PAGE], disk, unsaved)
  {
  }

  lemma AccessedFacts(f: Frame)
    ensures Accessed(f).pins == f.pins && Accessed(f).page == f.page && Accessed(f).valid == f.valid
  {
  }

  lemma NothingFell(pages: Disk, disk: Disk, unsaved: set<PageId>)
    ensures OnlyUnsavedFell(pages, pages, disk, unsaved)
  {
  }

  lemma {:induction false} NotDirty(frames: Frames, table: map<PageId, nat>, dirty: map<PageId, Lsn>, p: PageId)
    requires TableOk(frames, table) && DirtyOk(frames, dirty) && p !in table
    ensures p !in dirty
  {
  }

  lemma {:induction false} UnsavedCounted(frames: Frames, frames': Frames, table: map<PageId, nat>,
                                          changing: set<PageId>)
    requires |frames'| == |frames| && forall f :: 0 <= f < |frames| ==> SameButUsage(frames[f], frames'[f])
    ensures forall p :: IsUnsaved(frames', table, changing, p) <==> IsUnsaved(frames, table, changing, p)
  {
    forall f | 0 <= f < |frames| ensures frames'[f].pins == frames[f].pins && frames'[f].dirty == frames[f].dirty {
      assert SameButUsage(frames[f], frames'[f]);
      assert frames'[f] == frames[f].(usage := frames'[f].usage);
    }
  }

  lemma {:induction false} OtherFrame(frames: Frames, table: map<PageId, nat>, f: nat, p: PageId, q: PageId)
    requires TableOk(frames, table) && p in table && table[p] == f && q != p
    ensures q in table ==> table[q] != f
  {
  }

  lemma {:induction false} AllCached(frames: Frames, table: map<PageId, nat>, disk: Disk, pages: Disk,
                                     changing: set<PageId>)
    requires TableOk(frames, table) && AllFramesOk(frames, disk, pages, changing)
    ensures forall p :: p in table ==> p in disk && p in pages
  {
    forall p | p in table ensures p in disk && p in pages { CachedPage(frames, table, disk, pages, changing, p); }
  }

  lemma {:induction false} FramePage(frames: Frames, table: map<PageId, nat>, disk: Disk, pages: Disk,
                                     changing: set<PageId>, f: nat)
    requires TableOk(frames, table) && AllFramesOk(frames, disk, pages, changing) && f < |frames| && frames[f].valid
    ensures frames[f].page in table && table[frames[f].page] == f && frames[f].page in disk && frames[f].page in pages
    ensures frames[f].data == pages[frames[f].page]
  {
    assert FrameOk(frames[f], disk, pages, changing);
  }

  lemma {:induction false} UsageBounded(frames: Frames, disk: Disk, pages: Disk, changing: set<PageId>)
    requires AllFramesOk(frames, disk, pages, changing)
    ensures forall f :: 0 <= f < |frames| ==> frames[f].usage <= MAX_USAGE
  {
  }

  /** One frame rewritten with the same page, validity and dirty flag. */
  lemma {:induction false} DirtySame(frames: Frames, frames': Frames, dirty: map<PageId, Lsn>)
    requires DirtyOk(frames, dirty) && |frames'| == |frames|
    requires forall f :: 0 <= f < |frames| ==>
        frames'[f].valid == frames[f].valid && frames'[f].page == frames[f].page && frames'[f].dirty == frames[f].dirty
    ensures DirtyOk(frames', dirty)
  {
  }

  lemma {:induction false} CountedOk(frames: Frames, frames': Frames, table: map<PageId, nat>, dirty: map<PageId, Lsn>,
                                     disk: Disk, pages: Disk, changing: set<PageId>)
    requires TableOk(frames, table) && DirtyOk(frames, dirty) && AllFramesOk(frames, disk, pages, changing)
    requires |frames'| == |frames| && forall f :: 0 <= f < |frames| ==>
               SameButUsage(frames[f], frames'[f]) && frames'[f].usage <= frames[f].usage
    ensures TableOk(frames', table) && DirtyOk(frames', dirty) && AllFramesOk(frames', disk, pages, changing)
    ensures forall f :: 0 <= f < |frames| ==> (Busy(frames'[f]) <==> Busy(frames[f]))
  {
    forall f | 0 <= f < |frames|
      ensures frames'[f].valid == frames[f].valid && frames'[f].page == frames[f].page
      ensures frames'[f].dirty == frames[f].dirty
      ensures FrameOk(frames'[f], disk, pages, changing)
    {
      assert SameButUsage(frames[f], frames'[f]);
      assert FrameOk(frames[f], disk, pages, changing);
      assert frames'[f] == frames[f].(usage := frames'[f].usage);
    }
    hide FrameOk;
    TableSame(frames, frames', table);
    DirtySame(frames, frames', dirty);
  }

  /** A clean frame without pins can go: the disk has its page, or the page falls back to
      what the disk has. */
  lemma {:induction false} EvictOk(frames: Frames, table: map<PageId, nat>, dirty: map<PageId, Lsn>, disk: Disk,
                                   pages: Disk, changing: set<PageId>, durable: Lsn, f: nat)
    requires f < |frames| && frames[f].valid && !frames[f].dirty && frames[f].pins == 0
    requires TableOk(frames, table) && DirtyOk(frames, dirty) && DiskOk(table, disk, pages, durable)
    requires AllFramesOk(frames, disk, pages, changing)
    ensures var page := frames[f].page;
            var frames', table', changing' := frames[f := EMPTY_FRAME], table - {page}, changing - {page};
            && page in disk && page in pages && (page !in changing ==> disk[page] == pages[page])
            && var pages' := pages[page := disk[page]];
            && TableOk(frames', table') && DirtyOk(frames', dirty) && DiskOk(table', disk, pages', durable)
            && AllFramesOk(frames', disk, pages', changing')
  {
    hide DirtyOk, TableOk;
    FramePage(frames, table, disk, pages, changing, f);
    assert FrameOk(frames[f], disk, pages, changing);
    EvictFrames(frames, table, disk, pages, changing, f);
    hide FrameOk, AllFramesOk;
    EvictTables(frames, table, dirty, f);
  }

  lemma {:induction false} EvictFrames(frames: Frames, table: map<PageId, nat>, disk: Disk, pages: Disk,
                                       changing: set<PageId>, f: nat)
    requires f < |frames| && frames[f].valid && TableOk(frames, table) && AllFramesOk(frames, disk, pages, changing)
    requires frames[f].page in disk
    ensures var page := frames[f].page;
            AllFramesOk(frames[f := EMPTY_FRAME], disk, pages[page := disk[page]], changing - {page})
  {
    var page, frames' := frames[f].page, frames[f := EMPTY_FRAME];
    forall g | 0 <= g < |frames'| ensures FrameOk(frames'[g], disk, pages[page := disk[page]], changing - {page}) {
      assert FrameOk(frames[g], disk, pages, changing);
      assert g != f && frames[g].valid ==> frames[g].page != page;
    }
  }

  lemma {:induction false} EvictTables(frames: Frames, table: map<PageId, nat>, dirty: map<PageId, Lsn>, f: nat)
    requires f < |frames| && frames[f].valid && !frames[f].dirty && TableOk(frames, table) && DirtyOk(frames, dirty)
    ensures TableOk(frames[f := EMPTY_FRAME], table - {frames[f].page}) && DirtyOk(frames[f := EMPTY_FRAME], dirty)
  {
    var frames', table' := frames[f := EMPTY_FRAME], table - {frames[f].page};
    assert TableOk(frames', table') by {
      forall g | 0 <= g < |frames'| && frames'[g].valid
        ensures frames'[g].page in table' && table'[frames'[g].page] == g
      {
        assert table[frames[g].page] == g && table[frames[f].page] == f;
      }
    }
    hide TableOk;
    forall p | p in dirty ensures exists g :: 0 <= g < |frames'| && DirtyFrame(frames'[g], p) {
      var g :| 0 <= g < |frames| && DirtyFrame(frames[g], p);
      assert DirtyFrame(frames'[g], p);
    }
  }

  function Max(a: nat, b: nat): nat { if a < b then b else a }

  /** Only usage counts, pins or dirty flags changed: the page table still fits. */
  lemma {:induction false} TableSame(frames: Frames, frames': Frames, table: map<PageId, nat>)
    requires TableOk(frames, table) && |frames'| == |frames|
    requires forall f :: 0 <= f < |frames| ==> frames'[f].valid == frames[f].valid && frames'[f].page == frames[f].page
    ensures TableOk(frames', table)
  {
  }

  ghost predicate AllFramesOk(frames: Frames, disk: Disk, pages: Disk, changing: set<PageId>) {
    forall f :: 0 <= f < |frames| ==> FrameOk(frames[f], disk, pages, changing)
  }

  lemma {:induction false} WriteBackOk(frames: Frames, table: map<PageId, nat>, dirty: map<PageId, Lsn>, disk: Disk,
                                       pages: Disk, changing: set<PageId>, durable: Lsn, f: nat)
    requires f < |frames| && frames[f].valid && frames[f].dirty
    requires TableOk(frames, table) && DirtyOk(frames, dirty) && DiskOk(table, disk, pages, durable)
    requires AllFramesOk(frames, disk, pages, changing)
    ensures frames[f].page in disk
    ensures var frame := frames[f];
            var frames', disk' := frames[f := frame.(dirty := false)], disk[frame.page := frame.data];
            && TableOk(frames', table) && DirtyOk(frames', dirty - {frame.page})
            && DiskOk(table, disk', pages, Max(durable, frame.data.lsn)) && AllFramesOk(frames', disk', pages, changing)
  {
    var frame := frames[f];
    var frames', disk' := frames[f := frame.(dirty := false)], disk[frame.page := frame.data];
    TableSame(frames, frames', table);
    CleanOk(frames, table, dirty, f);
    hide DirtyOk;
    assert FrameOk(frame, disk, pages, changing);
    forall g | 0 <= g < |frames'| ensures FrameOk(frames'[g], disk', pages, changing) {
      assert FrameOk(frames[g], disk, pages, changing);
      assert g != f && frames[g].valid ==> frames[g].page != frame.page;
    }
    hide FrameOk, TableOk;
    assert frame.page in table;
  }

  lemma {:induction false} CleanOk(frames: Frames, table: map<PageId, nat>, dirty: map<PageId, Lsn>, f: nat)
    requires f < |frames| && frames[f].valid && frames[f].dirty && TableOk(frames, table) && DirtyOk(frames, dirty)
    ensures DirtyOk(frames[f := frames[f].(dirty := false)], dirty - {frames[f].page})
  {
    var page := frames[f].page;
    var frames' := frames[f := frames[f].(dirty := false)];
    forall p | p in dirty - {page} ensures exists g :: 0 <= g < |frames'| && DirtyFrame(frames'[g], p) {
      var g :| 0 <= g < |frames| && DirtyFrame(frames[g], p);
      assert DirtyFrame(frames'[g], p);
    }
    forall g | 0 <= g < |frames'| && frames'[g].valid && frames'[g].dirty ensures frames'[g].page in dirty - {page} {
      assert table[frames[g].page] == g && table[page] == f;
    }
  }

  /** A frame replaced by one for the same page. */
  lemma {:induction false} SetFrame(frames: Frames, f: nat, frame: Frame, table: map<PageId, nat>, disk: Disk,
                                    pages: Disk, changing: set<PageId>)
    requires f < |frames| && TableOk(frames, table) && AllFramesOk(frames, disk, pages, changing)
    requires frame.valid == frames[f].valid && frame.page == frames[f].page && FrameOk(frame, disk, pages, changing)
    ensures TableOk(frames[f := frame], table) && AllFramesOk(frames[f := frame], disk, pages, changing)
  {
  }

  lemma {:induction false} ResetOk(frames: Frames, table: map<PageId, nat>, dirty: map<PageId, Lsn>, disk: Disk,
                                   pages: Disk, changing: set<PageId>, f: nat)
    requires f < |frames| && !frames[f].valid && TableOk(frames, table) && DirtyOk(frames, dirty)
    requires AllFramesOk(frames, disk, pages, changing)
    ensures TableOk(frames[f := EMPTY_FRAME], table) && DirtyOk(frames[f := EMPTY_FRAME], dirty)
    ensures AllFramesOk(frames[f := EMPTY_FRAME], disk, pages, changing)
  {
    assert FrameOk(frames[f], disk, pages, changing);
    SetFrame(frames, f, EMPTY_FRAME, table, disk, pages, changing);
    DirtySame(frames, frames[f := EMPTY_FRAME], dirty);
  }

  lemma {:induction false} CachedPage(frames: Frames, table: map<PageId, nat>, disk: Disk, pages: Disk,
                                      changing: set<PageId>, p: PageId)
    requires TableOk(frames, table) && AllFramesOk(frames, disk, pages, changing) && p in table
    ensures table[p] < |frames| && p in pages && p in disk
    ensures var frame := frames[table[p]]; frame.valid && frame.page == p && frame.data == pages[p]
  {
  }

  lemma {:induction false} PagesOnDisk(table: map<PageId, nat>, disk: Disk, pages: Disk, durable: Lsn, p: PageId)
    requires DiskOk(table, disk, pages, durable)
    ensures p in disk <==> p in pages
    ensures p in disk && p !in table ==> disk[p] == pages[p]
  {
  }

  lemma {:induction false} PinOk(frames: Frames, table: map<PageId, nat>, dirty: map<PageId, Lsn>, disk: Disk,
                                 pages: Disk, changing: set<PageId>, p: PageId)
    requires TableOk(frames, table) && DirtyOk(frames, dirty) && AllFramesOk(frames, disk, pages, changing)
    requires p in table
    ensures table[p] < |frames| && p in pages
    ensures var f := table[p]; var frame := Accessed(frames[f].(pins := frames[f].pins + 1));
            && TableOk(frames[f := frame], table) && DirtyOk(frames[f := frame], dirty)
            && AllFramesOk(frames[f := frame], disk, pages, changing)
            && frame.pins > 0
  {
    CachedPage(frames, table, disk, pages, changing, p);
    var f := table[p];
    var frame := Accessed(frames[f].(pins := frames[f].pins + 1));
    assert FrameOk(frames[f], disk, pages, changing);
    SetFrame(frames, f, frame, table, disk, pages, changing);
    DirtySame(frames, frames[f := frame], dirty);
  }

  /** A page read from disk into an empty frame. */
  lemma {:induction false} LoadOk(frames: Frames, table: map<PageId, nat>, dirty: map<PageId, Lsn>, disk: Disk,
                                  pages: Disk, changing: set<PageId>, durable: Lsn, f: nat, p: PageId)
    requires f < |frames| && frames[f] == EMPTY_FRAME && p in disk && p !in table
    requires TableOk(frames, table) && DirtyOk(frames, dirty) && DiskOk(table, disk, pages, durable)
    requires AllFramesOk(frames, disk, pages, changing)
    requires forall q :: q in changing ==> q in table
    ensures var frames', table' := frames[f := Accessed(Frame(p, true, false, 1, 0, disk[p]))], table[p := f];
            && TableOk(frames', table') && DirtyOk(frames', dirty) && DiskOk(table', disk, pages, durable)
            && AllFramesOk(frames', disk, pages, changing)
  {
    var frame := Accessed(Frame(p, true, false, 1, 0, disk[p]));
    var frames', table' := frames[f := frame], table[p := f];
    assert disk[p] == pages[p];
    assert FrameOk(frame, disk, pages, changing);
    assert DirtyOk(frames', dirty) by {
      forall q | q in dirty ensures exists g :: 0 <= g < |frames'| && DirtyFrame(frames'[g], q) {
        var g :| 0 <= g < |frames| && DirtyFrame(frames[g], q);
        assert DirtyFrame(frames'[g], q);
      }
    }
    hide DirtyOk, FrameOk;
    assert AllFramesOk(frames', disk, pages, changing);
    assert TableOk(frames', table');
  }

  lemma {:induction false} AllocateOk(frames: Frames, table: map<PageId, nat>, dirty: map<PageId, Lsn>, disk: Disk,
                                      pages: Disk, changing: set<PageId>, durable: Lsn, p: PageId)
    requires p !in disk && TableOk(frames, table) && DiskOk(table, disk, pages, durable)
    requires AllFramesOk(frames, disk, pages, changing)
    ensures p !in table
    ensures var disk', pages' := disk[p := ZERO_PAGE], pages[p := ZERO_PAGE];
            DiskOk(table, disk', pages', durable) && AllFramesOk(frames, disk', pages', changing)
  {
  }

  lemma {:induction false} ModifyOk(frames: Frames, table: map<PageId, nat>, dirty: map<PageId, Lsn>, disk: Disk,
                                    pages: Disk, changing: set<PageId>, durable: Lsn, f: nat, data: Page)
    requires f < |frames| && frames[f].valid && frames[f].pins > 0
    requires TableOk(frames, table) && DirtyOk(frames, dirty) && DiskOk(table, disk, pages, durable)
    requires AllFramesOk(frames, disk, pages, changing)
    ensures frames[f].page in table
    ensures var page := frames[f].page;
            var frames', pages', changing' := frames[f := frames[f].(data := data)], pages[page := data],
                changing + {page};
            && TableOk(frames', table) && DirtyOk(frames', dirty) && DiskOk(table, disk, pages', durable)
            && AllFramesOk(frames', disk, pages', changing')
  {
    var page := frames[f].page;
    var frames', pages', changing' := frames[f := frames[f].(data := data)], pages[page := data], changing + {page};
    TableSame(frames, frames', table);
    DirtySame(frames, frames', dirty);
    hide DirtyOk;
    assert FrameOk(frames[f], disk, pages, changing);
    forall g | 0 <= g < |frames'| ensures FrameOk(frames'[g], disk, pages', changing') {
      assert FrameOk(frames[g], disk, pages, changing);
      assert g != f && frames[g].valid ==> frames[g].page != page;
    }
  }

  lemma {:induction false} UnpinOk(frames: Frames, table: map<PageId, nat>, dirty: map<PageId, Lsn>, disk: Disk,
                                   pages: Disk, changing: set<PageId>, p: PageId, isDirty: bool)
    requires TableOk(frames, table) && DirtyOk(frames, dirty) && AllFramesOk(frames, disk, pages, changing)
    requires p in table
    requires table[p] < |frames| && frames[table[p]].pins > 0
    ensures var f := table[p];
            var frame := frames[f].(pins := frames[f].pins - 1, dirty := frames[f].dirty || isDirty);
            var dirty' := if isDirty then dirty[p := if p in dirty then Min(dirty[p], frames[f].data.lsn)
                else frames[f].data.lsn] else dirty;
            var changing' := if isDirty then changing - {p} else changing;
            && TableOk(frames[f := frame], table) && DirtyOk(frames[f := frame], dirty')
            && AllFramesOk(frames[f := frame], disk, pages, changing')
  {
    var f := table[p];
    var frame := frames[f].(pins := frames[f].pins - 1, dirty := frames[f].dirty || isDirty);
    var frames' := frames[f := frame];
    var dirty' := if isDirty then dirty[p := if p in dirty then Min(dirty[p], frames[f].data.lsn)
        else frames[f].data.lsn] else dirty;
    var changing' := if isDirty then changing - {p} else changing;
    TableSame(frames, frames', table);
    forall g | 0 <= g < |frames'| ensures FrameOk(frames'[g], disk, pages, changing') {
      assert FrameOk(frames[g], disk, pages, changing);
      assert g != f && frames[g].valid ==> frames[g].page != p;
    }
    hide FrameOk;
    if isDirty { MarkOk(frames, table, dirty, p, frame, dirty'[p]); } else { DirtySame(frames, frames', dirty); }
  }

  lemma {:induction false} MarkOk(frames: Frames, table: map<PageId, nat>, dirty: map<PageId, Lsn>, p: PageId,
                                  frame: Frame, rec: Lsn)
    requires TableOk(frames, table) && DirtyOk(frames, dirty) && p in table && frame.valid && frame.dirty
    requires frame.page == p
    ensures DirtyOk(frames[table[p] := frame], dirty[p := rec])
  {
    var frames', dirty' := frames[table[p] := frame], dirty[p := rec];
    forall q | q in dirty' ensures exists g :: 0 <= g < |frames'| && DirtyFrame(frames'[g], q) {
      if q == p {
        assert DirtyFrame(frames'[table[p]], p);
      } else {
        var g :| 0 <= g < |frames| && DirtyFrame(frames[g], q);
        assert DirtyFrame(frames'[g], q);
      }
    }
  }

  lemma {:induction false} AllClean(frames: Frames, table: map<PageId, nat>, dirty: map<PageId, Lsn>, disk: Disk,
                                    pages: Disk, changing: set<PageId>, durable: Lsn)
    requires TableOk(frames, table) && DirtyOk(frames, dirty) && DiskOk(table, disk, pages, durable)
    requires AllFramesOk(frames, disk, pages, changing)
    requires forall g :: 0 <= g < |frames| ==> !(frames[g].valid && frames[g].dirty)
    ensures dirty == map[]
    ensures forall p :: p in pages && p !in changing ==> p in disk && disk[p] == pages[p]
  {
  }

  /** The frame of an unpinned page is emptied and the page disappears. */
  lemma {:induction false} DropOk(frames: Frames, table: map<PageId, nat>, dirty: map<PageId, Lsn>, disk: Disk,
                                  pages: Disk, changing: set<PageId>, durable: Lsn, p: PageId)
    requires TableOk(frames, table) && DirtyOk(frames, dirty) && DiskOk(table, disk, pages, durable)
    requires AllFramesOk(frames, disk, pages, changing)
    requires p in table && table[p] < |frames| && frames[table[p]].pins == 0
    ensures var frames', table', dirty' := frames[table[p] := EMPTY_FRAME], table - {p}, dirty - {p};
            && TableOk(frames', table') && DirtyOk(frames', dirty')
            && DiskOk(table', disk - {p}, pages - {p}, durable)
            && AllFramesOk(frames', disk - {p}, pages - {p}, changing - {p})
  {
    var f := table[p];
    var frames', table', dirty' := frames[f := EMPTY_FRAME], table - {p}, dirty - {p};
    assert FrameOk(frames[f], disk, pages, changing);
    assert forall g :: 0 <= g < |frames| && g != f && frames[g].valid ==> frames[g].page != p;
    assert DirtyOk(frames', dirty') by {
      forall q | q in dirty' ensures exists g :: 0 <= g < |frames'| && DirtyFrame(frames'[g], q) {
        var g :| 0 <= g < |frames| && DirtyFrame(frames[g], q);
        assert DirtyFrame(frames'[g], q);
      }
    }
    hide DirtyOk;
    forall g | 0 <= g < |frames'| ensures FrameOk(frames'[g], disk - {p}, pages - {p}, changing - {p}) {
      assert FrameOk(frames[g], disk, pages, changing);
    }
    hide FrameOk;
    assert TableOk(frames', table');
  }

  lemma {:induction false} GoneOk(frames: Frames, table: map<PageId, nat>, disk: Disk, pages: Disk,
                                  changing: set<PageId>, durable: Lsn, p: PageId)
    requires TableOk(frames, table) && DiskOk(table, disk, pages, durable) && AllFramesOk(frames, disk, pages, changing)
    requires p !in table
    ensures DiskOk(table, disk - {p}, pages - {p}, durable) && AllFramesOk(frames, disk - {p}, pages - {p}, changing)
  {
  }
}
