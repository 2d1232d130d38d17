/**
 The boot sequence in the kernel's order: declare and reserve memory, build the page table,
 allocate the page map, drop the identity mappings, hand the rest to the buddy allocator.
 */
module Boot {
  import opened Bits
  import opened Blocks
  import opened Regions
  import opened Sv39
  import opened PageTables
  import opened Segments
  import opened SegmentCalls
  import opened Handoff
  import M = Memblock
  import B = Buddy
  import S = BuddySpec

  const RX: nat := 10
  const RO: nat := 2
  const RW: nat := 6

  /**
   What the linker and the device tree say: RAM, the kernel image and its parts, reserved
   ranges, the device tree itself, the address ranges of the other nodes, and the size of
   an entry of the page map.
   */
  datatype Layout = Layout(ram: MemRegion, kernel: MemRegion, reservations: seq<MemRegion>, dtb: MemRegion,
                           nodes: seq<MemRegion>, text: MemRegion, rodata: MemRegion, data: MemRegion, bss: MemRegion,
                           pageBytes: nat)

  predicate InRam(l: Layout, r: MemRegion) { l.ram.base <= r.base && r.End() <= l.ram.End() }

  function SegmentOf(r: MemRegion, kind: BootMapType, flags: nat): Segment
  {
    Segment(r.base, r.End(), kind, flags)
  }

  /** The device ranges among the first `n` nodes. */
  function Devices(l: Layout, n: nat): seq<Segment>
    requires n <= |l.nodes|
  {
    if n == 0 then []
    else
      var r := l.nodes[n - 1];
      Devices(l, n - 1) + if r.size > 0 && !InRam(l, r) then [SegmentOf(r, Linear, RW)] else []
  }

  function KernelMaps(l: Layout): seq<Segment>
  {
    [SegmentOf(l.text, Linear, RX), SegmentOf(l.text, Identical, RX),
     SegmentOf(l.rodata, Linear, RO), SegmentOf(l.rodata, Identical, RO),
     SegmentOf(l.data, Linear, RW), SegmentOf(l.data, Identical, RW),
     SegmentOf(l.bss, Linear, RW), SegmentOf(l.bss, Identical, RW),
     Segment(AlignUp(l.kernel.End(), 4096), l.ram.End(), Linear, RW),
     Segment(l.ram.base, l.kernel.base, Linear, RW)]
  }

  function AllMaps(l: Layout): seq<Segment> { Devices(l, |l.nodes|) + KernelMaps(l) }

  /** The identity mappings that are dropped again. */
  function Temporary(l: Layout): seq<Segment>
  {
    [SegmentOf(l.text, Identical, RX), SegmentOf(l.rodata, Identical, RO),
     SegmentOf(l.data, Identical, RW), SegmentOf(l.bss, Identical, RW)]
  }

  ghost function Ram(l: Layout): set<nat> { Range(l.ram.base, l.ram.size) }

  /** RAM lies below 4 GB and not in page 0, and no two ranges to be mapped share a page. */
  ghost predicate LayoutOk(l: Layout)
  {
    && 4096 <= l.ram.base && l.ram.End() <= PHYS_LIMIT && l.kernel.End() <= PHYS_LIMIT && l.pageBytes > 0
    && (forall s :: s in AllMaps(l) ==> Fine(s))
    && PairwiseApart(AllMaps(l))
  }

  // ------------------------------------------------------------- the history

  function ReserveOf(r: MemRegion): M.BootCall { M.Reserve(r.base, r.size) }

  /** The history starts with all of RAM, as one region. */
  ghost predicate Began(l: Layout, log: M.BootLog)
  {
    |log.states| > 0 && log.states[0] == M.MemblockState(Ram(l), {}, {}) && log.slots == 1
  }

  /** And the kernel image is reserved first. */
  ghost predicate Starts(l: Layout, log: M.BootLog)
  {
    Began(l, log) && |log.calls| > 0 && log.calls[0] == ReserveOf(l.kernel)
  }

  /** Every range up to the `n`th node that the kernel must not use was reserved. */
  ghost predicate Kept(l: Layout, log: M.BootLog, n: nat)
  {
    && (forall r :: r in l.reservations ==> ReserveOf(r) in log.calls)
    && ReserveOf(l.dtb) in log.calls
    && (forall i :: 0 <= i < n <= |l.nodes| && l.nodes[i].size > 0 && InRam(l, l.nodes[i]) ==>
          ReserveOf(l.nodes[i]) in log.calls)
  }

  lemma StartsStay(l: Layout, a: M.BootLog, b: M.BootLog, n: nat)
    requires a.states <= b.states && a.calls <= b.calls && a.slots == b.slots
    ensures Starts(l, a) ==> Starts(l, b)
    ensures Kept(l, a, n) ==> Kept(l, b, n)
  {
    assert forall c :: c in a.calls ==> c in b.calls;
  }

  /** What the history says about the present. */
  lemma HistoryInv(l: Layout, log: M.BootLog, s: M.MemblockState)
    requires M.LogOk(log, s) && Starts(l, log)
    ensures M.Inv(Ram(l), s) && s.available <= Ram(l)
  {
    hide Range, M.Step;
    M.RunKeeps(Ram(l), log.states, log.calls, |log.calls|, |log.calls|);
  }

  // ----------------------------------------------------------------- the cost

  function RangesSpoil(ranges: seq<MemRegion>): nat
  {
    if ranges == [] then 0
    else RangesSpoil(ranges[..|ranges| - 1]) + M.Spoils(ReserveOf(ranges[|ranges| - 1]))
  }

  function NodeCalls(l: Layout, r: MemRegion): nat
  {
    if r.size == 0 then 0 else if InRam(l, r) then 1 else Need(MapCall(SegmentOf(r, Linear, RW)))
  }

  function NodeSpoils(l: Layout, r: MemRegion): nat
  {
    if r.size == 0 then 0 else if InRam(l, r) then M.Spoils(ReserveOf(r)) else Need(MapCall(SegmentOf(r, Linear, RW)))
  }

  function NodesCalls(l: Layout, n: nat): nat
    requires n <= |l.nodes|
  {
    if n == 0 then 0 else NodesCalls(l, n - 1) + NodeCalls(l, l.nodes[n - 1])
  }

  function NodesSpoil(l: Layout, n: nat): nat
    requires n <= |l.nodes|
  {
    if n == 0 then 0 else NodesSpoil(l, n - 1) + NodeSpoils(l, l.nodes[n - 1])
  }

  /** The most calls to Memblock that boot makes. */
  function BootCalls(l: Layout): nat
  {
    |l.reservations| + 2 + 1 + NodesCalls(l, |l.nodes|) + MapsNeed(KernelMaps(l)) + 1
  }

  /** The most pages that these calls take or spoil until the page map is allocated. */
  function BootSpoils(l: Layout): nat
  {
    M.Spoils(ReserveOf(l.kernel)) + RangesSpoil(l.reservations + [l.dtb]) + 1 +
    NodesSpoil(l, |l.nodes|) + MapsNeed(KernelMaps(l)) + 1
  }

  /**
   RAM has enough pages, and the region arrays enough slots, for all of boot. Since the page
   map needs its pages in a row, there must be so many that some region still has them.
   */
  ghost predicate RoomToBoot(l: Layout)
  {
    && 1 + BootCalls(l) < M.MAX_REGIONS
    && BootSpoils(l) + (1 + BootCalls(l)) * (PageMapSize(l) / 4096) < |M.PagesLeft(Ram(l))|
  }

  /** At most `calls` calls were made, and `pages` pages spoiled. */
  ghost predicate Spent(log: M.BootLog, calls: nat, pages: nat)
  {
    |log.calls| <= calls && M.SpoilsAll(log.calls) <= pages
  }

  lemma SpentMore(a: M.BootLog, b: M.BootLog, calls: nat, pages: nat, calls': nat, pages': nat)
    requires Spent(a, calls, pages) && M.Grew(a, b, calls', pages')
    ensures Spent(b, calls + calls', pages + pages')
  {
  }

  /** With room to boot there is no reason to stop before everything is spent. */
  lemma RoomSuffices(l: Layout, mb: M.MemblockAllocator, r: Outcome, calls: nat, pages: nat)
    requires Why(l, mb, r) && Spent(mb.log, calls, pages) && calls <= BootCalls(l) && pages <= BootSpoils(l)
    requires l.pageBytes > 0
    ensures RoomToBoot(l) ==> !OutOfMemory(r)
  {
    hide BootCalls, BootSpoils, PageMapSize, M.SpoilsAll, M.NoPageLeft, NoRoom, M.LogOk;
    if RoomToBoot(l) && (r == OutOfPages || r == Overflow) {
      PagesRemain(l, mb);
    }
  }

  lemma PageMapSizePositive(l: Layout)
    requires l.ram.base / 4096 < l.ram.End() / 4096 && l.pageBytes > 0
    ensures PageMapSize(l) > 0
  {
    var pages: nat := l.ram.End() / 4096 - l.ram.base / 4096;
    MulLess(0, pages, l.pageBytes);
    assert pages * l.pageBytes >= 1;
  }

  lemma RoomForPageMap(l: Layout)
    requires RoomToBoot(l) && l.pageBytes > 0
    ensures PageMapSize(l) > 0
  {
    hide BootCalls, BootSpoils;
    var pages := M.PagesLeft(Ram(l));
    assert |pages| > 0;
    var a :| a in pages;
    assert a in Range(a, 4096) && a + 4095 in Range(a, 4096);
    assert a in Ram(l) && a + 4095 in Ram(l);
    PageMapSizePositive(l);
  }

  lemma PagesRemain(l: Layout, mb: M.MemblockAllocator)
    requires RoomToBoot(l) && mb.Valid() && Began(l, mb.log) && l.pageBytes > 0
    requires Spent(mb.log, BootCalls(l), BootSpoils(l))
    ensures !M.NoPageLeft(mb.State()) && !NoRoom(mb.State(), PageMapSize(l))
  {
    hide BootCalls, BootSpoils, PageMapSize, M.SpoilsAll, M.PagesLeft, M.NoPageLeft, NoRoom, Bytes, Separated, M.LogOk;
    var m := PageMapPages(l);
    M.HistorySpoils(mb.log, mb.State());
    RegionsHold(mb.available.View(), mb.State(), m, 1 + BootCalls(l));
  }

  /** The page map in pages. */
  lemma PageMapPages(l: Layout) returns (m: nat)
    requires RoomToBoot(l) && l.pageBytes > 0
    ensures m > 0 && m == PageMapSize(l) / 4096 && PageMapSize(l) == m * 4096
  {
    hide RoomToBoot;
    RoomForPageMap(l);
    m := PageMapSize(l) / 4096;
  }

  /** So many pages in so few regions: one region has `m` of them in a row. */
  lemma RegionsHold(v: seq<MemRegion>, s: M.MemblockState, m: nat, regions: nat)
    requires Separated(v) && s.available == Bytes(v) && |v| <= regions && m > 0
    requires |M.PagesLeft(s.available)| > regions * m
    ensures !M.NoPageLeft(s) && !NoRoom(s, m * 4096)
  {
    hide M.PagesLeft, M.NoPageLeft, Bytes, Separated;
    MulMonotone(|v|, regions, m - 1, m);
    NoneLeft(s);
    if NoRoom(s, m * 4096) {
      M.NoRoomBound(v, m);
    }
  }

  lemma NoneLeft(s: M.MemblockState)
    ensures M.NoPageLeft(s) ==> |M.PagesLeft(s.available)| == 0
  {
    assert M.NoPageLeft(s) ==> M.PagesLeft(s.available) == {};
  }

  lemma MulMonotone(a: nat, b: nat, c: nat, d: nat)
    requires a <= b && c <= d
    ensures a * c <= b * d
  {
    MulLess(a, b, c);
    MulLess(c, d, b);
    assert a * c <= b * c;
    assert b * c == c * b && b * d == d * b;
  }

  /** However memory is laid out, boot does not make many more calls than there are reservations and devices. */
  lemma BootBound(l: Layout)
    requires LayoutOk(l)
    ensures BootCalls(l) <= |l.reservations| + 8 * |l.nodes| + 84
    ensures BootSpoils(l) <= M.Spoils(ReserveOf(l.kernel)) + RangesSpoil(l.reservations + [l.dtb]) +
                             NodesSpoil(l, |l.nodes|) + 82
  {
    hide PairwiseApart, Devices, MapsNeed, RangesSpoil, NodesSpoil, NodesCalls;
    KernelMapsFine(l);
    MapsNeedBound(KernelMaps(l));
    NodesBound(l, |l.nodes|);
  }

  lemma {:induction false} NodesBound(l: Layout, n: nat)
    requires LayoutOk(l) && n <= |l.nodes|
    ensures NodesCalls(l, n) <= 8 * n
  {
    hide LayoutOk, Need, Devices;
    if n > 0 {
      NodesBound(l, n - 1);
      DevicesNext(l, n - 1);
      var r := l.nodes[n - 1];
      if r.size > 0 && !InRam(l, r) {
        NeedBound(SegmentOf(r, Linear, RW));
      }
    }
  }

  // --------------------------------------------------------------- the steps

  /** Reserves a list of ranges. */
  method ReserveAll(l: Layout, mb: M.MemblockAllocator, ranges: seq<MemRegion>) returns (ok: bool)
    requires mb.Valid() && Starts(l, mb.log)
    modifies mb`log, mb.available, mb.available.regions, mb.reserved, mb.reserved.regions
    ensures ok ==> mb.Valid() && Starts(l, mb.log) && old(mb.log.calls) <= mb.log.calls
    ensures ok ==> forall r :: r in ranges ==> ReserveOf(r) in mb.log.calls
    ensures ok ==> mb.State().allotted == old(mb.State().allotted)
    ensures !ok ==> mb.CrowdedForReserve() && mb.log.Regions() >= M.MAX_REGIONS && Began(l, mb.log)
    ensures M.Grew(old(mb.log), mb.log, |ranges|, RangesSpoil(ranges))
  {
    hide Starts, Began, M.Grew, M.Spoils, RangesSpoil, M.LogOk, Separated, Bytes, Range, Total, M.Touches, Punches;
    RangesSoFar(ranges, 0);
    M.GrewNot(mb.log);
    var i := 0;
    while i < |ranges|
      invariant 0 <= i <= |ranges| && mb.Valid() && Starts(l, mb.log) && old(mb.log.calls) <= mb.log.calls
      invariant M.Grew(old(mb.log), mb.log, i, RangesSpoil(ranges[..i]))
      invariant forall j :: 0 <= j < i ==> ReserveOf(ranges[j]) in mb.log.calls
      invariant mb.State().allotted == old(mb.State().allotted)
    {
      ghost var log := mb.log;
      RangesSoFar(ranges, i);
      StartsBegan(l, log);
      ok := mb.ReserveMemory(ranges[i].base, ranges[i].size);
      if !ok {
        GrewWider(old(mb.log), log, i, RangesSpoil(ranges[..i]), |ranges|, RangesSpoil(ranges));
        return;
      }
      M.GrewByCall(log, ReserveOf(ranges[i]), mb.State());
      M.GrewBoth(old(mb.log), log, mb.log, i, RangesSpoil(ranges[..i]), 1, M.Spoils(ReserveOf(ranges[i])));
      StartsStay(l, log, mb.log, 0);
      assert mb.log.calls[|log.calls|] == ReserveOf(ranges[i]);
      i := i + 1;
    }
    assert ranges[..i] == ranges;
    ok := true;
  }

  lemma StartsBegan(l: Layout, log: M.BootLog)
    requires Starts(l, log)
    ensures Began(l, log)
  {
  }

  lemma GrewWider(a: M.BootLog, b: M.BootLog, calls: nat, pages: nat, calls': nat, pages': nat)
    requires M.Grew(a, b, calls, pages) && calls <= calls' && pages <= pages'
    ensures M.Grew(a, b, calls', pages')
  {
  }

  lemma {:induction false} RangesSoFar(ranges: seq<MemRegion>, k: nat)
    requires k <= |ranges|
    ensures RangesSpoil(ranges[..k]) <= RangesSpoil(ranges)
    ensures k == 0 ==> RangesSpoil(ranges[..k]) == 0
    ensures k < |ranges| ==> RangesSpoil(ranges[..k + 1]) == RangesSpoil(ranges[..k]) + M.Spoils(ReserveOf(ranges[k]))
    decreases |ranges| - k
  {
    hide M.Spoils;
    if k < |ranges| {
      RangesSoFar(ranges, k + 1);
      assert ranges[..k + 1][..k] == ranges[..k];
    } else {
      assert ranges[..k] == ranges;
    }
  }

  lemma FirstCall(l: Layout, log: M.BootLog, t: M.MemblockState)
    requires Began(l, log) && log.calls == []
    ensures var log' := M.Logged(log, ReserveOf(l.kernel), t);
      Starts(l, log') && |log'.calls| == 1 && M.SpoilsAll(log'.calls) == M.Spoils(ReserveOf(l.kernel))
  {
    var calls := M.Logged(log, ReserveOf(l.kernel), t).calls;
    assert calls == [ReserveOf(l.kernel)] && calls[..0] == [];
  }

  lemma GrewCounts(a: M.BootLog, b: M.BootLog, calls: nat, pages: nat)
    requires M.Grew(a, b, calls, pages)
    ensures |b.calls| <= |a.calls| + calls && M.SpoilsAll(b.calls) <= M.SpoilsAll(a.calls) + pages
  {
  }

  /** Declares RAM, and reserves the kernel, the reserved ranges and the device tree. */
  method DeclareMemory(l: Layout) returns (ok: bool, mb: M.MemblockAllocator)
    requires LayoutOk(l)
    ensures fresh(mb) && fresh(mb.Repr())
    ensures ok ==> mb.Valid() && Starts(l, mb.log) && Kept(l, mb.log, 0) && mb.State().allotted == {}
    ensures !ok ==> mb.CrowdedForReserve() && mb.log.Regions() >= M.MAX_REGIONS
    ensures Began(l, mb.log)
    ensures |mb.log.calls| <= |l.reservations| + 2
    ensures M.SpoilsAll(mb.log.calls) <= M.Spoils(ReserveOf(l.kernel)) + RangesSpoil(l.reservations + [l.dtb])
  {
    hide LayoutOk, M.LogOk, Separated, Bytes, Range, Total, M.Touches, Punches, M.Spoils, M.SpoilsAll, M.Grew,
         RangesSpoil;
    RamBounds(l);
    mb := new M.MemblockAllocator();
    ok := mb.InitAddMemory(l.ram.base, l.ram.size);
    assert ok;
    assert {} + Ram(l) == Ram(l);
    ghost var log := mb.log;
    ok := mb.ReserveMemory(l.kernel.base, l.kernel.size);
    if !ok { return; }
    FirstCall(l, log, mb.State());
    log := mb.log;
    ok := ReserveAll(l, mb, l.reservations + [l.dtb]);
    GrewCounts(log, mb.log, |l.reservations + [l.dtb]|, RangesSpoil(l.reservations + [l.dtb]));
    if !ok { return; }
    StartsBegan(l, mb.log);
    assert forall r :: r in l.reservations ==> r in l.reservations + [l.dtb];
    assert l.dtb in l.reservations + [l.dtb];
  }

  /** The allocator is as the page table needs it, as long as the table's pages were taken from it. */
  lemma MemoryIsOk(l: Layout, pt: PageTable)
    requires LayoutOk(l) && pt.memory.Valid() && Starts(l, pt.memory.log)
    requires Owned(pt.tables, pt.memory.State().allotted)
    ensures pt.MemoryOk()
  {
    hide Owned, Separated, Bytes, Total, Fine, PairwiseApart, Devices, M.Step;
    HistoryInv(l, pt.memory.log, pt.memory.State());
  }

  lemma NothingShown(mem: Tables, root: nat)
    requires forall v: nat :: Lookup(mem, root, v) == Unmapped && !HasDir(mem, root, v)
    ensures Showing(mem, root, Live([]), Dirs([]))
  {
    hide Lookup, HasDir;
  }

  /** What an early allocation that found nothing means. */
  function Failed(early: M.Early): Outcome
  {
    match early
    case NoFit => OutOfPages
    case Underflow => Overflow
    case _ => ArrayFull
  }

  predicate OutOfMemory(r: Outcome) { Exhausted(r) || r == Overflow }

  /** The bytes of the page map, in whole pages. */
  function PageMapSize(l: Layout): nat
  {
    ((l.ram.End() / 4096 - l.ram.base / 4096) * l.pageBytes + 4095) / 4096 * 4096
  }

  /** The page map at `pa`, an entry for each page of RAM, lies in memory that was allocated. */
  ghost predicate HoldsPageMap(l: Layout, s: M.MemblockState, pa: nat)
  {
    l.ram.base <= l.ram.End() && pa % 4096 == 0 &&
    Range(pa, (l.ram.End() / 4096 - l.ram.base / 4096) * l.pageBytes) <= s.allotted
  }

  ghost predicate NoRoom(s: M.MemblockState, size: nat)
  {
    forall a: nat :: !M.Fits(s.available, size, 4096, a)
  }

  /**
   Why boot, which began with all of RAM, stopped: no page is left for a directory, or no room for the page map; or a
   region array has no slot left; or a region ends below the size of the page map.
   */
  ghost predicate Why(l: Layout, mb: M.MemblockAllocator, r: Outcome)
    reads mb, mb.Repr()
  {
    && Began(l, mb.log)
    && (r == OutOfPages ==> mb.Valid() && (M.NoPageLeft(mb.State()) || NoRoom(mb.State(), PageMapSize(l))))
    && (r == ArrayFull ==>
          (mb.CrowdedForAlloc() || mb.CrowdedForReserve()) && mb.log.Regions() >= M.MAX_REGIONS)
    && (r == Overflow ==>
          && mb.Valid() && NoRoom(mb.State(), PageMapSize(l))
          && M.MemblockAllocator.EndsBelow(mb.available.View(), PageMapSize(l)))
  }

  lemma WhyFromTable(l: Layout, pt: PageTable, r: Outcome)
    requires pt.Why(r) && r != Overflow && Began(l, pt.memory.log)
    ensures Why(l, pt.memory, r)
  {
    hide M.NoPageLeft, NoRoom, PageMapSize;
  }

  lemma RamIsHigh(l: Layout)
    requires LayoutOk(l)
    ensures forall x :: x in Ram(l) ==> 4096 <= x
  {
    hide Fine, PairwiseApart, Devices;
  }

  /** Allocates and clears the root of the page table. */
  method NewRoot(l: Layout, mb: M.MemblockAllocator) returns (r: Outcome, pt: PageTable?)
    requires LayoutOk(l) && mb.Valid() && Starts(l, mb.log) && Kept(l, mb.log, 0)
    modifies mb`log, mb.available, mb.available.regions, mb.allotted, mb.allotted.regions
    ensures r == Done || Exhausted(r)
    ensures Why(l, mb, r) && M.Grew(old(mb.log), mb.log, 1, 1)
    ensures r == Done ==> pt != null && fresh(pt) && pt.memory == mb && pt.Valid()
    ensures r == Done ==> Starts(l, mb.log) && Kept(l, mb.log, 0)
    ensures r == Done ==> Showing(pt.tables, pt.root, Live([]), Dirs([]))
  {
    hide Owned, Separated, Bytes, Range, Total, Fine, PairwiseApart, Devices, Starts, Kept, M.LogOk, M.Touches,
         Punches, IsPowerOfTwo, Lookup, Showing, Tree, PageMapSize, M.Grew;
    StartsBegan(l, mb.log);
    PageSizeIsPower();
    HistoryInv(l, mb.log, mb.State());
    RamIsHigh(l);
    EndsAbove(mb.available.View(), 4096);
    ghost var log := mb.log;
    M.GrewNot(log);
    var early := mb.EarlyAlloc(4096, 4096);
    if early.Full? {
      GrewWider(log, log, 0, 0, 1, 1);
      return ArrayFull, null;
    }
    M.GrewByCall(log, M.BootCall.EarlyAlloc(4096, 4096, if early.Found? then Some(early.addr) else None), mb.State());
    StartsStay(l, log, mb.log, 0);
    StartsBegan(l, mb.log);
    if early.NoFit? {
      return OutOfPages, null;
    }
    HistoryInv(l, mb.log, mb.State());
    pt := new PageTable(mb, early.addr);
    NothingShown(pt.tables, pt.root);
    r := Done;
  }

  /** The other nodes of the device tree: ranges in RAM are reserved, device ranges mapped. */
  method VisitNodes(l: Layout, pt: PageTable) returns (r: Outcome)
    requires LayoutOk(l) && pt.Valid() && Starts(l, pt.memory.log) && Kept(l, pt.memory.log, 0)
    requires Showing(pt.tables, pt.root, Live([]), Dirs([]))
    modifies pt, pt.memory`log, pt.memory.available, pt.memory.available.regions
    modifies pt.memory.reserved, pt.memory.reserved.regions, pt.memory.allotted, pt.memory.allotted.regions
    ensures r == Done || Exhausted(r)
    ensures Why(l, pt.memory, r)
    ensures M.Grew(old(pt.memory.log), pt.memory.log, NodesCalls(l, |l.nodes|), NodesSpoil(l, |l.nodes|))
    ensures r == Done ==> pt.Valid() && Starts(l, pt.memory.log) && Kept(l, pt.memory.log, |l.nodes|)
    ensures r == Done ==>
              Showing(pt.tables, pt.root, Live(Devices(l, |l.nodes|)), Dirs(Devices(l, |l.nodes|)))
  {
    hide LayoutOk, PageTable.Valid, Why, Starts, Kept, Showing, Devices, M.Grew, NodeCalls, NodeSpoils, NodesCalls,
         NodesSpoil, Began, Live, Dirs;
    var i := 0;
    DevicesStart(l);
    M.GrewNot(pt.memory.log);
    NodesSoFar(l, 0);
    while i < |l.nodes|
      invariant 0 <= i <= |l.nodes| && pt.Valid() && Starts(l, pt.memory.log) && Kept(l, pt.memory.log, i)
      invariant Showing(pt.tables, pt.root, Live(Devices(l, i)), Dirs(Devices(l, i)))
      invariant M.Grew(old(pt.memory.log), pt.memory.log, NodesCalls(l, i), NodesSpoil(l, i))
    {
      NodesSoFar(l, i);
      ghost var log := pt.memory.log;
      r := VisitNode(l, pt, i);
      M.GrewBoth(old(pt.memory.log), log, pt.memory.log, NodesCalls(l, i), NodesSpoil(l, i),
                 NodeCalls(l, l.nodes[i]), NodeSpoils(l, l.nodes[i]));
      if r != Done {
        GrewWider(old(pt.memory.log), pt.memory.log, NodesCalls(l, i + 1), NodesSpoil(l, i + 1),
                  NodesCalls(l, |l.nodes|), NodesSpoil(l, |l.nodes|));
        return;
      }
      i := i + 1;
    }
    r := Done;
    WhyDone(l, pt.memory);
  }

  lemma WhyDone(l: Layout, mb: M.MemblockAllocator)
    requires Starts(l, mb.log)
    ensures Why(l, mb, Done)
  {
  }

  lemma {:induction false} NodesSoFar(l: Layout, n: nat)
    requires n <= |l.nodes|
    ensures NodesCalls(l, n) <= NodesCalls(l, |l.nodes|) && NodesSpoil(l, n) <= NodesSpoil(l, |l.nodes|)
    ensures n == 0 ==> NodesCalls(l, n) == NodesSpoil(l, n) == 0
    ensures n < |l.nodes| ==>
              && NodesCalls(l, n + 1) == NodesCalls(l, n) + NodeCalls(l, l.nodes[n])
              && NodesSpoil(l, n + 1) == NodesSpoil(l, n) + NodeSpoils(l, l.nodes[n])
              && NodesCalls(l, n + 1) <= NodesCalls(l, |l.nodes|) && NodesSpoil(l, n + 1) <= NodesSpoil(l, |l.nodes|)
    decreases |l.nodes| - n
  {
    hide NodeCalls, NodeSpoils;
    if n < |l.nodes| {
      NodesSoFar(l, n + 1);
    }
  }

  lemma DevicesStart(l: Layout)
    ensures Devices(l, 0) == []
  {
  }

  /** A device range is apart from those before it. */
  lemma DevicesNext(l: Layout, i: nat)
    requires LayoutOk(l) && i < |l.nodes|
    ensures var n := l.nodes[i]; var s := SegmentOf(n, Linear, RW);
      if n.size > 0 && !InRam(l, n)
      then Devices(l, i + 1) == Devices(l, i) + [s] && PairwiseApart(Devices(l, i) + [s]) && Fine(s)
      else Devices(l, i + 1) == Devices(l, i)
  {
    hide Fine, Apart;
    DevicesPrefix(l, i + 1, |l.nodes|);
    var all := AllMaps(l);
    assert Devices(l, i + 1) <= all;
    PrefixApart(all, Devices(l, i + 1));
    var n := l.nodes[i];
    if n.size > 0 && !InRam(l, n) {
      assert all[|Devices(l, i)|] == SegmentOf(n, Linear, RW);
    }
  }

  lemma {:induction false} DevicesPrefix(l: Layout, i: nat, j: nat)
    requires i <= j <= |l.nodes|
    ensures Devices(l, i) <= Devices(l, j)
    decreases j
  {
    if i < j {
      DevicesPrefix(l, i, j - 1);
    }
  }

  /** One node. */
  method VisitNode(l: Layout, pt: PageTable, i: nat) returns (r: Outcome)
    requires LayoutOk(l) && pt.Valid() && i < |l.nodes| && Starts(l, pt.memory.log) && Kept(l, pt.memory.log, i)
    requires Showing(pt.tables, pt.root, Live(Devices(l, i)), Dirs(Devices(l, i)))
    modifies pt, pt.memory`log, pt.memory.available, pt.memory.available.regions
    modifies pt.memory.reserved, pt.memory.reserved.regions, pt.memory.allotted, pt.memory.allotted.regions
    ensures r == Done || Exhausted(r)
    ensures Why(l, pt.memory, r)
    ensures M.Grew(old(pt.memory.log), pt.memory.log, NodeCalls(l, l.nodes[i]), NodeSpoils(l, l.nodes[i]))
    ensures r == Done ==> pt.Valid() && Starts(l, pt.memory.log) && Kept(l, pt.memory.log, i + 1)
    ensures r == Done ==>
              Showing(pt.tables, pt.root, Live(Devices(l, i + 1)), Dirs(Devices(l, i + 1)))
  {
    hide Owned, Tree, Separated, Bytes, Range, Total, Fine, PairwiseApart, Devices, Starts, Kept, LayoutOk, Showing,
         M.LogOk, M.Touches, Punches, M.NoPageLeft, NoRoom, PageMapSize, M.Grew, M.Spoils, Need, M.TookPages;
    DevicesNext(l, i);
    StartsBegan(l, pt.memory.log);
    ghost var log := pt.memory.log;
    M.GrewNot(log);
    var n := l.nodes[i];
    if n.size > 0 {
      if InRam(l, n) {
        var ok := pt.memory.ReserveMemory(n.base, n.size);
        if !ok {
          GrewWider(log, log, 0, 0, NodeCalls(l, n), NodeSpoils(l, n));
          return ArrayFull;
        }
        M.GrewByCall(log, ReserveOf(n), pt.memory.State());
        StartsStay(l, log, pt.memory.log, i);
        MemoryIsOk(l, pt);
        assert pt.memory.log.calls[|log.calls|] == ReserveOf(n);
      } else {
        r := MapNext(pt, SegmentOf(n, Linear, RW), Devices(l, i));
        M.GrewByPages(log, pt.memory.log, Need(MapCall(SegmentOf(n, Linear, RW))));
        TookIsPrefix(log, pt.memory.log);
        StartsStay(l, log, pt.memory.log, i);
        StartsBegan(l, pt.memory.log);
        if r != Done {
          WhyFromTable(l, pt, r);
          return;
        }
      }
    }
    KeptNext(l, pt.memory.log, i);
    StartsBegan(l, pt.memory.log);
    r := Done;
  }

  lemma KeptNext(l: Layout, log: M.BootLog, i: nat)
    requires Kept(l, log, i) && i < |l.nodes|
    requires l.nodes[i].size > 0 && InRam(l, l.nodes[i]) ==> ReserveOf(l.nodes[i]) in log.calls
    ensures Kept(l, log, i + 1)
  {
  }

  /** RAM that holds a page has a page number. */
  lemma RamHasPages(l: Layout, log: M.BootLog, s: M.MemblockState, p: nat)
    requires M.LogOk(log, s) && Starts(l, log) && Range(p * 4096, 4096) <= s.allotted
    ensures l.ram.base / 4096 < l.ram.End() / 4096
  {
    HistoryInv(l, log, s);
    var a := p * 4096;
    assert a in Range(a, 4096) && a + 4095 in Range(a, 4096);
    assert a in Ram(l) && a + 4095 in Ram(l);
  }

  /** Allocates the array of page states. */
  method AllocPageMap(l: Layout, pt: PageTable) returns (r: Outcome, mapPa: nat)
    requires LayoutOk(l) && pt.Valid() && Starts(l, pt.memory.log)
    modifies pt.memory`log, pt.memory.available, pt.memory.available.regions
    modifies pt.memory.allotted, pt.memory.allotted.regions
    ensures r == Done || OutOfMemory(r)
    ensures Why(l, pt.memory, r)
    ensures r != Done ==> M.Grew(old(pt.memory.log), pt.memory.log, 1, 1)
    ensures r == Done ==> pt.Valid() && Starts(l, pt.memory.log) && HoldsPageMap(l, pt.memory.State(), mapPa)
    ensures r == Done ==> forall n :: old(Kept(l, pt.memory.log, n)) ==> Kept(l, pt.memory.log, n)
  {
    hide Owned, Tree, Separated, Bytes, Range, Total, Fine, PairwiseApart, Devices, Starts, Kept, LayoutOk,
         M.LogOk, M.Touches, Punches, IsPowerOfTwo, PageMapSize, M.Grew;
    PageSizeIsPower();
    PageMapNeeded(l, pt);
    StartsBegan(l, pt.memory.log);
    ghost var log, s := pt.memory.log, pt.memory.State();
    M.GrewNot(log);
    GrewWider(log, log, 0, 0, 1, 1);
    var early := pt.memory.EarlyAlloc(PageMapSize(l), 4096);
    if !early.Found? {
      if early.NoFit? {
        ghost var call := M.BootCall.EarlyAlloc(PageMapSize(l), 4096, None);
        M.GrewByCall(log, call, pt.memory.State());
        GrewWider(log, pt.memory.log, 1, M.Spoils(call), 1, 1);
      }
      return Failed(early), 0;
    }
    PageMapHolds(l, pt.memory.State(), early.addr);
    forall n
      ensures Kept(l, log, n) ==> Kept(l, pt.memory.log, n)
    {
      StartsStay(l, log, pt.memory.log, n);
    }
    StartsStay(l, log, pt.memory.log, 0);
    StartsBegan(l, pt.memory.log);
    OwnedMore(pt.tables, s.allotted, pt.memory.State().allotted);
    MemoryIsOk(l, pt);
    r, mapPa := Done, early.addr;
  }

  /** An entry for each page of RAM fits. */
  lemma PageMapHolds(l: Layout, s: M.MemblockState, a: nat)
    requires LayoutOk(l) && Aligned(a, 4096) && Range(a, PageMapSize(l)) <= s.allotted
    ensures HoldsPageMap(l, s, a)
  {
    hide LayoutOk, Range;
    RamBounds(l);
    var bytes: nat := (l.ram.End() / 4096 - l.ram.base / 4096) * l.pageBytes;
    RoundUpHolds(bytes);
    ShorterRange(a, bytes, PageMapSize(l));
  }

  lemma RoundUpHolds(n: nat)
    ensures n <= (n + 4095) / 4096 * 4096
  {
  }

  lemma ShorterRange(a: nat, n: nat, m: nat)
    requires n <= m
    ensures Range(a, n) <= Range(a, m)
  {
  }

  /** RAM holds the root of the page table, so it has pages to keep a state for. */
  lemma PageMapNeeded(l: Layout, pt: PageTable)
    requires LayoutOk(l) && pt.Valid() && Starts(l, pt.memory.log)
    ensures l.ram.base / 4096 < l.ram.End() / 4096 && PageMapSize(l) > 0
  {
    hide Range, TableOk, Starts, M.LogOk, Separated, Bytes, Total, Fine, PairwiseApart, Devices, PageMapSize;
    RamHasPages(l, pt.memory.log, pt.memory.State(), pt.root);
    PageMapSizePositive(l);
  }

  /** Everything that is set up before the final page table is switched on. */
  method SetupMemoryAndMapping(l: Layout) returns (r: Outcome, mb: M.MemblockAllocator, pt: PageTable?, mapPa: nat)
    requires LayoutOk(l)
    ensures r == Done || OutOfMemory(r)
    ensures Why(l, mb, r) && fresh(mb) && fresh(mb.Repr())
    ensures RoomToBoot(l) ==> r == Done
    ensures r == Done ==> pt != null && fresh(pt) && pt.memory == mb && pt.Valid()
    ensures r == Done ==> HoldsPageMap(l, mb.State(), mapPa)
    ensures r == Done ==> Starts(l, pt.memory.log) && Kept(l, pt.memory.log, |l.nodes|)
    ensures r == Done ==> Showing(pt.tables, pt.root, Live(AllMaps(l)), Dirs(AllMaps(l)))
  {
    hide LayoutOk, PageTable.Valid, Starts, Kept, Began, Showing, M.TookPages, Devices, KernelMaps, PairwiseApart, Fine,
         Dirs, Live, M.MemblockAllocator.Valid, RoomToBoot, Spent, M.Grew, Why, M.Spoils, RangesSpoil, MapsNeed,
         M.SpoilsAll, HoldsPageMap;
    PageBytesPositive(l);
    mapPa := 0;
    var ok;
    ok, mb := DeclareMemory(l);
    ghost var c, p := |l.reservations| + 2, M.Spoils(ReserveOf(l.kernel)) + RangesSpoil(l.reservations + [l.dtb]);
    FirstSpent(mb.log, c, p);
    if !ok {
      Crowded(l, mb);
      RoomSuffices(l, mb, ArrayFull, c, p);
      return ArrayFull, mb, null, 0;
    }
    ghost var log0 := mb.log;
    r, pt := NewRoot(l, mb);
    SpentMore(log0, mb.log, c, p, 1, 1);
    RoomSuffices(l, mb, r, c + 1, p + 1);
    if r != Done {
      return;
    }
    r, mapPa := MapEverything(l, pt, c + 1, p + 1);
  }

  /** The nodes, the kernel's own segments, and the page map. */
  method MapEverything(l: Layout, pt: PageTable, ghost c: nat, ghost p: nat)
        returns (r: Outcome, mapPa: nat)
    requires LayoutOk(l) && pt.Valid() && Starts(l, pt.memory.log) && Kept(l, pt.memory.log, 0)
    requires Showing(pt.tables, pt.root, Live([]), Dirs([]))
    requires Spent(pt.memory.log, c, p)
    requires c + NodesCalls(l, |l.nodes|) + MapsNeed(KernelMaps(l)) + 1 <= BootCalls(l)
    requires p + NodesSpoil(l, |l.nodes|) + MapsNeed(KernelMaps(l)) + 1 <= BootSpoils(l)
    modifies pt, pt.memory`log, pt.memory.available, pt.memory.available.regions
    modifies pt.memory.reserved, pt.memory.reserved.regions, pt.memory.allotted, pt.memory.allotted.regions
    ensures r == Done || OutOfMemory(r)
    ensures Why(l, pt.memory, r)
    ensures RoomToBoot(l) ==> r == Done
    ensures r == Done ==> pt.Valid() && Starts(l, pt.memory.log) && Kept(l, pt.memory.log, |l.nodes|)
    ensures r == Done ==> HoldsPageMap(l, pt.memory.State(), mapPa)
    ensures r == Done ==> Showing(pt.tables, pt.root, Live(AllMaps(l)), Dirs(AllMaps(l)))
  {
    hide LayoutOk, PageTable.Valid, PageTable.Why, Starts, Kept, Began, Showing, M.TookPages, Devices, KernelMaps,
         PairwiseApart, Fine, Dirs, Live, RoomToBoot, Spent, M.Grew, Why, MapsNeed, M.SpoilsAll, NodesCalls, NodesSpoil,
         BootCalls, BootSpoils, M.Enough, M.LogOk, HoldsPageMap;
    PageBytesPositive(l);
    mapPa := 0;
    ghost var log0 := pt.memory.log;
    r := VisitNodes(l, pt);
    ghost var log1, c1, p1 := pt.memory.log, c + NodesCalls(l, |l.nodes|), p + NodesSpoil(l, |l.nodes|);
    SpentMore(log0, log1, c, p, NodesCalls(l, |l.nodes|), NodesSpoil(l, |l.nodes|));
    RoomSuffices(l, pt.memory, r, c1, p1);
    if r != Done {
      return;
    }
    KernelMapsFine(l);
    r := MapAll(pt, KernelMaps(l), Devices(l, |l.nodes|));
    ghost var log2, n := pt.memory.log, MapsNeed(KernelMaps(l));
    M.GrewByPages(log1, log2, n);
    SpentMore(log1, log2, c1, p1, n, n);
    TookIsPrefix(log1, log2);
    StartsStay(l, log1, log2, |l.nodes|);
    StartsBegan(l, log2);
    WhyFromTable(l, pt, r);
    RoomSuffices(l, pt.memory, r, c1 + n, p1 + n);
    if r != Done {
      return;
    }
    r, mapPa := AllocPageMap(l, pt);
    if r != Done {
      SpentMore(log2, pt.memory.log, c1 + n, p1 + n, 1, 1);
      RoomSuffices(l, pt.memory, r, c1 + n + 1, p1 + n + 1);
    }
  }

  lemma PageBytesPositive(l: Layout)
    requires LayoutOk(l)
    ensures l.pageBytes > 0
  {
  }

  lemma FirstSpent(log: M.BootLog, calls: nat, pages: nat)
    requires |log.calls| <= calls && M.SpoilsAll(log.calls) <= pages
    ensures Spent(log, calls, pages)
  {
  }

  lemma Crowded(l: Layout, mb: M.MemblockAllocator)
    requires Began(l, mb.log) && mb.CrowdedForReserve() && mb.log.Regions() >= M.MAX_REGIONS
    ensures Why(l, mb, ArrayFull)
  {
  }

  lemma TookIsPrefix(a: M.BootLog, b: M.BootLog)
    requires M.TookPages(a, b)
    ensures a.states <= b.states && a.calls <= b.calls && a.slots == b.slots
  {
  }

  lemma KernelMapsFine(l: Layout)
    requires LayoutOk(l)
    ensures PairwiseApart(Devices(l, |l.nodes|) + KernelMaps(l))
    ensures forall s :: s in KernelMaps(l) ==> Fine(s)
  {
    hide Fine, PairwiseApart, Devices, KernelMaps;
    forall s | s in KernelMaps(l)
      ensures s in AllMaps(l)
    {
    }
  }

  /** The four identity segments are among those that are mapped, and apart. */
  lemma TemporaryIsLive(l: Layout)
    requires LayoutOk(l)
    ensures forall s :: s in Temporary(l) ==> s in Live(AllMaps(l)) && Fine(s)
    ensures forall s, t :: s in Live(AllMaps(l)) && t in Live(AllMaps(l)) && s != t ==> Apart(s, t)
    ensures forall i, j :: 0 <= i < j < |Temporary(l)| ==> Apart(Temporary(l)[i], Temporary(l)[j])
  {
    hide Fine, Apart, Devices;
    var all, n := AllMaps(l), |Devices(l, |l.nodes|)|;
    assert all[n + 1] == Temporary(l)[0] && all[n + 3] == Temporary(l)[1];
    assert all[n + 5] == Temporary(l)[2] && all[n + 7] == Temporary(l)[3];
    forall s, t | s in all && t in all && s != t
      ensures Apart(s, t)
    {
      var i :| 0 <= i < |all| && all[i] == s;
      var j :| 0 <= j < |all| && all[j] == t;
      ApartBoth(s, t);
    }
  }

  /** Drops the identity mappings. */
  method UnmapTempIdentityArea(l: Layout, pt: PageTable)
    requires LayoutOk(l) && pt.Valid() && Showing(pt.tables, pt.root, Live(AllMaps(l)), Dirs(AllMaps(l)))
    modifies pt, pt.memory`log, pt.memory.available, pt.memory.available.regions
    modifies pt.memory.allotted, pt.memory.allotted.regions
    ensures pt.Valid() && M.TookPages(old(pt.memory.log), pt.memory.log)
    ensures Showing(pt.tables, pt.root, Live(AllMaps(l)) - Live(Temporary(l)), Dirs(AllMaps(l)))
  {
    hide LayoutOk, PageTable.Valid, Showing, M.TookPages, AllMaps, Temporary, Dirs, Live, Fine, Apart;
    TemporaryIsLive(l);
    var r := UnmapAll(pt, Temporary(l), Live(AllMaps(l)), Dirs(AllMaps(l)));
  }

  // -------------------------------------------------------------- after boot

  /** What boot leaves behind. */
  ghost predicate Booted(l: Layout, log: M.BootLog, m: M.MemblockState, tables: Tables, slot: map<nat, Slot>, root: nat,
                         buddy: S.BuddyState)
  {
    && M.LogOk(log, m) && Starts(l, log) && Kept(l, log, |l.nodes|)
    && Tree(tables, slot, root) && Owned(tables, m.allotted)
    && Shows(tables, root, Live(AllMaps(l)) - Live(Temporary(l)))
    && HandedOver(m, buddy)
  }

  /** What boot left alone while the identity mappings were dropped. */
  lemma PageMapStays(l: Layout, before: M.BootLog, s: M.MemblockState, pt: PageTable, mapPa: nat)
    requires HoldsPageMap(l, s, mapPa) && M.LogOk(before, s) && pt.Valid() && M.TookPages(before, pt.memory.log)
    ensures HoldsPageMap(l, pt.memory.State(), mapPa)
  {
    HistoryOf(pt);
    hide M.LogOk, M.TookPages, PageTable.Valid, Range;
    M.PagesTaken(before, s, pt.memory.log, pt.memory.State());
  }

  /**
   The whole boot sequence. It ends with the page table showing what it should, and the buddy
   allocator holding the rest of memory, unless no page is left, the page map fits nowhere or
   a region array is full; with room to boot none of these happens. No assertion of the page
   table fires.
   */
  method Boot(l: Layout)
    returns (r: Outcome, mb: M.MemblockAllocator, pt: PageTable?, buddy: B.BuddySystemFrameAllocator?,
             memMap: array?<Page>, mapPa: nat)
    requires LayoutOk(l)
    ensures r == Done || OutOfMemory(r)
    ensures Why(l, mb, r)
    ensures RoomToBoot(l) ==> r == Done
    ensures r == Done ==> pt != null && buddy != null && memMap != null && pt.Valid() && buddy.Ready()
    ensures r == Done ==> pt.memory == mb
    ensures r == Done ==> Booted(l, mb.log, mb.State(), pt.tables, pt.slot, pt.root, buddy.State())
    ensures r == Done ==> memMap.Length == l.ram.End() / 4096 - l.ram.base / 4096
    ensures r == Done ==> HoldsPageMap(l, mb.State(), mapPa)
    ensures r == Done ==> forall i :: 0 <= i < memMap.Length ==>
              memMap[i] == if Covers(buddy.free, l.ram.base / 4096 + i) then Page(0, Free) else Page(1, Reserved)
  {
    hide LayoutOk, Starts, Kept, Showing, Shows, M.TookPages, AllMaps, Temporary, Dirs, Live, Tree, Owned, M.LogOk,
         Covers, HandedOver, B.BuddySystemFrameAllocator.Ready, M.MemblockAllocator.ArraysOk, M.NoPageLeft, NoRoom,
         PageMapSize, RoomToBoot, HoldsPageMap;
    buddy, memMap := null, null;
    r, mb, pt, mapPa := SetupMemoryAndMapping(l);
    if r != Done {
      return;
    }
    ghost var log, state := pt.memory.log, pt.memory.State();
    UnmapTempIdentityArea(l, pt);
    PageMapStays(l, log, state, pt, mapPa);
    TookIsPrefix(log, pt.memory.log);
    StartsStay(l, log, pt.memory.log, |l.nodes|);
    ShowingShows(pt.tables, pt.root, Live(AllMaps(l)) - Live(Temporary(l)), Dirs(AllMaps(l)));
    buddy, memMap := HandOver(l, pt.memory);
  }

  lemma RamBounds(l: Layout)
    requires LayoutOk(l)
    ensures 0 < l.ram.base <= l.ram.End() < WORD && l.ram.End() - l.ram.base == l.ram.size
  {
  }

  /** Hands the rest of memory to a new buddy allocator. */
  method HandOver(l: Layout, mb: M.MemblockAllocator) returns (buddy: B.BuddySystemFrameAllocator, memMap: array<Page>)
    requires LayoutOk(l) && mb.Valid() && Starts(l, mb.log)
    ensures fresh(buddy) && fresh(memMap) && buddy.Ready() && HandedOver(mb.State(), buddy.State())
    ensures memMap.Length == l.ram.End() / 4096 - l.ram.base / 4096
    ensures forall i :: 0 <= i < memMap.Length ==>
              memMap[i] == if Covers(buddy.free, l.ram.base / 4096 + i) then Page(0, Free) else Page(1, Reserved)
  {
    hide LayoutOk, Starts, M.LogOk, M.MemblockAllocator.ArraysOk, Separated, Bytes, Range, Total, B.Represents,
         B.Enumerates, Managed, PairwiseDisjoint, Inside, Covers, Blocks.Canonical;
    RamBounds(l);
    HistoryInv(l, mb.log, mb.State());
    buddy := new B.BuddySystemFrameAllocator(map[]);
    var pages := l.ram.End() / 4096 - l.ram.base / 4096;
    memMap := new Page[pages](_ => Page(1, Reserved));
    InitBuddySystem(mb, buddy, memMap, l.ram.base, l.ram.End());
  }

  lemma ShowingShows(mem: Tables, root: nat, live: set<Segment>, dirs: set<nat>)
    requires Showing(mem, root, live, dirs)
    ensures Shows(mem, root, live)
  {
  }

  /** A page outside the kernel image lies in one of the two ranges of RAM that are mapped. */
  lemma RamIsMapped(l: Layout, p: nat)
    requires LayoutOk(l) && Range(p * 4096, 4096) <= Ram(l)
    requires Range(p * 4096, 4096) !! Range(l.kernel.base, l.kernel.size)
    ensures var after, before := KernelMaps(l)[8], KernelMaps(l)[9];
      PlanFor(after).first <= p < PlanFor(after).last || PlanFor(before).first <= p < PlanFor(before).last
  {
    var a := p * 4096;
    assert a in Range(a, 4096) && a + 4095 in Range(a, 4096);
    assert a in Ram(l) && a + 4095 in Ram(l);
    hide LayoutOk, Range;
    AlignByConstant(l.kernel.End() + 4095, 4096);
    if a < l.kernel.base {
      assert p < (l.kernel.base + 4095) / 4096;
    } else {
      assert l.kernel.End() <= a;
      assert AlignUp(l.kernel.End(), 4096) / 4096 <= p;
    }
  }

  /**
   The page lies in RAM, meets no reservation, no early allocation and no directory of the
   page table, and the linear map reaches it for reading and writing.
   */
  ghost predicate PageIsSafe(l: Layout, m: M.MemblockState, tables: Tables, root: nat, p: nat)
  {
    && Range(p * 4096, 4096) <= Ram(l) && Range(p * 4096, 4096) !! m.reserved + m.allotted && p !in tables
    && (forall r :: r in l.reservations + [l.kernel, l.dtb] ==> Range(p * 4096, 4096) !! Range(r.base, r.size))
    && (forall n :: n in l.nodes && l.ram.base <= n.base && n.End() <= l.ram.End() ==>
          Range(p * 4096, 4096) !! Range(n.base, n.size))
    && (forall pa: nat :: pa / 4096 == p ==>
          Translate(tables, root, PaToVa(Linear, pa)) == Some((pa, 7)))
  }

  /** As long as the buddy allocator has the pages it was given at boot, free or handed out, each of them is safe. */
  lemma BootPageIsSafe(l: Layout, log: M.BootLog, m: M.MemblockState, tables: Tables, slot: map<nat, Slot>, root: nat,
                       first: S.BuddyState, b: S.BuddyState, p: nat)
    requires LayoutOk(l) && Booted(l, log, m, tables, slot, root, first)
    requires SamePages(first.free + first.out, b.free + b.out) && Covers(b.free + b.out, p)
    ensures PageIsSafe(l, m, tables, root, p)
  {
    hide LayoutOk, Range, Tree, Shows, Translate, PaToVa, AllMaps, Temporary, Covers;
    HandedPageIsSafe(Ram(l), log.states, log.calls, first, b, p);
    ReservedStays(l, log, p);
    assert p in tables ==> Range(p * 4096, 4096) <= m.allotted;
    PageNotEmpty(p);
    RamIsMapped(l, p);
    forall pa: nat | pa / 4096 == p
      ensures Translate(tables, root, PaToVa(Linear, pa)) == Some((pa, 7))
    {
      RamTranslates(l, tables, slot, root, p, pa);
    }
  }

  /** And it has them in every later run. */
  lemma BootIsSafe(l: Layout, log: M.BootLog, m: M.MemblockState, tables: Tables, slot: map<nat, Slot>, root: nat,
                   states: seq<S.BuddyState>, calls: seq<S.Call>, i: nat, p: nat)
    requires LayoutOk(l) && S.Run(states, calls) && Booted(l, log, m, tables, slot, root, states[0])
    requires i < |states| && Covers(states[i].free + states[i].out, p)
    ensures PageIsSafe(l, m, tables, root, p)
  {
    hide LayoutOk, Tree, Shows, Covers, PageIsSafe, S.Inv;
    S.RunKeeps(states[..i + 1], calls[..i]);
    BootPageIsSafe(l, log, m, tables, slot, root, states[0], states[i], p);
  }

  lemma PageNotEmpty(p: nat)
    ensures p * 4096 in Range(p * 4096, 4096)
  {
  }

  /** What was reserved at boot stays out of reach. */
  lemma ReservedStays(l: Layout, log: M.BootLog, p: nat)
    requires Starts(l, log) && Kept(l, log, |l.nodes|)
    requires forall k :: 0 <= k < |log.calls| ==> Range(p * 4096, 4096) !! M.Claimed(log.calls[k])
    ensures forall r :: r in l.reservations + [l.kernel, l.dtb] ==> Range(p * 4096, 4096) !! Range(r.base, r.size)
    ensures forall n :: n in l.nodes && l.ram.base <= n.base && n.End() <= l.ram.End() ==>
              Range(p * 4096, 4096) !! Range(n.base, n.size)
  {
    forall n | n in l.nodes && l.ram.base <= n.base && n.End() <= l.ram.End()
      ensures Range(p * 4096, 4096) !! Range(n.base, n.size)
    {
      if n.size > 0 {
        var k :| 0 <= k < |l.nodes| && l.nodes[k] == n;
        assert ReserveOf(n) in log.calls;
      }
    }
    hide Range;
    assert forall c :: c in log.calls ==> Range(p * 4096, 4096) !! M.Claimed(c);
    forall r | r in l.reservations + [l.kernel, l.dtb]
      ensures Range(p * 4096, 4096) !! Range(r.base, r.size)
    {
      assert ReserveOf(r) in log.calls;
    }
  }

  lemma RamTranslates(l: Layout, tables: Tables, slot: map<nat, Slot>, root: nat, p: nat, pa: nat)
    requires LayoutOk(l) && Tree(tables, slot, root) && pa / 4096 == p
    requires Shows(tables, root, Live(AllMaps(l)) - Live(Temporary(l)))
    requires var after, before := KernelMaps(l)[8], KernelMaps(l)[9];
      PlanFor(after).first <= p < PlanFor(after).last || PlanFor(before).first <= p < PlanFor(before).last
    ensures Translate(tables, root, PaToVa(Linear, pa)) == Some((pa, 7))
  {
    hide Tree, Shows, Translate, PaToVa, PlanOf, Devices, AlignUp, PairwiseApart;
    var after, before := KernelMaps(l)[8], KernelMaps(l)[9];
    var s := if PlanFor(after).first <= p < PlanFor(after).last then after else before;
    assert s in KernelMaps(l) && s in AllMaps(l) && s !in Temporary(l);
    assert LegalLeaf(RW);
    ShowsTranslates(tables, slot, root, Live(AllMaps(l)) - Live(Temporary(l)), s, pa);
  }

  /** An address of a boot segment that is live translates, with the segment's flags. */
  lemma BootTranslates(l: Layout, tables: Tables, slot: map<nat, Slot>, root: nat, live: set<Segment>, s: Segment,
                       pa: nat)
    requires LayoutOk(l) && Tree(tables, slot, root) && Shows(tables, root, live) && s in live && s in AllMaps(l)
    requires s.start <= pa < s.end && LegalLeaf(s.flags)
    ensures Translate(tables, root, if s.kind == Linear then pa + 0xFFFF_FFFF_0000_0000 else pa) ==
              Some((pa, s.flags / 2 * 2 + 1))
  {
    hide Tree, Shows, Translate, PlanOf, AllMaps, PairwiseApart, LegalLeaf;
    PlanIsExact(s.start, s.end);
    ShowsTranslates(tables, slot, root, live, s, pa);
  }

  /**
   After boot the linear map makes kernel text executable and not writable, read-only data
   only readable, and data, devices and the memory around the kernel readable and writable.
   */
  lemma KernelIsProtected(l: Layout, tables: Tables, slot: map<nat, Slot>, root: nat, pa: nat)
    requires LayoutOk(l) && Tree(tables, slot, root)
    requires Shows(tables, root, Live(AllMaps(l)) - Live(Temporary(l)))
    ensures var t := Translate(tables, root, pa + 0xFFFF_FFFF_0000_0000);
      && (InRange(l.text, pa) ==> t == Some((pa, 11)))
      && (InRange(l.rodata, pa) ==> t == Some((pa, 3)))
      && (InRange(l.data, pa) || InRange(l.bss, pa) ==> t == Some((pa, 7)))
      && (forall n :: n in l.nodes && !(l.ram.base <= n.base && n.End() <= l.ram.End()) && InRange(n, pa) ==>
            t == Some((pa, 7)))
      && (l.ram.base <= pa < l.kernel.base || (l.kernel.End() + 4095) / 4096 * 4096 <= pa < l.ram.End() ==>
            t == Some((pa, 7)))
  {
    hide LayoutOk, Tree, Shows, Translate, LegalLeaf, Devices;
    AlignUpToPage(l);
    LegalFlags();
    var live := Live(AllMaps(l)) - Live(Temporary(l));
    forall s | s in AllMaps(l) && s.kind == Linear && s.start <= pa < s.end && s.flags in {RX, RO, RW}
      ensures Translate(tables, root, pa + 0xFFFF_FFFF_0000_0000) == Some((pa, s.flags + 1))
    {
      BootTranslates(l, tables, slot, root, live, s, pa);
    }
    var maps := KernelMaps(l);
    assert maps[0] in AllMaps(l) && maps[2] in AllMaps(l) && maps[4] in AllMaps(l) && maps[6] in AllMaps(l);
    assert maps[8] in AllMaps(l) && maps[9] in AllMaps(l);
    forall n | n in l.nodes && !InRam(l, n) && InRange(n, pa)
      ensures SegmentOf(n, Linear, RW) in AllMaps(l)
    {
      var i :| 0 <= i < |l.nodes| && l.nodes[i] == n;
      DeviceIsMapped(l, i, |l.nodes|);
    }
  }

  /**
   While the final page table is switched on, code and data are found at their physical
   addresses as well as in the linear map, with the same rights.
   */
  lemma SwitchIsSeamless(l: Layout, tables: Tables, slot: map<nat, Slot>, root: nat, pa: nat)
    requires LayoutOk(l) && Tree(tables, slot, root) && Shows(tables, root, Live(AllMaps(l)))
    ensures forall va :: va in {pa, pa + 0xFFFF_FFFF_0000_0000} ==>
              && (InRange(l.text, pa) ==> Translate(tables, root, va) == Some((pa, 11)))
              && (InRange(l.rodata, pa) ==> Translate(tables, root, va) == Some((pa, 3)))
              && (InRange(l.data, pa) || InRange(l.bss, pa) ==> Translate(tables, root, va) == Some((pa, 7)))
  {
    hide LayoutOk, Tree, Shows, Translate, AllMaps;
    if InRange(l.text, pa) { BothWays(l, tables, slot, root, 0, pa); }
    if InRange(l.rodata, pa) { BothWays(l, tables, slot, root, 2, pa); }
    if InRange(l.data, pa) { BothWays(l, tables, slot, root, 4, pa); }
    if InRange(l.bss, pa) { BothWays(l, tables, slot, root, 6, pa); }
  }

  lemma BothWays(l: Layout, tables: Tables, slot: map<nat, Slot>, root: nat, i: nat, pa: nat)
    requires LayoutOk(l) && Tree(tables, slot, root) && Shows(tables, root, Live(AllMaps(l)))
    requires i in {0, 2, 4, 6} && KernelMaps(l)[i].start <= pa < KernelMaps(l)[i].end
    ensures forall va :: va in {pa, pa + 0xFFFF_FFFF_0000_0000} ==>
              Translate(tables, root, va) == Some((pa, KernelMaps(l)[i].flags + 1))
  {
    hide LayoutOk, Tree, Shows, Translate, LegalLeaf, Devices, AlignUp;
    LegalFlags();
    var s, t := KernelMaps(l)[i], KernelMaps(l)[i + 1];
    assert s in AllMaps(l) && t in AllMaps(l);
    BootTranslates(l, tables, slot, root, Live(AllMaps(l)), s, pa);
    BootTranslates(l, tables, slot, root, Live(AllMaps(l)), t, pa);
  }

  predicate InRange(r: MemRegion, pa: nat) { r.base <= pa < r.End() }

  lemma LegalFlags()
    ensures LegalLeaf(RX) && LegalLeaf(RO) && LegalLeaf(RW)
  {
  }

  lemma AlignUpToPage(l: Layout)
    requires LayoutOk(l)
    ensures AlignUp(l.kernel.End(), 4096) == (l.kernel.End() + 4095) / 4096 * 4096
  {
    hide AllMaps, PairwiseApart, Fine;
    AlignByConstant(l.kernel.End() + 4095, 4096);
  }

  lemma {:induction false} DeviceIsMapped(l: Layout, i: nat, n: nat)
    requires i < n <= |l.nodes| && l.nodes[i].size > 0 && !InRam(l, l.nodes[i])
    ensures SegmentOf(l.nodes[i], Linear, RW) in Devices(l, n)
    decreases n
  {
    if i < n - 1 {
      DeviceIsMapped(l, i, n - 1);
    }
  }

  /** No address below 4 GB translates any more: the identity area is gone. */
  lemma IdentityIsGone(l: Layout, tables: Tables, slot: map<nat, Slot>, root: nat, va: nat)
    requires LayoutOk(l) && Tree(tables, slot, root) && va < PHYS_LIMIT
    requires Shows(tables, root, Live(AllMaps(l)) - Live(Temporary(l)))
    ensures Translate(tables, root, va) == None
  {
    hide Tree, Shows, Translate, PlanOf, AlignUp, PairwiseApart, Fine;
    var live := Live(AllMaps(l)) - Live(Temporary(l));
    forall s | s in live
      ensures !SegmentCalls.Holds(s, VpnOf(va))
    {
      DevicesAreLinear(l, |l.nodes|);
      assert s.kind == Linear;
    }
    ShowsNothingElse(tables, slot, root, live, va);
  }

  lemma {:induction false} DevicesAreLinear(l: Layout, n: nat)
    requires n <= |l.nodes|
    ensures forall s :: s in Devices(l, n) ==> s.kind == Linear
  {
    if n > 0 {
      DevicesAreLinear(l, n - 1);
    }
  }

  // ---------------------------------------------------------------- a layout

  /** 128 MB of RAM at 2 GB, a kernel of 1 MB 2 MB above its start, and one serial port. */
  const VIRT: Layout := Layout(
    MemRegion(0x8000_0000, 0x800_0000), MemRegion(0x8020_0000, 0x10_0000), [], MemRegion(0x87E0_0000, 0x1_0000),
    [MemRegion(0x1000_0000, 0x100)], MemRegion(0x8020_0000, 0x1_0000), MemRegion(0x8021_0000, 0x1_0000),
    MemRegion(0x8022_0000, 0x1_0000), MemRegion(0x8023_0000, 0xD_0000), 32)

  const VIRT_MAPS: seq<Segment> := [
    Segment(0x1000_0000, 0x1000_0100, Linear, RW),
    Segment(0x8020_0000, 0x8021_0000, Linear, RX), Segment(0x8020_0000, 0x8021_0000, Identical, RX),
    Segment(0x8021_0000, 0x8022_0000, Linear, RO), Segment(0x8021_0000, 0x8022_0000, Identical, RO),
    Segment(0x8022_0000, 0x8023_0000, Linear, RW), Segment(0x8022_0000, 0x8023_0000, Identical, RW),
    Segment(0x8023_0000, 0x8030_0000, Linear, RW), Segment(0x8023_0000, 0x8030_0000, Identical, RW),
    Segment(0x8030_0000, 0x8800_0000, Linear, RW), Segment(0x8000_0000, 0x8020_0000, Linear, RW)]

  lemma VirtMaps()
    ensures AllMaps(VIRT) == VIRT_MAPS
  {
    hide AlignDown;
    var l := VIRT;
    AlignByConstant(l.kernel.End() + 4095, 4096);
    assert AlignUp(l.kernel.End(), 4096) == 0x8030_0000;
    assert Devices(l, 0) == [];
    assert Devices(l, 1) == [Segment(0x1000_0000, 0x1000_0100, Linear, RW)];
  }

  /** Byte ranges on page bounds that do not meet, or windows that differ: the segments are apart. */
  lemma ApartIfSeparate(s: Segment, t: Segment)
    requires s.kind != t.kind || (s.end + 4095) / 4096 <= t.start / 4096 || (t.end + 4095) / 4096 <= s.start / 4096
    requires s.end <= PHYS_LIMIT && t.end <= PHYS_LIMIT
    ensures Apart(s, t)
  {
    LastIsBounded(s.start, s.end);
    LastIsBounded(t.start, t.end);
  }

  lemma VirtApart()
    ensures PairwiseApart(VIRT_MAPS)
  {
    hide Apart;
    var all := VIRT_MAPS;
    forall i, j | 0 <= i < j < |all|
      ensures Apart(all[i], all[j])
    {
      ApartIfSeparate(all[i], all[j]);
    }
  }

  /** The requirements of the boot sequence can be met. */
  lemma VirtIsOk()
    ensures LayoutOk(VIRT)
  {
    hide AllMaps, PairwiseApart;
    VirtMaps();
    VirtApart();
  }

  /** And this machine boots. */
  lemma VirtBoots()
    ensures RoomToBoot(VIRT)
  {
    hide BootCalls, BootSpoils, Range, M.PagesLeft, LayoutOk, RangesSpoil, NodesSpoil, PageMapSize;
    VirtIsOk();
    BootBound(VIRT);
    VirtSpoils();
    M.WholePages(VIRT.ram.base, VIRT.ram.size);
    MulMonotone(1 + BootCalls(VIRT), 93, 256, 256);
  }

  lemma VirtSpoils()
    ensures RangesSpoil(VIRT.reservations + [VIRT.dtb]) + NodesSpoil(VIRT, 1) <= 26
    ensures PageMapSize(VIRT) == 256 * 4096
  {
    hide Need;
    var dtb := VIRT.reservations + [VIRT.dtb];
    assert dtb == [VIRT.dtb] && dtb[..0] == [];
    assert RangesSpoil(dtb) == RangesSpoil([]) + M.Spoils(ReserveOf(VIRT.dtb));
    NeedBound(SegmentOf(VIRT.nodes[0], Linear, RW));
    assert NodesSpoil(VIRT, 0) == 0;
  }
}
