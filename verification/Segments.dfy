/**
 Mapping and unmapping whole segments: 4 KB pages up to the first 2 MB boundary, 2 MB pages
 in between, and 4 KB pages after the last one.
 */
module Segments {
  import opened Bits
  import opened Sv39
  import opened PageTables
  import M = Memblock

  const LARGE: nat := 0x20_0000

  /** Physical memory lies below 4 GB, so that the linear map does not wrap around. */
  const PHYS_LIMIT: nat := 0x1_0000_0000

  datatype BootMapType = Identical | Linear

  datatype MapAction = Map(flags: nat) | Unmap

  // --------------------------------------------------------------- addresses

  function PaToVa(kind: BootMapType, pa: nat): nat
  {
    match kind
    case Identical => pa
    case Linear => pa + PHYS_VIRT_OFFSET
  }

  /** The first page number of the virtual window that a map type uses. */
  function Window(kind: BootMapType): nat
  {
    match kind
    case Identical => 0
    case Linear => 0x7F0_0000
  }

  /** Every byte of physical memory keeps its place in the window, and its address is canonical. */
  lemma PaToVaIsWindow(kind: BootMapType, pa: nat)
    requires pa < PHYS_LIMIT
    ensures PaToVa(kind, pa) < WORD && SignExtend(PaToVa(kind, pa)) == PaToVa(kind, pa)
    ensures VpnOf(PaToVa(kind, pa)) == Window(kind) + pa / 4096
    ensures PaToVa(kind, pa) % 4096 == pa % 4096
  {
    if kind == Linear {
      var low: nat := 0x7F_0000_0000 + pa;
      assert pa + PHYS_VIRT_OFFSET == 0x80_0000_0000 * 0x1FF_FFFF + low;
      assert (pa + PHYS_VIRT_OFFSET) / 4096 == 0xF_FFFF_FFF0_0000 + pa / 4096;
      assert 0xF_FFFF_FFF0_0000 + pa / 4096 == VPN_LIMIT * 0x1FF_FFFF + (0x7F0_0000 + pa / 4096);
    }
  }

  function AlignUp(value: nat, align: nat): nat
    requires 0 < align <= WORD
  {
    AlignDown(value + align - 1, align)
  }

  lemma AlignByConstant(value: nat, align: nat)
    requires value < PHYS_LIMIT + LARGE && (align == 4096 || align == LARGE)
    ensures align == 4096 ==> AlignDown(value, align) == value / 4096 * 4096
    ensures align == LARGE ==> AlignDown(value, align) == value / LARGE * LARGE
  {
    hide AlignDown, Pow2, TrailingZeros;
    Pow2Values();
    TrailingZerosPow2(12);
    TrailingZerosPow2(21);
    AlignDownIsGreatest(value, align, 0);
  }

  // ---------------------------------------------------------------- the plan

  /** Page numbers: small pages from `first`, large ones from `largeFrom` to `largeTo`, small ones to `last`. */
  datatype Plan = Plan(first: nat, largeFrom: nat, largeTo: nat, last: nat)

  function PlanOf(start: nat, end: nat): Plan
  {
    var first, last := start / 4096, (end + 4095) / 4096;
    var largeFrom := Min((first + 511) / 512 * 512, last);
    var largeTo := Max(last / 512 * 512, largeFrom);
    Plan(first, largeFrom, largeTo, last)
  }

  /** The entry that a segment gives the physical page `p`. */
  function Expected(plan: Plan, flags: nat, p: nat): Entry
  {
    if plan.largeFrom <= p < plan.largeTo then Mapped(1, p / 512 * 512, flags) else Mapped(0, p, flags)
  }

  /** The runs cover the pages that the bytes touch, and the middle one the 2 MB pages wholly among these. */
  lemma PlanIsExact(start: nat, end: nat)
    ensures var plan := PlanOf(start, end);
      && 4096 * plan.first <= start < 4096 * plan.first + 4096
      && end <= 4096 * plan.last < end + 4096
      && (forall p: nat :: plan.largeFrom <= p < plan.largeTo <==>
            plan.first <= p / 512 * 512 && p / 512 * 512 + 512 <= plan.last)
  {
  }

  lemma PlanFacts(start: nat, end: nat)
    ensures var plan := PlanOf(start, end);
      && plan.largeFrom <= plan.largeTo <= plan.last
      && (plan.first <= plan.last ==> plan.first <= plan.largeFrom)
      && (plan.largeFrom < plan.largeTo ==> plan.largeFrom % 512 == 0 && plan.largeTo % 512 == 0)
      && (plan.first > plan.last ==> plan.largeFrom == plan.largeTo == plan.last)
  {
    Round512(start / 4096);
    Round512((end + 4095) / 4096);
  }

  lemma Round512(x: nat)
    ensures x <= (x + 511) / 512 * 512 && (x + 511) / 512 * 512 % 512 == 0
    ensures x / 512 * 512 <= x && x / 512 * 512 % 512 == 0
    ensures forall y: nat :: y <= x && y % 512 == 0 ==> y <= x / 512 * 512
  {
  }

  /** The bounds that the code computes in bytes are those of the plan. */
  lemma BoundsArePlan(start: nat, end: nat)
    requires start <= PHYS_LIMIT && end <= PHYS_LIMIT
    ensures var plan := PlanOf(start, end);
      var pageStart, pageEnd := AlignDown(start, 4096), AlignUp(end, 4096);
      var alignedStart := Min(AlignUp(pageStart, LARGE), pageEnd);
      var alignedEnd := Max(AlignDown(pageEnd, LARGE), alignedStart);
      && pageStart == 4096 * plan.first && pageEnd == 4096 * plan.last
      && alignedStart == 4096 * plan.largeFrom && alignedEnd == 4096 * plan.largeTo
  {
    hide AlignDown;
    var plan := PlanOf(start, end);
    AlignByConstant(start, 4096);
    AlignByConstant(end + 4095, 4096);
    var pageStart, pageEnd := AlignDown(start, 4096), AlignUp(end, 4096);
    assert pageStart == 4096 * plan.first && pageEnd == 4096 * plan.last;
    AlignByConstant(pageStart + LARGE - 1, LARGE);
    AlignByConstant(pageEnd, LARGE);
    LargeInPages(plan.first);
    LargeInPages(plan.last);
    assert AlignUp(pageStart, LARGE) == 4096 * ((plan.first + 511) / 512 * 512);
    assert AlignDown(pageEnd, LARGE) == 4096 * (plan.last / 512 * 512);
  }

  lemma LargeInPages(p: nat)
    ensures (4096 * p + LARGE - 1) / LARGE * LARGE == 4096 * ((p + 511) / 512 * 512)
    ensures 4096 * p / LARGE * LARGE == 4096 * (p / 512 * 512)
  {
    assert (4096 * p) / LARGE == p / 512;
    assert (4096 * p + LARGE - 1) / LARGE == (p + 511) / 512;
  }

  // ------------------------------------------------------------- the segments

  function Target(large: bool): nat { if large then 2 else 3 }

  function LeafFor(large: bool, p: nat, flags: nat): Entry
  {
    if large then Mapped(1, p / 512 * 512, flags) else Mapped(0, p, flags)
  }

  function StepOf(large: bool): nat { if large then 512 else 1 }

  /** Page numbers `lo` up to `hi` of a window. */
  predicate InRun(kind: BootMapType, v: nat, lo: nat, hi: nat)
  {
    Window(kind) + lo <= v < Window(kind) + hi
  }

  lemma UnderInWindow(kind: BootMapType, large: bool, p: nat, v: nat, flags: nat)
    requires p < 0x10_0000 && v < VPN_LIMIT && (large ==> p % 512 == 0)
    ensures Window(kind) + p < VPN_LIMIT
    ensures Under(v, Window(kind) + p, Target(large) - 1) <==> InRun(kind, v, p, p + StepOf(large))
    ensures InRun(kind, v, p, p + StepOf(large)) ==> LeafFor(large, v - Window(kind), flags) == LeafFor(large, p, flags)
  {
  }

  /** The entry that an action leaves at the physical page `p`. */
  function After(action: MapAction, large: bool, p: nat): Entry
  {
    match action
    case Map(flags) => LeafFor(large, p, WithValid(flags))
    case Unmap => Unmapped
  }

  /** The page numbers `lo` up to `hi` of the window are as the action leaves them, all others as in `mem0`. */
  ghost predicate RunIs(mem0: Tables, mem: Tables, root: nat, kind: BootMapType, action: MapAction, large: bool,
        lo: nat, hi: nat)
  {
    forall v: nat :: v < VPN_LIMIT ==>
      Lookup(mem, root, v) ==
        if InRun(kind, v, lo, hi) then After(action, large, v - Window(kind)) else Lookup(mem0, root, v)
  }

  /** One page more. */
  lemma RunExtends(mem0: Tables, mem: Tables, mem': Tables, root: nat, kind: BootMapType, action: MapAction,
        large: bool, lo: nat, p: nat)
    requires RunIs(mem0, mem, root, kind, action, large, lo, p)
    requires lo <= p < 0x10_0000 && (large ==> p % 512 == 0)
    requires forall v: nat :: v < VPN_LIMIT ==>
               Lookup(mem', root, v) ==
                 if Under(v, Window(kind) + p, Target(large) - 1) then After(action, large, p) else Lookup(mem, root, v)
    ensures RunIs(mem0, mem', root, kind, action, large, lo, p + StepOf(large))
  {
    hide Lookup, Under, LeafFor;
    var next := p + StepOf(large);
    forall v: nat | v < VPN_LIMIT
      ensures Lookup(mem', root, v) ==
              if InRun(kind, v, lo, next) then After(action, large, v - Window(kind)) else Lookup(mem0, root, v)
    {
      UnderInWindow(kind, large, p, v, if action.Map? then WithValid(action.flags) else 0);
    }
  }

  /** What an action demands of a run: nothing mapped there, or exactly the leaves to be unmapped. */
  ghost predicate RunReady(mem: Tables, root: nat, kind: BootMapType, action: MapAction, large: bool, lo: nat,
        hi: nat, was: nat)
  {
    forall v: nat :: InRun(kind, v, lo, hi) ==>
      Lookup(mem, root, v) == if action.Map? then Unmapped else LeafFor(large, v - Window(kind), was)
  }

  lemma ReadyForPage(mem0: Tables, mem: Tables, root: nat, kind: BootMapType, action: MapAction, large: bool, lo: nat,
        p: nat, hi: nat, was: nat)
    requires RunIs(mem0, mem, root, kind, action, large, lo, p)
    requires RunReady(mem0, root, kind, action, large, lo, hi, was)
    requires lo <= p < hi <= 0x10_0000 && (large ==> p % 512 == 0 && hi % 512 == 0)
    ensures forall v: nat :: v < VPN_LIMIT && Under(v, Window(kind) + p, Target(large) - 1) ==>
              Lookup(mem, root, v) == if action.Map? then Unmapped else LeafFor(large, p, was)
    ensures Window(kind) + p < VPN_LIMIT
    ensures Lookup(mem, root, Window(kind) + p) == if action.Map? then Unmapped else LeafFor(large, p, was)
  {
    hide Lookup, Under, LeafFor;
    var vpn, d := Window(kind) + p, Target(large) - 1;
    forall v: nat | v < VPN_LIMIT && Under(v, vpn, d)
      ensures Lookup(mem, root, v) == if action.Map? then Unmapped else LeafFor(large, p, was)
    {
      UnderInWindow(kind, large, p, v, was);
    }
    UnderInWindow(kind, large, p, vpn, was);
  }

  predicate ActionOk(action: MapAction) { action.Map? ==> action.flags < 256 && HasRwx(action.flags) }

  /** The directory of the 2 MB number `k` serves a page from `lo` up to `hi` of the window. */
  predicate SlotMeets(kind: BootMapType, k: nat, lo: nat, hi: nat)
  {
    lo < hi && (Window(kind) + lo) / 512 <= k <= (Window(kind) + hi - 1) / 512
  }

  /** The directories are those of `mem0` and, for 4 KB pages newly mapped, the ones that serve the run. */
  ghost predicate RunDirs(mem0: Tables, mem: Tables, root: nat, kind: BootMapType, grow: bool, lo: nat, hi: nat)
  {
    forall v: nat :: v < VPN_LIMIT ==>
      (HasDir(mem, root, v) <==> HasDir(mem0, root, v) || (grow && SlotMeets(kind, v / 512, lo, hi)))
  }

  /** A directory hangs where a 2 MB page of the run is to go. */
  ghost predicate Hung(mem: Tables, root: nat, kind: BootMapType, lo: nat, hi: nat)
  {
    exists v: nat :: InRun(kind, v, lo, hi) && HasDir(mem, root, v)
  }

  lemma RunDirsExtend(mem0: Tables, mem: Tables, mem': Tables, root: nat, kind: BootMapType, grow: bool, lo: nat,
                      p: nat)
    requires RunDirs(mem0, mem, root, kind, grow, lo, p) && lo <= p
    requires DirsGrow(mem, mem', root, Window(kind) + p, grow)
    ensures RunDirs(mem0, mem', root, kind, grow, lo, p + 1)
    ensures !grow ==> forall q: nat :: RunDirs(mem0, mem', root, kind, grow, lo, q)
  {
    hide HasDir;
  }

  lemma RunDirsStart(mem: Tables, root: nat, kind: BootMapType, grow: bool, lo: nat, hi: nat)
    requires hi <= lo
    ensures RunDirs(mem, mem, root, kind, grow, lo, hi)
  {
  }

  lemma RunDirsEnd(mem0: Tables, mem: Tables, root: nat, kind: BootMapType, grow: bool, lo: nat, p: nat, hi: nat)
    requires RunDirs(mem0, mem, root, kind, grow, lo, p) && (p == hi || (p == lo && lo >= hi))
    ensures RunDirs(mem0, mem, root, kind, grow, lo, hi)
  {
  }

  /** No directory hangs at the start of a 2 MB page, so none hangs anywhere in it. */
  lemma NotHungExtends(mem0: Tables, mem: Tables, root: nat, kind: BootMapType, lo: nat, p: nat)
    requires !Hung(mem0, root, kind, lo, p) && RunDirs(mem0, mem, root, kind, false, lo, p)
    requires p % 512 == 0 && p < 0x10_0000 && !HasDir(mem, root, Window(kind) + p)
    ensures !Hung(mem0, root, kind, lo, p + 512)
  {
    hide HasDir;
    forall v: nat | InRun(kind, v, p, p + 512)
      ensures !HasDir(mem0, root, v)
    {
      assert v / 512 == (Window(kind) + p) / 512 && v < VPN_LIMIT;
      SameDir(mem, root, Window(kind) + p, v);
      HasDirs(mem, root, v);
      HasDirs(mem, root, Window(kind) + p);
    }
  }

  /** How many 2 MB numbers the page numbers `a` up to `b` meet. */
  function Megas(a: nat, b: nat): nat { if a < b then (b - 1) / 512 - a / 512 + 1 else 0 }

  /** How many 1 GB numbers they meet. */
  function Gigas(a: nat, b: nat): nat { if a < b then (b - 1) / 0x4_0000 - a / 0x4_0000 + 1 else 0 }

  /** The most directories that mapping the pages `lo` up to `hi` of the window hangs. */
  function RunNeed(kind: BootMapType, large: bool, lo: nat, hi: nat): nat
  {
    var a, b := Window(kind) + lo, Window(kind) + hi;
    Gigas(a, b) + if large then 0 else Megas(a, b)
  }

  lemma RunNeedGrows(kind: BootMapType, large: bool, lo: nat, p: nat, hi: nat)
    requires p <= hi
    ensures RunNeed(kind, large, lo, p) <= RunNeed(kind, large, lo, hi)
  {
    NeedMonotone(Window(kind) + lo, Window(kind) + p, Window(kind) + hi);
    hide Gigas, Megas;
  }

  lemma NeedMonotone(a: nat, b: nat, c: nat)
    requires b <= c
    ensures Gigas(a, b) <= Gigas(a, c) && Megas(a, b) <= Megas(a, c)
  {
    if a < b {
      assert (b - 1) / 512 <= (c - 1) / 512;
      assert (b - 1) / 0x4_0000 <= (c - 1) / 0x4_0000;
    }
  }

  /** A mapped page number has its directories. */
  lemma MappedHasPath(mem: Tables, root: nat, v: nat)
    requires Lookup(mem, root, v).Mapped?
    ensures PageAt(mem, root, v, 1).Some? && (Lookup(mem, root, v).level == 0 ==> HasDir(mem, root, v))
  {
    ZeroIsInvalid();
    hide HasRwx, PpnOf, FlagsOf, IsValid;
  }

  /** Page numbers in the same 1 GB share the directory of its 2 MB pages. */
  lemma SameMiddle(mem: Tables, root: nat, vpn: nat, v: nat)
    requires v / 0x4_0000 == vpn / 0x4_0000
    ensures PageAt(mem, root, v, 1) == PageAt(mem, root, vpn, 1)
  {
    SamePrefix(mem, root, vpn, v, 1);
  }

  lemma DirNeedsMiddle(mem: Tables, root: nat, v: nat)
    ensures HasDir(mem, root, v) ==> PageAt(mem, root, v, 1).Some?
  {
  }

  /** The bound grows by one with every 1 GB number, and with every 2 MB number, that is new. */
  lemma NeedGrows(a: nat, b: nat)
    requires a <= b
    ensures Gigas(a, b + 1) == Gigas(a, b) + if a < b && b / 0x4_0000 == (b - 1) / 0x4_0000 then 0 else 1
    ensures Megas(a, b + 1) == Megas(a, b) + if a < b && b / 512 == (b - 1) / 512 then 0 else 1
  {
  }

  lemma LargeNeedGrows(a: nat, b: nat)
    requires a <= b && a % 512 == 0 && b % 512 == 0
    ensures Gigas(a, b + 512) == Gigas(a, b) + if a < b && b / 0x4_0000 == (b - 512) / 0x4_0000 then 0 else 1
  {
    LargeStep(b);
    if a < b {
      LargeStep(b - 512);
      assert (b - 512) / 0x4_0000 <= b / 0x4_0000 <= (b - 512) / 0x4_0000 + 1;
    }
  }

  /** What the next page of a run misses, seen from the page before. */
  lemma MissingAfter(mem: Tables, root: nat, prev: nat, v: nat, target: nat)
    requires Lookup(mem, root, prev).Mapped? && 2 <= target <= 3
    requires target == 3 ==> Lookup(mem, root, prev).level == 0
    ensures Missing(mem, root, v, target) <=
              (if v / 0x4_0000 == prev / 0x4_0000 then 0 else 1) +
              (if target == 2 || v / 512 == prev / 512 then 0 else 1)
  {
    MappedHasPath(mem, root, prev);
    DirNeedsMiddle(mem, root, v);
    hide Lookup, PageAt;
    if v / 0x4_0000 == prev / 0x4_0000 {
      SameMiddle(mem, root, prev, v);
    }
    if v / 512 == prev / 512 {
      SameDir(mem, root, prev, v);
    }
  }

  /** The next page of a run misses only directories that the bound allows for. */
  lemma NeedNext(mem0: Tables, mem: Tables, root: nat, kind: BootMapType, action: MapAction, large: bool, lo: nat,
                 p: nat)
    requires action.Map? && RunIs(mem0, mem, root, kind, action, large, lo, p)
    requires lo <= p < 0x10_0000 && (large ==> p % 512 == 0 && lo % 512 == 0)
    ensures Missing(mem, root, Window(kind) + p, Target(large)) + RunNeed(kind, large, lo, p) <=
              RunNeed(kind, large, lo, p + StepOf(large))
  {
    hide Lookup, Gigas, Megas, Missing, RunIs;
    if p > lo {
      MappedBefore(mem0, mem, root, kind, action, large, lo, p);
    }
    if large {
      NeedNextLarge(mem, root, Window(kind) + lo, Window(kind) + p);
    } else {
      NeedNextSmall(mem, root, Window(kind) + lo, Window(kind) + p);
    }
  }

  lemma NeedNextSmall(mem: Tables, root: nat, a: nat, v: nat)
    requires a <= v && (a < v ==> Lookup(mem, root, v - 1).Mapped? && Lookup(mem, root, v - 1).level == 0)
    ensures Missing(mem, root, v, 3) + Gigas(a, v) + Megas(a, v) <= Gigas(a, v + 1) + Megas(a, v + 1)
  {
    MissingBound(mem, root, v, 3);
    hide Lookup, Gigas, Megas, Missing;
    NeedGrows(a, v);
    if a < v {
      MissingAfter(mem, root, v - 1, v, 3);
    }
  }

  lemma NeedNextLarge(mem: Tables, root: nat, a: nat, v: nat)
    requires a <= v && a % 512 == 0 && v % 512 == 0 && (a < v ==> Lookup(mem, root, v - 512).Mapped?)
    ensures Missing(mem, root, v, 2) + Gigas(a, v) <= Gigas(a, v + 512)
  {
    MissingBound(mem, root, v, 2);
    hide Lookup, Gigas, Missing;
    LargeNeedGrows(a, v);
    if a < v {
      MissingAfter(mem, root, v - 512, v, 2);
    }
  }

  lemma MissingBound(mem: Tables, root: nat, v: nat, target: nat)
    ensures Missing(mem, root, v, target) <= if target == 3 then 2 else 1
  {
  }

  /** The page before is mapped, at the level of the run. */
  lemma MappedBefore(mem0: Tables, mem: Tables, root: nat, kind: BootMapType, action: MapAction, large: bool, lo: nat,
                     p: nat)
    requires action.Map? && RunIs(mem0, mem, root, kind, action, large, lo, p)
    requires lo < p < 0x10_0000 && (large ==> p % 512 == 0 && lo % 512 == 0)
    ensures var prev := Window(kind) + p - StepOf(large);
      prev >= 0 && Lookup(mem, root, prev).Mapped? && Lookup(mem, root, prev).level == if large then 1 else 0
  {
    hide Lookup;
    assert InRun(kind, Window(kind) + p - StepOf(large), lo, p);
  }

  lemma LargeStep(v: nat)
    requires v % 512 == 0
    ensures (v + 511) / 0x4_0000 == v / 0x4_0000
  {
    assert (v + 511) / 512 == v / 512;
    assert (v + 511) / 0x4_0000 == (v + 511) / 512 / 512 && v / 0x4_0000 == v / 512 / 512;
  }

  /** A run on which a map has succeeded so far, one page more. */
  lemma ReadyExtends(mem0: Tables, mem: Tables, root: nat, kind: BootMapType, action: MapAction, large: bool, lo: nat,
                     p: nat, was: nat)
    requires action.Map? && RunReady(mem0, root, kind, action, large, lo, p, was)
    requires RunIs(mem0, mem, root, kind, action, large, lo, p)
    requires lo <= p < 0x10_0000 && (large ==> p % 512 == 0)
    requires forall v: nat :: v < VPN_LIMIT && Under(v, Window(kind) + p, Target(large) - 1) ==>
               Lookup(mem, root, v) == Unmapped
    ensures RunReady(mem0, root, kind, action, large, lo, p + StepOf(large), was)
  {
    hide Lookup, Under;
    var next := p + StepOf(large);
    forall v: nat | InRun(kind, v, lo, next)
      ensures Lookup(mem0, root, v) == Unmapped
    {
      if !InRun(kind, v, lo, p) {
        UnderInWindow(kind, large, p, v, 0);
      }
    }
  }

  /** Applies the action to one page. */
  method Apply(pt: PageTable, kind: BootMapType, action: MapAction, large: bool, pa: nat, ghost was: nat)
        returns (r: Outcome)
    requires pt.Valid() && ActionOk(action) && pa % 4096 == 0 && pa < PHYS_LIMIT && (large ==> pa / 4096 % 512 == 0)
    requires action.Unmap? ==> forall v: nat ::
               v < VPN_LIMIT && Under(v, Window(kind) + pa / 4096, Target(large) - 1) ==>
                 Lookup(pt.tables, pt.root, v) == LeafFor(large, pa / 4096, was)
    modifies pt, pt.memory`log, pt.memory.available, pt.memory.available.regions
    modifies pt.memory.allotted, pt.memory.allotted.regions
    ensures action.Unmap? ==> r == Done
    ensures r == Done || Exhausted(r) || r == AlreadyMapped || r == InsideLargePage
    ensures action.Map? && old(Lookup(pt.tables, pt.root, Window(kind) + pa / 4096)) == Unmapped ==>
              && r != InsideLargePage
              && (r == AlreadyMapped ==> large && old(HasDir(pt.tables, pt.root, Window(kind) + pa / 4096)))
              && (r == Done && large ==> !old(HasDir(pt.tables, pt.root, Window(kind) + pa / 4096)))
    ensures action.Map? && r == Done ==>
              forall v: nat :: v < VPN_LIMIT && Under(v, Window(kind) + pa / 4096, Target(large) - 1) ==>
                old(Lookup(pt.tables, pt.root, v)) == Unmapped
    ensures pt.Why(r) && M.TookPages(old(pt.memory.log), pt.memory.log)
    ensures |pt.memory.log.calls| <= |old(pt.memory.log.calls)| +
              if action.Map? then Missing(old(pt.tables), pt.root, Window(kind) + pa / 4096, Target(large)) else 0
    ensures r == Done ==> pt.Valid()
    ensures r == Done ==> forall v: nat :: v < VPN_LIMIT ==>
              Lookup(pt.tables, pt.root, v) ==
                if Under(v, Window(kind) + pa / 4096, Target(large) - 1) then After(action, large, pa / 4096)
                else old(Lookup(pt.tables, pt.root, v))
    ensures r == Done ==>
              DirsGrow(old(pt.tables), pt.tables, pt.root, Window(kind) + pa / 4096, action.Map? && !large)
  {
    hide Tree, Owned, Lookup, DirsGrow, HasDir, HasRwx, Under, PageTable.MemoryOk, PageTable.Why, PteAt, VpnOf,
         SignExtend, PaToVa, Missing, M.TookPages;
    PaToVaIsWindow(kind, pa);
    var vpn := VpnOf(SignExtend(PaToVa(kind, pa)));
    UnderSelf(vpn, Target(large) - 1);
    match action
    case Map(flags) =>
      r := pt.BumpMap(vpn, pa / 4096, flags, Target(large));
    case Unmap =>
      M.TookNone(pt.memory.log);
      r := pt.Unmap(vpn, Target(large));
      NoFailure(pt, r);
  }

  /**
   One of the three loops: the pages `lo` up to `hi`, all of one size. A map that does not
   run out of directories succeeds exactly if nothing is mapped in the run and no directory
   hangs where a 2 MB page is to go.
   */
  method ApplyRun(pt: PageTable, kind: BootMapType, action: MapAction, large: bool, lo: nat, hi: nat,
        ghost was: nat) returns (r: Outcome)
    requires pt.Valid() && ActionOk(action)
    requires hi <= 0x10_0000 && (large && lo < hi ==> lo % 512 == 0 && hi % 512 == 0)
    requires action.Unmap? ==> RunReady(pt.tables, pt.root, kind, action, large, lo, hi, was)
    modifies pt, pt.memory`log, pt.memory.available, pt.memory.available.regions
    modifies pt.memory.allotted, pt.memory.allotted.regions
    ensures action.Unmap? ==> r == Done
    ensures r == Done || Exhausted(r) || r == AlreadyMapped || r == InsideLargePage
    ensures action.Map? ==>
              if RunReady(old(pt.tables), pt.root, kind, action, large, lo, hi, was) &&
                 !(large && Hung(old(pt.tables), pt.root, kind, lo, hi))
              then r == Done || Exhausted(r) else r != Done
    ensures RunReady(old(pt.tables), pt.root, kind, action, large, lo, hi, was) ==> r != InsideLargePage
    ensures pt.Why(r) && M.TookPages(old(pt.memory.log), pt.memory.log)
    ensures |pt.memory.log.calls| <=
              |old(pt.memory.log.calls)| + if action.Map? then RunNeed(kind, large, lo, hi) else 0
    ensures r == Done ==> pt.Valid()
    ensures r == Done ==> RunIs(old(pt.tables), pt.tables, pt.root, kind, action, large, lo, hi)
    ensures r == Done ==> RunDirs(old(pt.tables), pt.tables, pt.root, kind, action.Map? && !large, lo, hi)
  {
    hide RunIs, RunReady, Lookup, ActionOk, PageTable.Valid, PageTable.Why, Under, RunDirs, DirsGrow, HasDir, Hung,
         Missing, RunNeed, M.TookPages;
    EmptyRun(pt.tables, pt.root, kind, action, large, lo);
    EmptyReady(pt.tables, pt.root, kind, action, large, lo, lo, was);
    RunDirsStart(pt.tables, pt.root, kind, action.Map? && !large, lo, lo);
    NothingHung(pt.tables, pt.root, kind, lo, lo);
    M.TookNone(pt.memory.log);
    RunNeedStart(kind, large, lo);
    ghost var calls := |pt.memory.log.calls|;
    ghost var mem0, grow := pt.tables, action.Map? && !large;
    ghost var ready := RunReady(mem0, pt.root, kind, action, large, lo, hi, was);
    var pa := 4096 * lo;
    ghost var p := lo;
    while pa < 4096 * hi
      invariant pt.Valid() && M.TookPages(old(pt.memory.log), pt.memory.log)
      invariant pa == 4096 * p && lo <= p && (p <= hi || p == lo) && (large && lo < hi ==> p % 512 == 0)
      invariant RunIs(mem0, pt.tables, pt.root, kind, action, large, lo, p)
      invariant RunDirs(mem0, pt.tables, pt.root, kind, grow, lo, p)
      invariant action.Map? ==> RunReady(mem0, pt.root, kind, action, large, lo, p, was)
      invariant action.Map? && large ==> !Hung(mem0, pt.root, kind, lo, p)
      invariant |pt.memory.log.calls| <= calls + if action.Map? then RunNeed(kind, large, lo, p) else 0
      decreases 4096 * hi - pa
    {
      if ready {
        ReadyForPage(mem0, pt.tables, pt.root, kind, action, large, lo, p, hi, was);
      }
      ghost var mem, log := pt.tables, pt.memory.log;
      if action.Map? {
        NeedNext(mem0, mem, pt.root, kind, action, large, lo, p);
        RunNeedGrows(kind, large, lo, p + StepOf(large), hi);
      }
      r := Apply(pt, kind, action, large, pa, was);
      M.TookMore(old(pt.memory.log), log, pt.memory.log);
      if r != Done {
        if r == AlreadyMapped && ready {
          HungHere(mem0, mem, pt.root, kind, lo, p, hi);
        }
        return;
      }
      RunExtends(mem0, mem, pt.tables, pt.root, kind, action, large, lo, p);
      RunDirsExtend(mem0, mem, pt.tables, pt.root, kind, grow, lo, p);
      if action.Map? {
        UnderStart(kind, large, p);
        ReadyExtends(mem0, mem, pt.root, kind, action, large, lo, p, was);
        if large {
          NotHungExtends(mem0, mem, pt.root, kind, lo, p);
        }
      }
      pa := pa + (if large then LARGE else 4096);
      p := p + StepOf(large);
    }
    RunEnds(mem0, pt.tables, pt.root, kind, action, large, lo, p, hi);
    RunDirsEnd(mem0, pt.tables, pt.root, kind, grow, lo, p, hi);
    RunNeedEnd(kind, large, lo, p, hi);
    if lo >= hi {
      NothingHung(mem0, pt.root, kind, lo, hi);
      EmptyReady(mem0, pt.root, kind, action, large, lo, hi, was);
    }
    r := Done;
    NoFailure(pt, r);
  }

  lemma RunNeedStart(kind: BootMapType, large: bool, lo: nat)
    ensures RunNeed(kind, large, lo, lo) == 0
  {
  }

  lemma RunNeedEnd(kind: BootMapType, large: bool, lo: nat, p: nat, hi: nat)
    requires p == hi || (p == lo && lo >= hi)
    ensures RunNeed(kind, large, lo, p) == RunNeed(kind, large, lo, hi)
  {
  }

  lemma UnderStart(kind: BootMapType, large: bool, p: nat)
    requires p < 0x10_0000
    ensures Window(kind) + p < VPN_LIMIT && Under(Window(kind) + p, Window(kind) + p, Target(large) - 1)
  {
  }

  lemma EmptyReady(mem: Tables, root: nat, kind: BootMapType, action: MapAction, large: bool, lo: nat, hi: nat,
                   was: nat)
    requires hi <= lo
    ensures RunReady(mem, root, kind, action, large, lo, hi, was)
  {
  }

  lemma NothingHung(mem: Tables, root: nat, kind: BootMapType, lo: nat, hi: nat)
    requires hi <= lo
    ensures !Hung(mem, root, kind, lo, hi)
  {
  }

  lemma HungHere(mem0: Tables, mem: Tables, root: nat, kind: BootMapType, lo: nat, p: nat, hi: nat)
    requires RunDirs(mem0, mem, root, kind, false, lo, p) && lo <= p < hi <= 0x10_0000
    requires HasDir(mem, root, Window(kind) + p)
    ensures Hung(mem0, root, kind, lo, hi)
  {
    hide HasDir;
    assert InRun(kind, Window(kind) + p, lo, hi);
  }

  lemma EmptyRun(mem: Tables, root: nat, kind: BootMapType, action: MapAction, large: bool, lo: nat)
    ensures RunIs(mem, mem, root, kind, action, large, lo, lo)
  {
  }

  lemma RunEnds(mem0: Tables, mem: Tables, root: nat, kind: BootMapType, action: MapAction, large: bool, lo: nat,
        p: nat, hi: nat)
    requires RunIs(mem0, mem, root, kind, action, large, lo, p) && (p == hi || (p == lo && lo >= hi))
    ensures RunIs(mem0, mem, root, kind, action, large, lo, hi)
  {
  }

  /** The segment's pages in the window are as the action leaves them; every other page number is as before. */
  ghost predicate SegmentIs(mem0: Tables, mem: Tables, root: nat, kind: BootMapType, action: MapAction, plan: Plan)
  {
    forall v: nat :: v < VPN_LIMIT ==>
      Lookup(mem, root, v) ==
        if InRun(kind, v, plan.first, plan.last)
        then (if action.Map? then Expected(plan, WithValid(action.flags), v - Window(kind)) else Unmapped)
        else Lookup(mem0, root, v)
  }

  /** Nothing is mapped in the segment, or exactly what mapping it with flags `was` put there. */
  ghost predicate SegmentReady(mem: Tables, root: nat, kind: BootMapType, action: MapAction, plan: Plan, was: nat)
  {
    forall v: nat :: InRun(kind, v, plan.first, plan.last) ==>
      Lookup(mem, root, v) == if action.Map? then Unmapped else Expected(plan, was, v - Window(kind))
  }

  /** A segment is ready exactly if its three runs are. */
  lemma ReadyForRuns(mem: Tables, root: nat, kind: BootMapType, action: MapAction, start: nat, end: nat, was: nat)
    ensures var plan := PlanOf(start, end);
      SegmentReady(mem, root, kind, action, plan, was) <==>
        && RunReady(mem, root, kind, action, false, plan.first, plan.largeFrom, was)
        && RunReady(mem, root, kind, action, true, plan.largeFrom, plan.largeTo, was)
        && RunReady(mem, root, kind, action, false, plan.largeTo, plan.last, was)
  {
    hide Lookup, PlanOf;
    PlanFacts(start, end);
  }

  /** A run below another one changes nothing about whether that is ready. */
  lemma ReadyStays(mem0: Tables, mem: Tables, root: nat, kind: BootMapType, action: MapAction,
                   large: bool, lo: nat, hi: nat, large': bool, lo': nat, hi': nat, was: nat)
    requires RunIs(mem0, mem, root, kind, action, large, lo, hi)
    requires hi <= lo' && hi' <= 0x10_0000
    ensures RunReady(mem, root, kind, action, large', lo', hi', was) <==>
              RunReady(mem0, root, kind, action, large', lo', hi', was)
  {
    hide Lookup;
  }

  lemma ThreeRuns(mem0: Tables, mem1: Tables, mem2: Tables, mem3: Tables, root: nat, kind: BootMapType,
        action: MapAction, start: nat, end: nat)
    requires var plan := PlanOf(start, end);
      && RunIs(mem0, mem1, root, kind, action, false, plan.first, plan.largeFrom)
      && RunIs(mem1, mem2, root, kind, action, true, plan.largeFrom, plan.largeTo)
      && RunIs(mem2, mem3, root, kind, action, false, plan.largeTo, plan.last)
    ensures SegmentIs(mem0, mem3, root, kind, action, PlanOf(start, end))
  {
    hide Lookup, PlanOf;
    PlanFacts(start, end);
  }

  /** The directories are those of `mem0` and, for a map, those that serve its 4 KB pages. */
  ghost predicate SegmentDirs(mem0: Tables, mem: Tables, root: nat, kind: BootMapType, action: MapAction, plan: Plan)
  {
    forall v: nat :: v < VPN_LIMIT ==>
      (HasDir(mem, root, v) <==>
         HasDir(mem0, root, v) ||
         (action.Map? && (SlotMeets(kind, v / 512, plan.first, plan.largeFrom) ||
                          SlotMeets(kind, v / 512, plan.largeTo, plan.last))))
  }

  lemma ThreeDirs(mem0: Tables, mem1: Tables, mem2: Tables, mem3: Tables, root: nat, kind: BootMapType,
                  action: MapAction, plan: Plan)
    requires RunDirs(mem0, mem1, root, kind, action.Map?, plan.first, plan.largeFrom)
    requires RunDirs(mem1, mem2, root, kind, false, plan.largeFrom, plan.largeTo)
    requires RunDirs(mem2, mem3, root, kind, action.Map?, plan.largeTo, plan.last)
    ensures SegmentDirs(mem0, mem3, root, kind, action, plan)
  {
    hide HasDir;
  }

  /** The 4 KB pages before the large ones hang no directory among them. */
  lemma HeadHangsNothing(mem0: Tables, mem1: Tables, root: nat, kind: BootMapType, grow: bool, start: nat, end: nat)
    requires end <= PHYS_LIMIT
    requires RunDirs(mem0, mem1, root, kind, grow, PlanOf(start, end).first, PlanOf(start, end).largeFrom)
    ensures var plan := PlanOf(start, end);
      Hung(mem1, root, kind, plan.largeFrom, plan.largeTo) <==> Hung(mem0, root, kind, plan.largeFrom, plan.largeTo)
  {
    PlanFacts(start, end);
    LastIsBounded(start, end);
    hide HasDir, PlanOf;
    var plan := PlanOf(start, end);
    forall v: nat | InRun(kind, v, plan.largeFrom, plan.largeTo)
      ensures HasDir(mem1, root, v) <==> HasDir(mem0, root, v)
    {
      HeadMisses(kind, plan.first, plan.largeFrom, v);
    }
  }

  lemma HeadMisses(kind: BootMapType, first: nat, from: nat, v: nat)
    requires from % 512 == 0 && Window(kind) + from <= v
    ensures !SlotMeets(kind, v / 512, first, from)
  {
    var k := (Window(kind) + from) / 512;
    assert Window(kind) + from == 512 * k;
    if first < from {
      assert (Window(kind) + from - 1) / 512 == k - 1;
    }
  }

  /** The most directories that mapping a segment hangs. */
  function PlanNeed(kind: BootMapType, plan: Plan): nat
  {
    RunNeed(kind, false, plan.first, plan.largeFrom) + RunNeed(kind, true, plan.largeFrom, plan.largeTo) +
    RunNeed(kind, false, plan.largeTo, plan.last)
  }

  /**
   Maps or unmaps the pages from `start` up to `end`. A map that does not run out of
   directories succeeds, changing exactly the segment, if and only if nothing is mapped in
   it and no directory hangs where one of its 2 MB pages is to go. An unmap undoes a map of
   the same segment and keeps the directories.
   */
  method MapSegment(start: nat, end: nat, pt: PageTable, kind: BootMapType, action: MapAction, ghost was: nat)
        returns (r: Outcome)
    requires pt.Valid() && ActionOk(action) && start <= PHYS_LIMIT && end <= PHYS_LIMIT
    requires action.Unmap? ==> SegmentReady(pt.tables, pt.root, kind, action, PlanOf(start, end), was)
    modifies pt, pt.memory`log, pt.memory.available, pt.memory.available.regions
    modifies pt.memory.allotted, pt.memory.allotted.regions
    ensures action.Unmap? ==> r == Done
    ensures r == Done || Exhausted(r) || r == AlreadyMapped || r == InsideLargePage
    ensures action.Map? ==>
              var plan := PlanOf(start, end);
              if SegmentReady(old(pt.tables), pt.root, kind, action, plan, was) &&
                 !Hung(old(pt.tables), pt.root, kind, plan.largeFrom, plan.largeTo)
              then r == Done || Exhausted(r) else r != Done
    ensures SegmentReady(old(pt.tables), pt.root, kind, action, PlanOf(start, end), was) ==> r != InsideLargePage
    ensures pt.Why(r) && M.TookPages(old(pt.memory.log), pt.memory.log)
    ensures |pt.memory.log.calls| <=
              |old(pt.memory.log.calls)| + if action.Map? then PlanNeed(kind, PlanOf(start, end)) else 0
    ensures M.Enough(old(pt.memory.log), old(pt.memory.State()), PlanNeed(kind, PlanOf(start, end))) ==> !Exhausted(r)
    ensures r == Done ==> pt.Valid()
    ensures r == Done ==> SegmentIs(old(pt.tables), pt.tables, pt.root, kind, action, PlanOf(start, end))
    ensures r == Done ==> SegmentDirs(old(pt.tables), pt.tables, pt.root, kind, action, PlanOf(start, end))
  {
    hide RunIs, RunReady, SegmentIs, SegmentReady, Lookup, ActionOk, PageTable.Valid, PageTable.Why, AlignDown,
         AlignUp, PlanOf, RunDirs, SegmentDirs, Hung, RunNeed, M.TookPages,
         M.Enough, M.LogOk;
    HistoryOf(pt);
    ghost var log, state, need := pt.memory.log, pt.memory.State(), PlanNeed(kind, PlanOf(start, end));
    var pageStart, pageEnd := AlignDown(start, 4096), AlignUp(end, 4096);
    BoundsArePlan(start, end);
    PlanFacts(start, end);
    ghost var plan := PlanOf(start, end);
    LastIsBounded(start, end);
    var alignedStart := Min(AlignUp(pageStart, LARGE), pageEnd);
    var alignedEnd := Max(AlignDown(pageEnd, LARGE), alignedStart);
    ReadyForRuns(pt.tables, pt.root, kind, action, start, end, was);
    ghost var mem0 := pt.tables;
    r := ApplyRun(pt, kind, action, false, pageStart / 4096, Min(alignedStart, pageEnd) / 4096, was);
    NotExhausted(pt, log, state, need, r);
    if r != Done { return; }
    ghost var mem1, log1 := pt.tables, pt.memory.log;
    ReadyStays(mem0, mem1, pt.root, kind, action, false, plan.first, plan.largeFrom,
               true, plan.largeFrom, plan.largeTo, was);
    ReadyStays(mem0, mem1, pt.root, kind, action, false, plan.first, plan.largeFrom,
               false, plan.largeTo, plan.last, was);
    HeadHangsNothing(mem0, mem1, pt.root, kind, action.Map?, start, end);
    var midEnd := Min(alignedEnd, pageEnd);
    r := ApplyRun(pt, kind, action, true, alignedStart / 4096, midEnd / 4096, was);
    ghost var mem2, log2 := pt.tables, pt.memory.log;
    M.TookMore(old(pt.memory.log), log1, log2);
    NotExhausted(pt, log, state, need, r);
    if r != Done { return; }
    ReadyStays(mem1, mem2, pt.root, kind, action, true, plan.largeFrom, plan.largeTo,
               false, plan.largeTo, plan.last, was);
    r := ApplyRun(pt, kind, action, false, midEnd / 4096, pageEnd / 4096, was);
    M.TookMore(old(pt.memory.log), log2, pt.memory.log);
    NotExhausted(pt, log, state, need, r);
    if r != Done { return; }
    ThreeRuns(mem0, mem1, mem2, pt.tables, pt.root, kind, action, start, end);
    ThreeDirs(mem0, mem1, mem2, pt.tables, pt.root, kind, action, plan);
  }

  lemma LastIsBounded(start: nat, end: nat)
    requires end <= PHYS_LIMIT
    ensures PlanOf(start, end).last <= 0x10_0000
  {
  }

  // ------------------------------------------------------- what addresses mean

  /** An address whose page number is mapped as expected translates as intended. */
  lemma ExpectedTranslates(mem: Tables, slot: map<nat, Slot>, root: nat, kind: BootMapType, plan: Plan, flags: nat,
                           pa: nat)
    requires Tree(mem, slot, root) && flags < 256 && pa < PHYS_LIMIT
    requires Lookup(mem, root, VpnOf(PaToVa(kind, pa))) == Expected(plan, WithValid(flags), pa / 4096)
    ensures Translate(mem, root, PaToVa(kind, pa)) == if LegalLeaf(flags) then Some((pa, WithValid(flags))) else None
  {
    hide Lookup, Walk, Tree, LegalLeaf, WithValid;
    PaToVaIsWindow(kind, pa);
    var va := PaToVa(kind, pa);
    WalkFindsLookup(mem, slot, root, VpnOf(va));
    ValidFlags(flags);
    PageOfLarge(kind, pa / 4096);
    assert pa / 4096 * 4096 + pa % 4096 == pa;
  }

  lemma PageOfLarge(kind: BootMapType, p: nat)
    ensures p / 512 * 512 + (Window(kind) + p) % 512 == p
  {
  }

  /** Addresses outside the segment's window pages translate as before. */
  lemma OthersTranslateAsBefore(mem0: Tables, slot0: map<nat, Slot>, mem: Tables, slot: map<nat, Slot>, root: nat,
                                kind: BootMapType, action: MapAction, plan: Plan, va: nat)
    requires Tree(mem0, slot0, root) && Tree(mem, slot, root) && SegmentIs(mem0, mem, root, kind, action, plan)
    requires !InRun(kind, VpnOf(va), plan.first, plan.last)
    ensures Translate(mem, root, va) == Translate(mem0, root, va)
  {
    hide Lookup, Walk, Tree;
    WalkFindsLookup(mem0, slot0, root, VpnOf(va));
    WalkFindsLookup(mem, slot, root, VpnOf(va));
  }

  /** Mapping a segment makes it ready to be unmapped, and unmapping it restores every translation. */
  lemma UnmapInvertsMap(mem0: Tables, slot0: map<nat, Slot>, mem1: Tables, mem2: Tables, slot2: map<nat, Slot>,
                        root: nat, kind: BootMapType, flags: nat, start: nat, end: nat, va: nat)
    requires Tree(mem0, slot0, root) && Tree(mem2, slot2, root) && flags < 256 && end <= PHYS_LIMIT
    requires SegmentReady(mem0, root, kind, Map(flags), PlanOf(start, end), 0)
    requires SegmentIs(mem0, mem1, root, kind, Map(flags), PlanOf(start, end))
    ensures SegmentReady(mem1, root, kind, Unmap, PlanOf(start, end), WithValid(flags))
    ensures SegmentIs(mem1, mem2, root, kind, Unmap, PlanOf(start, end)) ==>
              Translate(mem2, root, va) == Translate(mem0, root, va)
  {
    hide Lookup, Walk, Tree, PlanOf;
    LastIsBounded(start, end);
    WalkFindsLookup(mem0, slot0, root, VpnOf(va));
    WalkFindsLookup(mem2, slot2, root, VpnOf(va));
  }

}
