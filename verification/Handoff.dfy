/**
 The handoff from the boot-time allocator to the buddy allocator: the pages wholly inside
 available memory, and no others, become free.
 */
module Handoff {
  import opened Blocks
  import opened Regions
  import M = Memblock
  import B = Buddy
  import S = BuddySpec

  datatype PageState = Reserved | Free | Slab | PageTable

  datatype Page = Page(refCount: nat, state: PageState)

  /** Page `p` lies wholly inside the byte set. */
  ghost predicate Inside(bytes: set<nat>, p: nat)
  {
    Range(p * 4096, 4096) <= bytes
  }

  /** The pages of one region: the first partial page is dropped, and so is the last. */
  function CeilPage(a: nat): nat { (a + 4095) / 4096 }

  function FloorPage(a: nat): nat { a / 4096 }

  predicate InRegion(r: MemRegion, p: nat) { CeilPage(r.base) <= p < FloorPage(r.End()) }

  ghost predicate InRegions(s: seq<MemRegion>, n: nat, p: nat)
  {
    exists j :: 0 <= j < n <= |s| && InRegion(s[j], p)
  }

  /** A page is inside the covered bytes exactly if one region gives it. */
  lemma InsideIsInRegion(s: seq<MemRegion>, p: nat)
    requires Separated(s)
    ensures Inside(Bytes(s), p) <==> InRegions(s, |s|, p)
  {
    hide Bytes, Range, In;
    if Inside(Bytes(s), p) {
      var k := RunInOneRegion(s, p * 4096, 4096);
      assert InRegion(s[k], p);
    }
    if InRegions(s, |s|, p) {
      var j :| 0 <= j < |s| && InRegion(s[j], p);
      RegionIsIn(s, j);
      assert Range(p * 4096, 4096) <= Range(s[j].base, s[j].size);
    }
  }

  /** Regions a byte apart leave a page between their pages. */
  lemma PageGap(r: MemRegion, t: MemRegion)
    requires r.End() < t.base
    ensures FloorPage(r.End()) < CeilPage(t.base)
  {
  }

  lemma GapBefore(s: seq<MemRegion>, n: nat, p: nat)
    requires Separated(s) && n < |s| && CeilPage(s[n].base) - 1 <= p
    ensures !InRegions(s, n, p)
  {
    forall j | 0 <= j < n
      ensures !InRegion(s[j], p)
    {
      PageGap(s[j], s[n]);
    }
  }

  lemma NextRegion(s: seq<MemRegion>, n: nat, p: nat)
    requires n < |s|
    ensures InRegions(s, n + 1, p) <==> InRegions(s, n, p) || InRegion(s[n], p)
  {
  }

  /** Every page of a region that lies in RAM has an index in the page map. */
  lemma RegionInMap(s: seq<MemRegion>, n: nat, ramBase: nat, ramEnd: nat)
    requires Separated(s) && n < |s| && 0 < ramBase <= ramEnd && Bytes(s) <= Range(ramBase, ramEnd - ramBase)
    ensures ramBase / 4096 <= CeilPage(s[n].base) && FloorPage(s[n].End()) <= ramEnd / 4096 && 0 < CeilPage(s[n].base)
  {
    hide Bytes, Range;
    RegionIsIn(s, n);
    assert Holds(s[n], s[n].End() - 1) && s[n].End() - 1 in Bytes(s);
  }

  /** The pages marked free are those at `lo` up to `hi`, and those that were free before. */
  method MarkFree(pages: array<Page>, lo: nat, hi: nat, ramStart: nat)
    requires ramStart <= lo && (lo < hi ==> hi - ramStart <= pages.Length)
    modifies pages
    ensures forall i :: 0 <= i < pages.Length ==>
              pages[i] == if lo <= ramStart + i < hi then Page(0, Free) else old(pages[i])
  {
    var p := lo;
    while p < hi
      invariant lo <= p && (p <= hi || p == lo)
      invariant forall i :: 0 <= i < pages.Length ==>
                  pages[i] == if lo <= ramStart + i < p then Page(0, Free) else old(pages[i])
    {
      pages[p - ramStart] := Page(0, Free);
      p := p + 1;
    }
  }

  method MarkReserved(pages: array<Page>)
    modifies pages
    ensures forall i :: 0 <= i < pages.Length ==> pages[i] == Page(1, Reserved)
  {
    var k := 0;
    while k < pages.Length
      invariant 0 <= k <= pages.Length
      invariant forall i :: 0 <= i < k ==> pages[i] == Page(1, Reserved)
    {
      pages[k] := Page(1, Reserved);
      k := k + 1;
    }
  }

  lemma NothingCovered(s: seq<MemRegion>, p: nat)
    ensures !Covers({}, p) && !InRegions(s, 0, p)
  {
  }

  /**
   Marks every page reserved, then hands the pages of the available regions to the buddy
   allocator. Afterwards the free pages are those wholly inside available memory, and they
   are the pages that the page map marks free.
   */
  method InitBuddySystem(mb: M.MemblockAllocator, buddy: B.BuddySystemFrameAllocator, memMap: array<Page>,
        ramBase: nat, ramEnd: nat)
    requires mb.Valid() && 0 < ramBase <= ramEnd && mb.State().available <= Range(ramBase, ramEnd - ramBase)
    requires buddy.Ready() && buddy.State() == S.BuddyState({}, {})
    requires memMap.Length == ramEnd / 4096 - ramBase / 4096
    modifies buddy, buddy.heads, memMap
    ensures buddy.Ready() && buddy.out == {}
    ensures forall p: nat :: Covers(buddy.free, p) <==> Inside(mb.State().available, p)
    ensures forall i :: 0 <= i < memMap.Length ==>
              memMap[i] == if Covers(buddy.free, ramBase / 4096 + i) then Page(0, Free) else Page(1, Reserved)
  {
    hide B.Represents, B.Enumerates, Separated, Bytes, Range, In, InRegions, Total, Inside, Managed, PairwiseDisjoint,
          S.Inv, Covers;
    var ramStart := ramBase / 4096;
    MarkReserved(memMap);
    ghost var s := mb.available.View();
    forall p: nat
      ensures !Covers({}, p) && !InRegions(s, 0, p)
    {
      NothingCovered(s, p);
    }
    var i := 0;
    while i < mb.available.count
      invariant 0 <= i <= |s| && mb.Valid() && mb.available.View() == s
      invariant buddy.Ready() && buddy.out == {}
      invariant forall p: nat :: Covers(buddy.free, p) <==> InRegions(s, i, p)
      invariant forall j :: 0 <= j < memMap.Length ==>
                  memMap[j] == if InRegions(s, i, ramStart + j) then Page(0, Free) else Page(1, Reserved)
    {
      var region := mb.available.regions[i];
      var startPpn := CeilPage(region.base);
      var endPpn := FloorPage(region.End());
      RegionInMap(s, i, ramBase, ramEnd);
      MarkFree(memMap, startPpn, endPpn, ramStart);
      ghost var next := i + 1;
      forall p: nat
        ensures startPpn - 1 <= p ==> !InRegions(s, i, p)
        ensures InRegions(s, next, p) <==> InRegions(s, i, p) || InRegion(s[i], p)
      {
        if startPpn - 1 <= p { GapBefore(s, i, p); }
        NextRegion(s, i, p);
      }
      ghost var f := buddy.free;
      buddy.AddFreeRegion(startPpn, endPpn);
      forall p: nat
        ensures Covers(buddy.free, p) <==> InRegions(s, next, p)
      {
        assert Covers(f, p) <==> InRegions(s, i, p);
      }
      i := i + 1;
    }
    forall p: nat
      ensures Inside(Bytes(s), p) <==> InRegions(s, |s|, p)
    {
      InsideIsInRegion(s, p);
    }
  }

  // ------------------------------------------------------- after the handoff

  /** The free blocks are the pages wholly inside available memory, and nothing is handed out yet. */
  ghost predicate HandedOver(m: M.MemblockState, b: S.BuddyState)
  {
    && S.Inv(b) && b.out == {}
    && forall p: nat :: Covers(b.free, p) <==> Inside(m.available, p)
  }

  /**
   For every boot sequence of reservations and early allocations: as long as the buddy
   allocator has the pages it was given, none of them meets a reserved range or an early
   allocation, and every one lies in RAM and was available.
   */
  lemma HandedPageIsSafe(ram: set<nat>, boot: seq<M.MemblockState>, bootCalls: seq<M.BootCall>,
                         first: S.BuddyState, b: S.BuddyState, p: nat)
    requires M.Run(boot, bootCalls) && boot[0] == M.MemblockState(ram, {}, {})
    requires HandedOver(boot[|bootCalls|], first) && SamePages(first.free + first.out, b.free + b.out)
    requires Covers(b.free + b.out, p)
    ensures Inside(boot[|bootCalls|].available, p) && Range(p * 4096, 4096) <= ram
    ensures Range(p * 4096, 4096) !! boot[|bootCalls|].reserved + boot[|bootCalls|].allotted
    ensures forall k :: 0 <= k < |bootCalls| ==> Range(p * 4096, 4096) !! M.Claimed(bootCalls[k])
  {
    hide Range, Within, S.Inv;
    var n := |bootCalls|;
    M.RunKeeps(ram, boot, bootCalls, n, n);
    assert first.free + first.out == first.free;
    assert Covers(first.free, p);
    forall k | 0 <= k < n
      ensures Range(p * 4096, 4096) !! M.Claimed(bootCalls[k])
    {
      M.RunKeeps(ram, boot, bootCalls, k + 1, n);
      assert M.Step(boot[k], bootCalls[k], boot[k + 1]);
    }
  }

  /** And it has them in every later run. */
  lemma HandoffIsSafe(ram: set<nat>, boot: seq<M.MemblockState>, bootCalls: seq<M.BootCall>,
                      states: seq<S.BuddyState>, calls: seq<S.Call>, i: nat, p: nat)
    requires M.Run(boot, bootCalls) && boot[0] == M.MemblockState(ram, {}, {})
    requires S.Run(states, calls) && HandedOver(boot[|bootCalls|], states[0])
    requires i < |states| && Covers(states[i].free + states[i].out, p)
    ensures Inside(boot[|bootCalls|].available, p) && Range(p * 4096, 4096) <= ram
    ensures Range(p * 4096, 4096) !! boot[|bootCalls|].reserved + boot[|bootCalls|].allotted
    ensures forall k :: 0 <= k < |bootCalls| ==> Range(p * 4096, 4096) !! M.Claimed(bootCalls[k])
  {
    hide Range, Covers, S.Inv;
    S.RunKeeps(states[..i + 1], calls[..i]);
    HandedPageIsSafe(ram, boot, bootCalls, states[0], states[i], p);
  }
}
