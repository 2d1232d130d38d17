/**
 The boot-time memory allocator: three arrays of regions, changed in place, between which
 byte ranges move.
 */
module Memblock {
  import opened Bits
  import opened Regions

  const MAX_REGIONS: nat := 128

  /** Overlapping copy inside an array, as `slice::copy_within`. */
  method CopyWithin(a: array<MemRegion>, lo: nat, hi: nat, dst: nat)
    requires lo <= hi <= a.Length && dst + (hi - lo) <= a.Length
    modifies a
    ensures a[..] == old(a[..dst] + a[lo..hi] + a[dst + (hi - lo)..])
  {
    forall k | lo <= k < hi {
      a[dst + k - lo] := a[k];
    }
  }

  lemma Spliced(v: seq<MemRegion>, i: nat, a: MemRegion, b: MemRegion)
    requires i < |v|
    ensures var w := v[..i] + [a] + v[i + 1..]; w[..i + 1] + [b] + w[i + 1..] == v[..i] + [a, b] + v[i + 1..]
  {
  }

  /** Some region overlaps or adjoins the bytes from `base` up to `end`. */
  ghost predicate Touches(s: seq<MemRegion>, base: nat, end: nat)
  {
    exists k :: 0 <= k < |s| && s[k].base <= end && base <= s[k].End()
  }

  lemma NoneMerged(s: seq<MemRegion>, i: nat, base: nat, end: nat)
    requires i <= |s| && base < end
    ensures Merges(s, i, i, base, end, base, end)
  {
  }

  /** The search for regions to merge finds one exactly if one is touched. */
  lemma MergeTouches(s: seq<MemRegion>, i: nat, j: nat, base: nat, end: nat, lo: nat, hi: nat)
    requires Separated(s) && Merges(s, i, j, base, end, lo, hi)
    requires forall k :: 0 <= k < i ==> s[k].End() < base
    requires i < |s| ==> base <= s[i].End()
    requires i < j ==> s[i].base <= end
    requires j < |s| ==> hi < s[j].base
    ensures i < j <==> Touches(s, base, end)
    ensures lo < hi
  {
  }

  /** Region `i` replaced by what the cut leaves of it. */
  function CutHere(v: seq<MemRegion>, i: nat, lo: nat, hi: nat): seq<MemRegion>
    requires i < |v|
  {
    v[..i] + Cut(v[i], lo, hi) + v[i + 1..]
  }

  /** The state of the removal loop at `i`: the first `n` regions of `s` are cut. */
  ghost predicate CutUpTo(v: seq<MemRegion>, s: seq<MemRegion>, n: nat, i: nat, lo: nat, hi: nat)
  {
    && n <= |s| && i == |CutAll(s[..n], lo, hi)|
    && v == CutAll(s[..n], lo, hi) + s[n..]
    && (|s| == MAX_REGIONS ==> forall k :: 0 <= k < n ==> |Cut(s[k], lo, hi)| < 2)
  }

  lemma CutStart(s: seq<MemRegion>, lo: nat, hi: nat)
    ensures CutUpTo(s, s, 0, 0, lo, hi)
  {
    CutNone(s, lo, hi);
  }

  lemma CutStep(v: seq<MemRegion>, s: seq<MemRegion>, n: nat, i: nat, lo: nat, hi: nat)
    requires CutUpTo(v, s, n, i, lo, hi) && i < |v| && Separated(s) && lo < hi
    ensures n < |s| && v[i] == s[n]
    ensures |Cut(v[i], lo, hi)| == 2 ==> |v| == |s| && Punches(s, lo, hi)
    ensures !(|v| == MAX_REGIONS && |Cut(v[i], lo, hi)| == 2) ==>
              CutUpTo(CutHere(v, i, lo, hi), s, n + 1, i + |Cut(v[i], lo, hi)|, lo, hi)
  {
    hide CutAll, Cut;
    if |Cut(v[i], lo, hi)| == 2 { PunchedOnce(s, n, lo, hi); }
    hide Separated, Punches;
    CutNext(s, n, lo, hi);
  }

  lemma CutEnd(v: seq<MemRegion>, s: seq<MemRegion>, n: nat, i: nat, lo: nat, hi: nat)
    requires CutUpTo(v, s, n, i, lo, hi) && i >= |v| && Separated(s) && lo < hi
    ensures Separated(v) && Bytes(v) == Bytes(s) - Range(lo, hi - lo)
    ensures |s| == MAX_REGIONS ==> !Punches(s, lo, hi)
    ensures |v| <= |s| + 1
  {
    CutAllLength(s, lo, hi);
    assert s[..n] == s && v == CutAll(s, lo, hi);
    PunchesCut(s, lo, hi);
    CutAllBytes(s, lo, hi);
  }

  class RegionArray {
    const regions: array<MemRegion>
    var count: nat
    var totalSize: nat

    ghost predicate Valid()
      reads this, regions
    {
      && regions.Length == MAX_REGIONS && count <= MAX_REGIONS
      && Separated(View())
      && totalSize == Total(View())
    }

    function View(): seq<MemRegion>
      requires count <= regions.Length
      reads this, regions
    {
      regions[..count]
    }

    /** The bytes the array covers. */
    ghost function Covered(): set<nat>
      requires count <= regions.Length
      reads this, regions
    {
      Bytes(View())
    }

    constructor ()
      ensures Valid() && fresh(regions) && count == 0 && Covered() == {} && regions.Length == 128
    {
      regions := new MemRegion[MAX_REGIONS](_ => MemRegion(0, 0));
      count, totalSize := 0, 0;
    }

    method UpdateTotal()
      requires regions.Length == MAX_REGIONS && count <= MAX_REGIONS
      modifies this`totalSize
      ensures totalSize == Total(View())
    {
      var sum, i := 0, 0;
      while i < count
        modifies {}
        invariant i <= count && sum == Total(regions[..i])
      {
        assert regions[..i + 1][..i] == regions[..i];
        sum := sum + regions[i].size;
        i := i + 1;
      }
      totalSize := sum;
    }

    /** Shifts the regions from `idx` on to the right and writes `r` in the gap. */
    method InsertAt(idx: nat, r: MemRegion)
      requires regions.Length == MAX_REGIONS && idx <= count < MAX_REGIONS
      modifies this`count, regions
      ensures count == old(count) + 1
      ensures View() == old(View()[..idx] + [r] + View()[idx..])
    {
      CopyWithin(regions, idx, count, idx + 1);
      count := count + 1;
      regions[idx] := r;
    }

    /** Writes `r` over the region at `i` and closes up on the region at `j`. */
    method ReplaceRun(i: nat, j: nat, r: MemRegion)
      requires regions.Length == MAX_REGIONS && i < j <= count <= MAX_REGIONS
      modifies this`count, regions
      ensures count == old(count) - (j - i - 1)
      ensures View() == old(View()[..i] + [r] + View()[j..])
    {
      var shift := j - i - 1;
      if shift > 0 {
        CopyWithin(regions, j, count, j - shift);
        count := count - shift;
      }
      regions[i] := r;
    }

    method DeleteAt(i: nat)
      requires regions.Length == MAX_REGIONS && i < count <= MAX_REGIONS
      modifies this`count, regions
      ensures count == old(count) - 1
      ensures View() == old(View()[..i] + View()[i + 1..])
    {
      CopyWithin(regions, i + 1, count, i);
      count := count - 1;
    }

    /** The two search loops of a union: where the range goes, and what it merges with. */
    method FindMerge(base: nat, end: nat) returns (insertIdx: nat, i: nat, mergedBase: nat, mergedEnd: nat)
      requires Valid() && base < end
      ensures insertIdx <= i <= count && mergedBase < mergedEnd
      ensures Merges(View(), insertIdx, i, base, end, mergedBase, mergedEnd)
      ensures forall k :: 0 <= k < insertIdx ==> View()[k].End() < base
      ensures i < count ==> mergedEnd < View()[i].base
      ensures insertIdx < i <==> Touches(View(), base, end)
    {
      hide Bytes, Total, In, Merges, Touches, Separated;
      ghost var s := View();
      insertIdx := 0;
      while insertIdx < count && regions[insertIdx].End() < base
        invariant insertIdx <= count
        invariant forall k :: 0 <= k < insertIdx ==> s[k].End() < base
      {
        insertIdx := insertIdx + 1;
      }
      i := insertIdx;
      mergedBase, mergedEnd := base, end;
      NoneMerged(s, insertIdx, base, end);
      while i < count && regions[i].base <= mergedEnd
        invariant insertIdx <= i <= count && (insertIdx < count ==> base <= s[insertIdx].End())
        invariant insertIdx < i ==> s[insertIdx].base <= end
        invariant Merges(s, insertIdx, i, base, end, mergedBase, mergedEnd)
      {
        MergeOne(s, insertIdx, i, base, end, mergedBase, mergedEnd);
        mergedBase := Min(mergedBase, regions[i].base);
        mergedEnd := Max(mergedEnd, regions[i].End());
        i := i + 1;
      }
      MergeTouches(s, insertIdx, i, base, end, mergedBase, mergedEnd);
    }

    /**
     Union with the bytes from `base` on. `ok` is false where the kernel panics: the array
     is full and the range touches no region.
     */
    method AddRegion(base: nat, size: nat) returns (ok: bool)
      requires Valid()
      modifies this, regions
      ensures !ok <==> size > 0 && old(count) == MAX_REGIONS && !Touches(old(View()), base, base + size)
      ensures !ok ==> count == MAX_REGIONS
      ensures ok ==> Valid() && Covered() == old(Covered()) + Range(base, size) && count <= old(count) + 1
    {
      hide Bytes, Range, Total, Touches, Separated, Merges, In;
      if size == 0 {
        EmptyRange(base);
        return true;
      }
      var insertIdx, i, mergedBase, mergedEnd := FindMerge(base, base + size);
      MergedKeeps(View(), insertIdx, i, base, base + size, mergedBase, mergedEnd);
      var r := MemRegion(mergedBase, mergedEnd - mergedBase);
      if i == insertIdx {
        if count == MAX_REGIONS {
          return false;
        }
        InsertAt(insertIdx, r);
      } else {
        ReplaceRun(insertIdx, i, r);
      }
      UpdateTotal();
      return true;
    }

    /** One round of the removal loop: replaces the region at `i` by what is left of it. */
    method CutAt(i: nat, lo: nat, hi: nat) returns (ok: bool, next: nat)
      requires regions.Length == MAX_REGIONS && i < count <= MAX_REGIONS
      modifies this`count, regions
      ensures !ok <==> old(count) == MAX_REGIONS && |Cut(old(View()[i]), lo, hi)| == 2
      ensures !ok ==> count == old(count) && View() == old(View())
      ensures ok ==> count <= MAX_REGIONS && next == i + |Cut(old(View()[i]), lo, hi)|
      ensures ok ==> View() == CutHere(old(View()), i, lo, hi)
    {
      ghost var v := View();
      var r := regions[i];
      ok, next := true, i + 1;
      if lo < r.End() && hi > r.base {
        if lo <= r.base && hi >= r.End() {
          DeleteAt(i);
          next := i;
          assert Cut(r, lo, hi) == [];
        } else if lo <= r.base {
          ReplaceRun(i, i + 1, MemRegion(hi, r.End() - hi));
          assert Cut(r, lo, hi) == [MemRegion(hi, r.End() - hi)];
        } else if hi >= r.End() {
          ReplaceRun(i, i + 1, MemRegion(r.base, lo - r.base));
          assert Cut(r, lo, hi) == [MemRegion(r.base, lo - r.base)];
        } else {
          if count == MAX_REGIONS {
            return false, i;
          }
          ReplaceRun(i, i + 1, MemRegion(r.base, lo - r.base));
          InsertAt(i + 1, MemRegion(hi, r.End() - hi));
          next := i + 2;
          Spliced(v, i, MemRegion(r.base, lo - r.base), MemRegion(hi, r.End() - hi));
          assert Cut(r, lo, hi) == [MemRegion(r.base, lo - r.base), MemRegion(hi, r.End() - hi)];
        }
      } else {
        assert Cut(r, lo, hi) == [v[i]];
      }
      assert View() == v[..i] + Cut(r, lo, hi) + v[i + 1..];
    }

    /** The removal loop. */
    method CutLoop(lo: nat, hi: nat) returns (ok: bool)
      requires Valid() && lo < hi
      modifies this`count, regions
      ensures !ok <==> old(count) == MAX_REGIONS && Punches(old(View()), lo, hi)
      ensures !ok ==> count == MAX_REGIONS
      ensures ok ==> count <= MAX_REGIONS && Separated(View()) && count <= old(count) + 1
      ensures ok ==> Covered() == old(Covered()) - Range(lo, hi - lo)
    {
      hide Bytes, Range, Total, Cut, CutHere, Separated, Punches, CutUpTo, In;
      ghost var s := View();
      ghost var n := 0;
      CutStart(s, lo, hi);
      var i: nat := 0;
      while i < count
        invariant n <= |s| && count <= MAX_REGIONS && CutUpTo(View(), s, n, i, lo, hi)
        decreases |s| - n
      {
        ghost var v := View();
        CutStep(v, s, n, i, lo, hi);
        ok, i := CutAt(i, lo, hi);
        if !ok {
          return false;
        }
        n := n + 1;
      }
      CutEnd(View(), s, n, i, lo, hi);
      return true;
    }

    /**
     Difference with the bytes from `lo` on. `ok` is false where the kernel panics: the
     array is full and the range lies strictly inside a region.
     */
    method RemoveRegion(lo: nat, size: nat) returns (ok: bool)
      requires Valid()
      modifies this, regions
      ensures !ok <==> size > 0 && old(count) == MAX_REGIONS && Punches(old(View()), lo, lo + size)
      ensures !ok ==> count == MAX_REGIONS
      ensures ok ==> Valid() && Covered() == old(Covered()) - Range(lo, size) && count <= old(count) + 1
    {
      hide Bytes, Range, Total, Separated, Punches, In;
      if size == 0 {
        EmptyRange(lo);
        return true;
      }
      ok := CutLoop(lo, lo + size);
      if ok {
        UpdateTotal();
      }
    }
  }

  // -------------------------------------------------- what boot-time calls do

  /** The bytes that are available, reserved, and handed out early. */
  datatype MemblockState = MemblockState(available: set<nat>, reserved: set<nat>, allotted: set<nat>)

  datatype BootCall =
    | Reserve(base: nat, size: nat)
    | EarlyAlloc(bytes: nat, align: nat, result: Option<nat>)

  /** An aligned place for `size` bytes in `avail`. */
  ghost predicate Fits(avail: set<nat>, size: nat, align: nat, a: nat)
    requires align > 0
  {
    Aligned(a, align) && Range(a, size) <= avail
  }

  ghost predicate Highest(avail: set<nat>, size: nat, align: nat, a: nat)
    requires align > 0
  {
    Fits(avail, size, align, a) && forall b: nat :: Fits(avail, size, align, b) ==> b <= a
  }

  /** No page for a directory is left. */
  ghost predicate NoPageLeft(s: MemblockState)
  {
    forall a: nat :: !Fits(s.available, 4096, 4096, a)
  }

  lemma HighestFits(avail: set<nat>, size: nat, align: nat, a: nat)
    requires align > 0 && Highest(avail, size, align, a)
    ensures Fits(avail, size, align, a)
  {
  }

  ghost predicate Step(s: MemblockState, call: BootCall, t: MemblockState)
  {
    match call
    case Reserve(base, size) =>
      t == MemblockState(s.available - Range(base, size), s.reserved + Range(base, size), s.allotted)
    case EarlyAlloc(size, align, None) =>
      size > 0 && align > 0 && t == s && forall a: nat :: !Fits(s.available, size, align, a)
    case EarlyAlloc(size, align, Some(a)) =>
      && size > 0 && align > 0 && Highest(s.available, size, align, a)
      && t == MemblockState(s.available - Range(a, size), s.reserved, s.allotted + Range(a, size))
  }

  /** RAM is what is available, handed out early, or reserved; what is available is neither of the others. */
  ghost predicate Inv(ram: set<nat>, s: MemblockState)
  {
    && s.available !! s.reserved && s.available !! s.allotted
    && s.available + s.allotted + s.reserved * ram == ram
  }

  ghost predicate Run(states: seq<MemblockState>, calls: seq<BootCall>)
  {
    && |states| == |calls| + 1
    && forall i :: 0 <= i < |calls| ==> Step(states[i], calls[i], states[i + 1])
  }

  lemma StepKeeps(ram: set<nat>, s: MemblockState, call: BootCall, t: MemblockState)
    requires Inv(ram, s) && Step(s, call, t)
    ensures Inv(ram, t) && s.reserved <= t.reserved && s.allotted <= t.allotted
  {
    hide Range;
  }

  /** Over every run from declared memory on, the three sets keep splitting RAM. */
  lemma {:induction false} RunKeeps(ram: set<nat>, states: seq<MemblockState>, calls: seq<BootCall>, i: nat, j: nat)
    requires Run(states, calls) && states[0] == MemblockState(ram, {}, {})
    requires i <= j < |states|
    ensures Inv(ram, states[i]) && Inv(ram, states[j])
    ensures states[i].reserved <= states[j].reserved && states[i].allotted <= states[j].allotted
    decreases j
  {
    if j > 0 {
      if i < j {
        RunKeeps(ram, states, calls, i, j - 1);
      } else {
        RunKeeps(ram, states, calls, j - 1, j - 1);
      }
      StepKeeps(ram, states[j - 1], calls[j - 1], states[j]);
    }
  }

  /** The bytes a call takes for good. */
  ghost function Claimed(call: BootCall): set<nat>
  {
    match call
    case Reserve(base, size) => Range(base, size)
    case EarlyAlloc(size, _, Some(a)) => Range(a, size)
    case EarlyAlloc(_, _, None) => {}
  }

  /** An early allocation lies in RAM and meets nothing reserved or allotted before it. */
  lemma AllocationsAreFresh(ram: set<nat>, states: seq<MemblockState>, calls: seq<BootCall>, i: nat, j: nat)
    requires Run(states, calls) && states[0] == MemblockState(ram, {}, {})
    requires i < j < |calls| && calls[j].EarlyAlloc?
    ensures Claimed(calls[j]) <= ram && Claimed(calls[j]) !! Claimed(calls[i])
  {
    hide Range;
    RunKeeps(ram, states, calls, i + 1, j);
    assert Step(states[i], calls[i], states[i + 1]);
    assert Step(states[j], calls[j], states[j + 1]);
  }

  // ---------------------------------------------------------------- histories

  /**
   The calls since memory was declared, and the states before and after each. At the start
   no region array held more than `slots` regions.
   */
  datatype BootLog = BootLog(states: seq<MemblockState>, calls: seq<BootCall>, slots: nat)
  {
    /** No region array holds more regions than this. */
    function Regions(): nat { slots + |calls| }
  }

  ghost predicate LogOk(log: BootLog, s: MemblockState)
  {
    Run(log.states, log.calls) && log.states[|log.calls|] == s
  }

  ghost function Logged(log: BootLog, call: BootCall, t: MemblockState): BootLog
  {
    BootLog(log.states + [t], log.calls + [call], log.slots)
  }

  lemma LogExtends(log: BootLog, s: MemblockState, call: BootCall, t: MemblockState)
    requires LogOk(log, s) && Step(s, call, t)
    ensures LogOk(Logged(log, call, t), t)
  {
    hide Step;
  }

  /** One page for a directory. */
  predicate IsPageCall(call: BootCall) { call.EarlyAlloc? && call.bytes == 4096 && call.align == 4096 }

  /** Between two points of a history only pages for directories were taken. */
  ghost predicate TookPages(before: BootLog, after: BootLog)
  {
    && before.states <= after.states && before.calls <= after.calls && before.slots == after.slots
    && forall i :: |before.calls| <= i < |after.calls| ==> IsPageCall(after.calls[i])
  }

  lemma TookNone(log: BootLog)
    ensures TookPages(log, log)
  {
  }

  lemma TookMore(a: BootLog, b: BootLog, c: BootLog)
    requires TookPages(a, b) && TookPages(b, c)
    ensures TookPages(a, c)
  {
  }

  lemma TookOne(log: BootLog, call: BootCall, t: MemblockState)
    requires IsPageCall(call)
    ensures TookPages(log, Logged(log, call, t))
  {
  }

  /** What taking pages leaves alone. */
  lemma {:induction false} PagesTaken(before: BootLog, s: MemblockState, after: BootLog, t: MemblockState)
    requires LogOk(before, s) && LogOk(after, t) && TookPages(before, after)
    ensures t.reserved == s.reserved && t.available <= s.available && s.allotted <= t.allotted
    decreases |after.calls|
  {
    hide Highest, Fits, Range;
    var n := |after.calls|;
    if |before.calls| < n {
      assert Step(after.states[n - 1], after.calls[n - 1], t) && IsPageCall(after.calls[n - 1]);
      PagesTaken(before, s, BootLog(after.states[..n], after.calls[..n - 1], after.slots), after.states[n - 1]);
    } else {
      assert after.states[n] == before.states[n];
    }
  }

  // ------------------------------------------------------------ counting pages

  /** The addresses at which a whole page is available. */
  ghost function PagesLeft(avail: set<nat>): (pages: set<nat>)
    ensures forall a: nat :: a in pages <==> Fits(avail, 4096, 4096, a)
  {
    set a: nat | a in avail && Fits(avail, 4096, 4096, a)
  }

  /** The addresses of `n` pages, starting with page `p`. */
  ghost function PageRun(p: nat, n: nat): (pages: set<nat>)
    ensures |pages| == n
    ensures forall a: nat :: a in pages <==> a % 4096 == 0 && p <= a / 4096 < p + n
  {
    if n == 0 then {} else
      var rest := PageRun(p, n - 1);
      assert (p + n - 1) * 4096 !in rest;
      rest + {(p + n - 1) * 4096}
  }

  /** A range on page bounds consists of its pages. */
  lemma WholePages(base: nat, size: nat)
    requires base % 4096 == 0 && size % 4096 == 0
    ensures |PagesLeft(Range(base, size))| == size / 4096
  {
    hide PageRun;
    var pages, run := PagesLeft(Range(base, size)), PageRun(base / 4096, size / 4096);
    forall a: nat
      ensures a in pages <==> a in run
    {
      assert a in Range(a, 4096) && a + 4095 in Range(a, 4096);
    }
    assert pages == run;
  }

  /** The most pages that a call can take or spoil. */
  function Spoils(call: BootCall): nat
  {
    if IsPageCall(call) then 1
    else if call.EarlyAlloc? then (if call.result.None? then 0 else call.bytes / 4096 + 2)
    else if call.size == 0 then 0 else call.size / 4096 + 2
  }

  function SpoilsAll(calls: seq<BootCall>): nat
  {
    if calls == [] then 0 else SpoilsAll(calls[..|calls| - 1]) + Spoils(calls[|calls| - 1])
  }

  /** Taking an aligned page takes just that page. */
  lemma PageTaken(avail: set<nat>, a: nat)
    requires Fits(avail, 4096, 4096, a)
    ensures PagesLeft(avail - Range(a, 4096)) == PagesLeft(avail) - {a}
  {
    var rest := avail - Range(a, 4096);
    assert a in Range(a, 4096);
    forall b: nat | Fits(avail, 4096, 4096, b) && b != a
      ensures Fits(rest, 4096, 4096, b)
    {
      assert b + 4096 <= a || a + 4096 <= b;
    }
    forall b: nat | Fits(rest, 4096, 4096, b)
      ensures Fits(avail, 4096, 4096, b) && b != a
    {
      assert b in Range(b, 4096);
    }
  }

  /** Taking any range spoils only the pages it meets. */
  lemma RangeSpoils(avail: set<nat>, base: nat, size: nat)
    requires size > 0
    ensures |PagesLeft(avail)| <= |PagesLeft(avail - Range(base, size))| + size / 4096 + 2
  {
    var rest := avail - Range(base, size);
    var n: nat := (base + size - 1) / 4096 - base / 4096 + 1;
    var met := PageRun(base / 4096, n);
    forall a: nat | a in PagesLeft(avail) && a !in met
      ensures a in PagesLeft(rest)
    {
      assert Fits(avail, 4096, 4096, a);
      assert a + 4096 <= base || base + size <= a;
      hide PagesLeft;
      assert Range(a, 4096) !! Range(base, size);
    }
    hide PagesLeft, PageRun;
    assert PagesLeft(avail) <= PagesLeft(rest) + met;
    SubsetSize(PagesLeft(avail), PagesLeft(rest), met);
  }

  lemma SubsetSize(a: set<nat>, b: set<nat>, c: set<nat>)
    requires a <= b + c
    ensures |a| <= |b| + |c|
  {
    CardinalityOfSubset(a, b + c);
    assert |b + c| <= |b| + |c|;
  }

  lemma {:induction false} CardinalityOfSubset(a: set<nat>, b: set<nat>)
    requires a <= b
    ensures |a| <= |b|
    decreases |a|
  {
    if a != {} {
      var x :| x in a;
      CardinalityOfSubset(a - {x}, b - {x});
    }
  }

  lemma StepSpoils(s: MemblockState, call: BootCall, t: MemblockState)
    requires Step(s, call, t)
    ensures |PagesLeft(s.available)| <= |PagesLeft(t.available)| + Spoils(call)
  {
    hide PagesLeft, Range;
    match call
    case Reserve(base, size) =>
      if size > 0 {
        RangeSpoils(s.available, base, size);
      } else {
        EmptyRange(base);
        assert s.available - {} == s.available;
      }
    case EarlyAlloc(size, align, None) =>
    case EarlyAlloc(size, align, Some(a)) =>
      if IsPageCall(call) {
        PageTaken(s.available, a);
      } else {
        RangeSpoils(s.available, a, size);
      }
  }

  /** Pages go only where the history says. */
  lemma {:induction false} HistorySpoils(log: BootLog, s: MemblockState)
    requires LogOk(log, s)
    ensures |PagesLeft(log.states[0].available)| <= |PagesLeft(s.available)| + SpoilsAll(log.calls)
    decreases |log.calls|
  {
    hide PagesLeft, Spoils, Step;
    var n := |log.calls|;
    if n > 0 {
      HistorySpoils(BootLog(log.states[..n], log.calls[..n - 1], log.slots), log.states[n - 1]);
      StepSpoils(log.states[n - 1], log.calls[n - 1], s);
    }
  }

  lemma {:induction false} TookSpoils(before: BootLog, after: BootLog)
    requires TookPages(before, after)
    ensures SpoilsAll(after.calls) == SpoilsAll(before.calls) + |after.calls| - |before.calls|
    decreases |after.calls|
  {
    var n := |after.calls|;
    if |before.calls| < n {
      TookSpoils(before, BootLog(after.states, after.calls[..n - 1], after.slots));
    } else {
      assert before.calls == after.calls;
    }
  }

  /** Between two points of a history at most `calls` calls were made and `pages` pages spoiled. */
  ghost predicate Grew(before: BootLog, after: BootLog, calls: nat, pages: nat)
  {
    && after.slots == before.slots && |after.calls| <= |before.calls| + calls
    && SpoilsAll(after.calls) <= SpoilsAll(before.calls) + pages
  }

  lemma GrewNot(log: BootLog)
    ensures Grew(log, log, 0, 0)
  {
  }

  lemma GrewBoth(a: BootLog, b: BootLog, c: BootLog, calls: nat, pages: nat, calls': nat, pages': nat)
    requires Grew(a, b, calls, pages) && Grew(b, c, calls', pages')
    ensures Grew(a, c, calls + calls', pages + pages')
  {
  }

  lemma GrewByCall(log: BootLog, call: BootCall, t: MemblockState)
    ensures Grew(log, Logged(log, call, t), 1, Spoils(call))
  {
    assert (log.calls + [call])[..|log.calls|] == log.calls;
  }

  lemma GrewByPages(before: BootLog, after: BootLog, n: nat)
    requires TookPages(before, after) && |after.calls| <= |before.calls| + n
    ensures Grew(before, after, n, n)
  {
    TookSpoils(before, after);
  }

  /** The pages of the regions, one run for each. */
  ghost function RegionPages(s: seq<MemRegion>): set<nat>
  {
    if s == [] then {}
    else
      var r := s[|s| - 1];
      var first, last := (r.base + 4095) / 4096, r.End() / 4096;
      RegionPages(s[..|s| - 1]) + if first < last then PageRun(first, last - first) else {}
  }

  lemma {:induction false} InRegionPages(s: seq<MemRegion>, k: nat, a: nat)
    requires k < |s| && a % 4096 == 0 && s[k].base <= a && a + 4096 <= s[k].End()
    ensures a in RegionPages(s)
    decreases |s|
  {
    if k < |s| - 1 {
      InRegionPages(s[..|s| - 1], k, a);
    }
  }

  /** A region too short for more than `k` whole pages. */
  predicate Short(r: MemRegion, k: nat) { r.End() / 4096 <= (r.base + 4095) / 4096 + k }

  /** Regions with at most `k` pages each. */
  lemma {:induction false} ShortRegions(s: seq<MemRegion>, k: nat)
    requires forall r :: r in s ==> Short(r, k)
    ensures |RegionPages(s)| <= |s| * k
    decreases |s|
  {
    if s != [] {
      var n := |s| - 1;
      ShortRegions(s[..n], k);
      LastRegionPages(s, k);
      hide RegionPages, Short;
      assert (n + 1) * k == n * k + k;
    }
  }

  lemma LastRegionPages(s: seq<MemRegion>, k: nat)
    requires s != [] && Short(s[|s| - 1], k)
    ensures |RegionPages(s)| <= |RegionPages(s[..|s| - 1])| + k
  {
    hide PageRun;
  }

  /** A region that is not too short has room for `k + 1` pages in a row. */
  lemma LongRegionFits(s: seq<MemRegion>, i: nat, k: nat)
    requires Separated(s) && i < |s| && !Short(s[i], k)
    ensures Fits(Bytes(s), (k + 1) * 4096, 4096, (s[i].base + 4095) / 4096 * 4096)
  {
    hide Bytes, Range;
    RegionIsIn(s, i);
    RangeInside(s[i], (s[i].base + 4095) / 4096 * 4096, (k + 1) * 4096);
  }

  /** If `m` pages in a row fit nowhere, then few pages are left: fewer than `m` in each region. */
  lemma NoRoomBound(s: seq<MemRegion>, m: nat)
    requires Separated(s) && m > 0 && forall a: nat :: !Fits(Bytes(s), m * 4096, 4096, a)
    ensures |PagesLeft(Bytes(s))| <= |s| * (m - 1)
  {
    hide Bytes, Range, In, PagesLeft, RegionPages, Short;
    forall i | 0 <= i < |s|
      ensures Short(s[i], m - 1)
    {
      if !Short(s[i], m - 1) {
        LongRegionFits(s, i, m - 1);
      }
    }
    ShortRegions(s, m - 1);
    forall a | a in PagesLeft(Bytes(s))
      ensures a in RegionPages(s)
    {
      var k := RunInOneRegion(s, a, 4096);
      InRegionPages(s, k, a);
    }
    CardinalityOfSubset(PagesLeft(Bytes(s)), RegionPages(s));
  }

  lemma RangeInside(r: MemRegion, a: nat, size: nat)
    requires r.base <= a && a + size <= r.End()
    ensures Range(a, size) <= Range(r.base, r.size)
  {
  }

  /** There are more than `n` pages and `n` region slots left. */
  ghost predicate Enough(log: BootLog, s: MemblockState, n: nat)
  {
    log.Regions() + n < MAX_REGIONS && n < |PagesLeft(s.available)|
  }

  /** Then taking at most `n` pages leaves both a page and a slot. */
  lemma {:induction false} EnoughSuffices(before: BootLog, s: MemblockState, after: BootLog, n: nat)
    requires LogOk(before, s) && TookPages(before, after) && |after.calls| <= |before.calls| + n
    requires Enough(before, s, n)
    ensures after.Regions() < MAX_REGIONS
    ensures forall t :: LogOk(after, t) ==> !NoPageLeft(t)
  {
    forall t | LogOk(after, t)
      ensures !NoPageLeft(t)
    {
      PagesTakenCount(before, s, after, t);
      assert NoPageLeft(t) ==> PagesLeft(t.available) == {};
    }
  }

  lemma {:induction false} PagesTakenCount(before: BootLog, s: MemblockState, after: BootLog, t: MemblockState)
    requires LogOk(before, s) && LogOk(after, t) && TookPages(before, after)
    ensures |PagesLeft(s.available)| <= |PagesLeft(t.available)| + |after.calls| - |before.calls|
    decreases |after.calls|
  {
    hide Step, PagesLeft, Spoils;
    var n := |after.calls|;
    if |before.calls| < n {
      assert Step(after.states[n - 1], after.calls[n - 1], t) && IsPageCall(after.calls[n - 1]);
      StepSpoils(after.states[n - 1], after.calls[n - 1], t);
      PageCallSpoils(after.calls[n - 1]);
      PagesTakenCount(before, s, BootLog(after.states[..n], after.calls[..n - 1], after.slots), after.states[n - 1]);
    } else {
      assert after.states[n] == before.states[n];
    }
  }

  lemma PageCallSpoils(call: BootCall)
    requires IsPageCall(call)
    ensures Spoils(call) == 1
  {
  }

  // ---------------------------------------------------------------- the object

  /**
   Where the kernel panics because a region array is full, the result is `Full`, with the
   address chosen; where it subtracts the size from a smaller end, it is `Underflow`.
   */
  datatype Early = Found(addr: nat) | NoFit | Full(addr: nat) | Underflow

  class MemblockAllocator {
    const available: RegionArray
    const reserved: RegionArray
    const allotted: RegionArray
    ghost var log: BootLog

    ghost predicate Valid()
      reads this, available, reserved, allotted, available.regions, reserved.regions, allotted.regions
    {
      ArraysOk() && LogOk(log, State()) && SlotsOk()
    }

    /** Every call adds at most one region to an array. */
    ghost predicate SlotsOk()
      reads this, available, reserved, allotted
    {
      available.count <= log.Regions() && reserved.count <= log.Regions() && allotted.count <= log.Regions()
    }

    ghost predicate ArraysOk()
      reads this, available, reserved, allotted, available.regions, reserved.regions, allotted.regions
    {
      && available != reserved && available != allotted && reserved != allotted
      && available.regions != reserved.regions && available.regions != allotted.regions
      && reserved.regions != allotted.regions
      && available.Valid() && reserved.Valid() && allotted.Valid()
      && (forall r :: r in available.View() ==> r.End() <= WORD - 1)
    }

    ghost function State(): MemblockState
      requires ArraysOk()
      reads this, available, reserved, allotted, available.regions, reserved.regions, allotted.regions
    {
      MemblockState(available.Covered(), reserved.Covered(), allotted.Covered())
    }

    /** A region array that an early allocation changes has no slot left. */
    predicate CrowdedForAlloc()
      reads this, available, allotted
    {
      available.count == MAX_REGIONS || allotted.count == MAX_REGIONS
    }

    /** A region array that a reservation changes has no slot left. */
    predicate CrowdedForReserve()
      reads this, available, reserved
    {
      available.count == MAX_REGIONS || reserved.count == MAX_REGIONS
    }

    ghost function Repr(): set<object>
      reads this
    {
      {available, reserved, allotted, available.regions, reserved.regions, allotted.regions}
    }

    constructor ()
      ensures Valid() && fresh(Repr()) && State() == MemblockState({}, {}, {})
      ensures available.count == 0 && log.Regions() == 0
    {
      hide Separated, Bytes, Range, Total, In;
      available := new RegionArray();
      reserved := new RegionArray();
      allotted := new RegionArray();
      log := BootLog([MemblockState({}, {}, {})], [], 0);
    }

    /** Declares memory; the history starts here. `ok` is false where a full array panics. */
    method InitAddMemory(base: nat, size: nat) returns (ok: bool)
      requires Valid() && base + size < WORD
      modifies this`log, available, available.regions
      ensures !ok <==>
                size > 0 && old(available.count) == MAX_REGIONS && !Touches(old(available.View()), base, base + size)
      ensures ok ==> Valid() && log == BootLog([State()], [], old(log.Regions()) + 1)
      ensures ok ==> State() == old(State()).(available := old(State()).available + Range(base, size))
    {
      hide Range, Bytes, Total, Touches, Separated;
      ok := available.AddRegion(base, size);
      if ok {
        EndsBound(old(available.View()), available.View(), WORD - 1);
        log := BootLog([State()], [], log.Regions() + 1);
      }
    }

    /** Takes a range out of what is available; `ok` is false where a full array panics. */
    method ReserveMemory(base: nat, size: nat) returns (ok: bool)
      requires Valid()
      modifies this`log, available, available.regions, reserved, reserved.regions
      ensures ok ==> Valid() && Step(old(State()), Reserve(base, size), State())
      ensures ok ==> log == Logged(old(log), Reserve(base, size), State())
      ensures !ok <==>
                size > 0 &&
                ((old(available.count) == MAX_REGIONS && Punches(old(available.View()), base, base + size)) ||
                 (old(reserved.count) == MAX_REGIONS && !Touches(old(reserved.View()), base, base + size)))
      ensures !ok ==> CrowdedForReserve() && log == old(log) && log.Regions() >= MAX_REGIONS
    {
      hide LogOk, Range, Bytes, Total, Punches, Touches;
      ok := available.RemoveRegion(base, size);
      if ok {
        EndsBound(old(available.View()), available.View(), WORD - 1);
        ok := reserved.AddRegion(base, size);
      }
      if ok {
        LogExtends(log, old(State()), Reserve(base, size), State());
        log := Logged(log, Reserve(base, size), State());
      }
    }

    static ghost predicate EndsBelow(s: seq<MemRegion>, size: nat)
    {
      exists r :: r in s && r.End() < size
    }

    /** The place that the search computes for region `r` does not start before it. */
    static ghost predicate HasRoom(r: MemRegion, size: nat, align: nat)
      requires 0 < align < WORD
    {
      size <= r.End() && AlignDown(r.End() - size, align) >= r.base
    }

    /** The greatest aligned place at which `size` bytes fit into region `r`, if any. */
    static lemma RegionFit(s: seq<MemRegion>, k: nat, size: nat, align: nat)
      requires Separated(s) && k < |s| && 0 < size <= s[k].End() < WORD
      requires IsPowerOfTwo(align) && align < WORD
      ensures var a := AlignDown(s[k].End() - size, align);
        && (a >= s[k].base ==> Fits(Bytes(s), size, align, a))
        && (forall b: nat :: Aligned(b, align) && s[k].base <= b && b + size <= s[k].End() ==> s[k].base <= b <= a)
    {
      hide Bytes, Range;
      var v := s[k].End() - size;
      var a := AlignDown(v, align);
      AlignDownIsGreatest(v, align, 0);
      RegionIsIn(s, k);
      assert a >= s[k].base ==> Range(a, size) <= Range(s[k].base, s[k].size);
      forall b: nat | Aligned(b, align) && s[k].base <= b && b + size <= s[k].End()
        ensures s[k].base <= b <= a
      {
        AlignDownIsGreatest(v, align, b);
      }
    }

    /** A fit lies in one region; it is not above the fits of higher regions. */
    static lemma FitsAreBelow(s: seq<MemRegion>, k: nat, size: nat, align: nat, b: nat)
      requires Separated(s) && k <= |s| && size > 0 && IsPowerOfTwo(align) && align < WORD
      requires forall r :: r in s ==> r.End() < WORD
      requires forall j :: k <= j < |s| ==> !HasRoom(s[j], size, align)
      requires Fits(Bytes(s), size, align, b)
      ensures Aligned(b, align) && exists j :: 0 <= j < k && s[j].base <= b && b + size <= s[j].End()
    {
      hide Bytes, Range, In, AlignDown, IsPowerOfTwo;
      var j := RunInOneRegion(s, b, size);
      assert s[j] in s;
      RegionFit(s, j, size, align);
    }

    /**
     Finds room from the top of the highest region that has it. The result is the greatest
     aligned fit. If nothing fits anywhere the search ends without a place, or underflows
     if some region ends below the size.
     */
    method FindRoom(size: nat, align: nat) returns (r: Early)
      requires Valid() && size > 0 && IsPowerOfTwo(align) && align < WORD
      ensures !r.Full?
      ensures r.Found? ==> Highest(available.Covered(), size, align, r.addr)
      ensures !r.Found? ==> forall b: nat :: !Fits(available.Covered(), size, align, b)
      ensures !r.Found? ==> (r.Underflow? <==> EndsBelow(available.View(), size))
    {
      hide Bytes, Range, Fits, AlignDown, Total, In;
      ghost var s := available.View();
      var i: nat := available.count;
      while i > 0
        invariant i <= available.count
        invariant forall j :: i <= j < |s| ==> !HasRoom(s[j], size, align) && size <= s[j].End()
      {
        i := i - 1;
        var reg := available.regions[i];
        assert s[i] in s;
        if reg.End() < size {
          LowRegionsDoNotFit(s, i, size, align);
          return Underflow;
        }
        var base := AlignDown(reg.End() - size, align);
        RegionFit(s, i, size, align);
        if base >= reg.base {
          forall b: nat | Fits(Bytes(s), size, align, b)
            ensures b <= base
          {
            FitsAreBelow(s, i + 1, size, align, b);
          }
          return Found(base);
        }
      }
      NothingFits(s, size, align);
      return NoFit;
    }

    static lemma NothingFits(s: seq<MemRegion>, size: nat, align: nat)
      requires Separated(s) && size > 0 && IsPowerOfTwo(align) && 0 < align < WORD
      requires forall r :: r in s ==> r.End() < WORD
      requires forall j :: 0 <= j < |s| ==> !HasRoom(s[j], size, align)
      ensures forall b: nat :: !Fits(Bytes(s), size, align, b)
    {
      hide Bytes, Range, Fits, AlignDown, In, IsPowerOfTwo;
      forall b: nat
        ensures !Fits(Bytes(s), size, align, b)
      {
        if Fits(Bytes(s), size, align, b) {
          FitsAreBelow(s, 0, size, align, b);
        }
      }
    }

    /** Below a region that ends before the size, nothing has room. */
    static lemma LowRegionsDoNotFit(s: seq<MemRegion>, i: nat, size: nat, align: nat)
      requires Separated(s) && i < |s| && s[i].End() < size && IsPowerOfTwo(align) && 0 < align < WORD
      requires forall r :: r in s ==> r.End() < WORD
      requires forall j :: i < j < |s| ==> !HasRoom(s[j], size, align)
      ensures forall b: nat :: !Fits(Bytes(s), size, align, b)
    {
      hide Bytes, Range, Fits, AlignDown, In, IsPowerOfTwo;
      assert forall j :: 0 <= j <= i ==> s[j].End() < size;
      NothingFits(s, size, align);
    }

    /** Moves a range from what is available to what is handed out; `ok` is false where a full array panics. */
    method Take(a: nat, size: nat) returns (ok: bool)
      requires ArraysOk() && size > 0
      modifies available, available.regions, allotted, allotted.regions
      ensures ok ==> ArraysOk() && State() == MemblockState(old(State()).available - Range(a, size),
                                                            old(State()).reserved,
                                                            old(State()).allotted + Range(a, size))
      ensures !ok <==>
                (old(available.count) == MAX_REGIONS && Punches(old(available.View()), a, a + size)) ||
                (old(allotted.count) == MAX_REGIONS && !Touches(old(allotted.View()), a, a + size))
      ensures !ok ==> CrowdedForAlloc()
      ensures available.count <= old(available.count) + 1 || !ok
      ensures allotted.count <= old(allotted.count) + 1 || !ok
    {
      ok := available.RemoveRegion(a, size);
      if ok {
        EndsBound(old(available.View()), available.View(), WORD - 1);
        ok := allotted.AddRegion(a, size);
      }
    }

    /** Moves an aligned range from what is available to what is handed out. */
    method EarlyAlloc(size: nat, align: nat) returns (r: Early)
      requires Valid() && size > 0 && IsPowerOfTwo(align) && align < WORD
      modifies this`log, available, available.regions, allotted, allotted.regions
      ensures r.NoFit? ==> Valid() && Step(old(State()), BootCall.EarlyAlloc(size, align, None), State())
      ensures r.NoFit? ==> log == Logged(old(log), BootCall.EarlyAlloc(size, align, None), State())
      ensures r.Found? ==> Valid() && Step(old(State()), BootCall.EarlyAlloc(size, align, Some(r.addr)), State())
      ensures r.Found? ==> log == Logged(old(log), BootCall.EarlyAlloc(size, align, Some(r.addr)), State())
      ensures r.Underflow? <==>
                (forall b: nat :: !Fits(old(State()).available, size, align, b)) &&
                EndsBelow(old(available.View()), size)
      ensures r.Underflow? ==> Valid() && log == old(log) && State() == old(State())
      ensures r.Underflow? ==> available.View() == old(available.View())
      ensures r.Full? ==> Highest(old(State()).available, size, align, r.addr) && CrowdedForAlloc()
      ensures r.Full? ==> log == old(log) && log.Regions() >= MAX_REGIONS
      ensures r.Found? || r.Full? ==>
                (r.Full? <==>
                   (old(available.count) == MAX_REGIONS && Punches(old(available.View()), r.addr, r.addr + size)) ||
                   (old(allotted.count) == MAX_REGIONS && !Touches(old(allotted.View()), r.addr, r.addr + size)))
    {
      hide Fits, Highest, LogOk, Range, Separated, Bytes, Total, Punches, Touches, EndsBelow;
      ghost var regions := available.View();
      var found := FindRoom(size, align);
      assert available.View() == regions;
      if found.Underflow? {
        return Underflow;
      }
      if found.NoFit? {
        LogExtends(log, State(), BootCall.EarlyAlloc(size, align, None), State());
        log := Logged(log, BootCall.EarlyAlloc(size, align, None), State());
        return NoFit;
      }
      HighestFits(old(State()).available, size, align, found.addr);
      var ok := Take(found.addr, size);
      if !ok {
        return Full(found.addr);
      }
      LogExtends(log, old(State()), BootCall.EarlyAlloc(size, align, Some(found.addr)), State());
      log := Logged(log, BootCall.EarlyAlloc(size, align, Some(found.addr)), State());
      return found;
    }
  }
}
