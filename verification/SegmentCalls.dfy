/**
 Sequences of segment calls on one page table: which segments the table shows, which
 directories it keeps, and what every address translates to.
 */
module SegmentCalls {
  import opened Bits
  import opened Sv39
  import opened PageTables
  import opened Segments
  import M = Memblock

  datatype Segment = Segment(start: nat, end: nat, kind: BootMapType, flags: nat)

  function PlanFor(s: Segment): Plan { PlanOf(s.start, s.end) }

  predicate Holds(s: Segment, v: nat)
  {
    InRun(s.kind, v, PlanFor(s).first, PlanFor(s).last)
  }

  ghost predicate Apart(s: Segment, t: Segment)
  {
    forall v: nat :: !(Holds(s, v) && Holds(t, v))
  }

  /** The segment ends in physical memory, and its flags make leaves. */
  predicate Fine(s: Segment)
  {
    s.start <= PHYS_LIMIT && s.end <= PHYS_LIMIT && s.flags < 256 && HasRwx(s.flags)
  }

  /** The entry that a mapped segment gives a page number it holds. */
  function Picture(s: Segment, v: nat): Entry
    requires Holds(s, v)
  {
    Expected(PlanFor(s), WithValid(s.flags), v - Window(s.kind))
  }

  /** At `v` the tables show the segment of `live` that holds it, or nothing. */
  ghost predicate ShowsAt(mem: Tables, root: nat, live: set<Segment>, v: nat)
  {
    && (forall s :: s in live && Holds(s, v) ==> Lookup(mem, root, v) == Picture(s, v))
    && ((forall s :: s in live ==> !Holds(s, v)) ==> Lookup(mem, root, v) == Unmapped)
  }

  /** The tables show exactly the segments of `live`. */
  ghost predicate Shows(mem: Tables, root: nat, live: set<Segment>)
  {
    forall v: nat :: v < VPN_LIMIT ==> ShowsAt(mem, root, live, v)
  }

  // -------------------------------------------------------------- directories

  /** The segment has 4 KB pages in the 2 MB number `k`. */
  predicate SmallIn(s: Segment, k: nat)
  {
    SlotMeets(s.kind, k, PlanFor(s).first, PlanFor(s).largeFrom) ||
    SlotMeets(s.kind, k, PlanFor(s).largeTo, PlanFor(s).last)
  }

  function SmallSlots(s: Segment): set<nat>
  {
    set k: nat | k < VPN_LIMIT / 512 && SmallIn(s, k)
  }

  /** The segment maps the 2 MB number `k` as one page. */
  predicate LargeIn(s: Segment, k: nat)
  {
    PlanFor(s).largeFrom < PlanFor(s).largeTo &&
    (Window(s.kind) + PlanFor(s).largeFrom) / 512 <= k < (Window(s.kind) + PlanFor(s).largeTo) / 512
  }

  /** A directory is in the way of one of the segment's 2 MB pages. */
  ghost predicate Blocked(s: Segment, dirs: set<nat>)
  {
    exists k :: k in dirs && LargeIn(s, k)
  }

  /** The directories of 4 KB pages are those of the 2 MB numbers in `dirs`. */
  ghost predicate DirsAre(mem: Tables, root: nat, dirs: set<nat>)
  {
    forall v: nat :: v < VPN_LIMIT ==> (HasDir(mem, root, v) <==> v / 512 in dirs)
  }

  lemma HungIsBlocked(mem: Tables, root: nat, dirs: set<nat>, s: Segment)
    requires DirsAre(mem, root, dirs) && s.end <= PHYS_LIMIT
    requires forall k :: k in dirs ==> k < VPN_LIMIT / 512
    ensures Hung(mem, root, s.kind, PlanFor(s).largeFrom, PlanFor(s).largeTo) <==> Blocked(s, dirs)
  {
    LastIsBounded(s.start, s.end);
    PlanFacts(s.start, s.end);
    hide HasDir, PlanOf, LargeIn;
    var plan := PlanFor(s);
    if Hung(mem, root, s.kind, plan.largeFrom, plan.largeTo) {
      var v: nat :| InRun(s.kind, v, plan.largeFrom, plan.largeTo) && HasDir(mem, root, v);
      LargeInMeans(s, v);
    }
    if Blocked(s, dirs) {
      var k :| k in dirs && LargeIn(s, k);
      assert 512 * k / 512 == k;
      LargeInMeans(s, 512 * k);
    }
  }

  lemma LargeInMeans(s: Segment, v: nat)
    ensures LargeIn(s, v / 512) <==> InRun(s.kind, v, PlanFor(s).largeFrom, PlanFor(s).largeTo)
  {
    PlanFacts(s.start, s.end);
    hide PlanOf;
    var plan := PlanFor(s);
    if plan.largeFrom < plan.largeTo {
      WholeSlots(Window(s.kind) + plan.largeFrom, Window(s.kind) + plan.largeTo, v);
    }
  }

  lemma WholeSlots(a: nat, b: nat, v: nat)
    requires a % 512 == 0 && b % 512 == 0
    ensures a <= v < b <==> a / 512 <= v / 512 < b / 512
  {
  }

  lemma DirsFollow(mem: Tables, mem': Tables, root: nat, dirs: set<nat>, s: Segment, action: MapAction)
    requires DirsAre(mem, root, dirs) && SegmentDirs(mem, mem', root, s.kind, action, PlanFor(s))
    ensures DirsAre(mem', root, if action.Map? then dirs + SmallSlots(s) else dirs)
  {
    hide HasDir, PlanOf, SlotMeets;
  }

  // -------------------------------------------------------------------- calls

  datatype TableCall = MapCall(segment: Segment) | UnmapCall(segment: Segment)

  /** A segment is mapped apart from all that are mapped, and unmapped if it is mapped or empty. */
  ghost predicate Legal(live: set<Segment>, call: TableCall)
  {
    var s := call.segment;
    && Fine(s)
    && match call
       case MapCall(_) => forall t :: t in live ==> Apart(s, t)
       case UnmapCall(_) =>
         && (forall v: nat :: Holds(s, v) ==> s in live)
         && (forall t :: t in live && t != s ==> Apart(s, t))
  }

  function LiveAfter(live: set<Segment>, call: TableCall): set<Segment>
  {
    match call
    case MapCall(s) => live + {s}
    case UnmapCall(s) => live - {s}
  }

  function DirsAfter(dirs: set<nat>, call: TableCall): set<nat>
  {
    match call
    case MapCall(s) => dirs + SmallSlots(s)
    case UnmapCall(s) => dirs
  }

  function ActionOf(call: TableCall): MapAction
  {
    match call
    case MapCall(s) => Map(s.flags)
    case UnmapCall(_) => Unmap
  }

  /** A legal call finds the tables as it needs them. */
  lemma CallReady(mem: Tables, root: nat, live: set<Segment>, call: TableCall)
    requires Shows(mem, root, live) && Legal(live, call)
    ensures var s := call.segment;
      SegmentReady(mem, root, s.kind, ActionOf(call), PlanFor(s), WithValid(s.flags))
  {
    hide Lookup, PlanOf, Expected, WithValid, HasRwx;
    var s := call.segment;
    LastIsBounded(s.start, s.end);
    forall v: nat | Holds(s, v)
      ensures Lookup(mem, root, v) == if call.MapCall? then Unmapped else Picture(s, v)
    {
      assert ShowsAt(mem, root, live, v);
    }
  }

  /** A segment whose range is unmapped is apart from every live one. */
  lemma ReadyMeansApart(mem: Tables, root: nat, live: set<Segment>, s: Segment, was: nat)
    requires Shows(mem, root, live) && Fine(s)
    requires SegmentReady(mem, root, s.kind, Map(s.flags), PlanFor(s), was)
    ensures Legal(live, MapCall(s))
  {
    hide Lookup, PlanOf, WithValid, HasRwx;
    LastIsBounded(s.start, s.end);
    forall t, v: nat | t in live && Holds(s, v)
      ensures !Holds(t, v)
    {
      assert ShowsAt(mem, root, live, v);
      assert Lookup(mem, root, v) == Unmapped;
    }
  }

  /** Its effect leaves the tables showing the new set of segments. */
  lemma CallKeeps(mem: Tables, mem': Tables, root: nat, live: set<Segment>, call: TableCall)
    requires Shows(mem, root, live) && Legal(live, call)
    requires SegmentIs(mem, mem', root, call.segment.kind, ActionOf(call), PlanFor(call.segment))
    ensures Shows(mem', root, LiveAfter(live, call))
  {
    hide Lookup, PlanOf, Expected, WithValid, InRun, HasRwx, ShowsAt;
    forall v: nat | v < VPN_LIMIT
      ensures ShowsAt(mem', root, LiveAfter(live, call), v)
    {
      CallKeepsAt(mem, mem', root, live, call, v);
    }
  }

  lemma CallKeepsAt(mem: Tables, mem': Tables, root: nat, live: set<Segment>, call: TableCall, v: nat)
    requires ShowsAt(mem, root, live, v) && Legal(live, call) && v < VPN_LIMIT
    requires SegmentIs(mem, mem', root, call.segment.kind, ActionOf(call), PlanFor(call.segment))
    ensures ShowsAt(mem', root, LiveAfter(live, call), v)
  {
    hide Lookup, PlanOf, Expected, WithValid, InRun, HasRwx;
    var s := call.segment;
    if call.UnmapCall? && !Holds(s, v) && (forall t :: t in live - {s} ==> !Holds(t, v)) {
      assert forall t :: t in live ==> !Holds(t, v);
    }
  }

  /** The table shows the segments of `live` and keeps the directories of `dirs`. */
  ghost predicate Showing(mem: Tables, root: nat, live: set<Segment>, dirs: set<nat>)
  {
    Shows(mem, root, live) && DirsAre(mem, root, dirs) && forall k :: k in dirs ==> k < VPN_LIMIT / 512
  }

  /** The most directories that a call hangs. */
  function Need(call: TableCall): nat
  {
    match call
    case MapCall(s) => PlanNeed(s.kind, PlanFor(s))
    case UnmapCall(_) => 0
  }

  function NeedAll(calls: seq<TableCall>): nat
  {
    if calls == [] then 0 else NeedAll(calls[..|calls| - 1]) + Need(calls[|calls| - 1])
  }

  /**
   One call of `map_segment`. If it does not run out of directories it succeeds exactly if
   it is legal and no directory is in the way of a 2 MB page.
   */
  method Perform(pt: PageTable, call: TableCall, ghost live: set<Segment>, ghost dirs: set<nat>) returns (r: Outcome)
    requires pt.Valid() && Showing(pt.tables, pt.root, live, dirs) && Fine(call.segment)
    requires call.UnmapCall? ==> Legal(live, call)
    modifies pt, pt.memory`log, pt.memory.available, pt.memory.available.regions
    modifies pt.memory.allotted, pt.memory.allotted.regions
    ensures call.UnmapCall? ==> r == Done
    ensures r == Done || Exhausted(r) || r == AlreadyMapped || r == InsideLargePage
    ensures call.MapCall? ==>
              if Legal(live, call) && !Blocked(call.segment, dirs) then r == Done || Exhausted(r) else r != Done
    ensures Legal(live, call) ==> r != InsideLargePage
    ensures pt.Why(r) && M.TookPages(old(pt.memory.log), pt.memory.log)
    ensures |pt.memory.log.calls| <= |old(pt.memory.log.calls)| + Need(call)
    ensures r == Done ==> pt.Valid() && Showing(pt.tables, pt.root, LiveAfter(live, call), DirsAfter(dirs, call))
  {
    hide PlanOf, Shows, DirsAre, SegmentIs, SegmentDirs, SegmentReady, Hung, Blocked, HasRwx, Apart, InRun, Legal,
         M.TookPages, M.Enough, PageTable.Valid, PageTable.Why, SmallIn, PlanNeed;
    TreeOf(pt);
    var s := call.segment;
    ghost var mem, was := pt.tables, WithValid(s.flags);
    if Legal(live, call) {
      CallReady(mem, pt.root, live, call);
    } else if SegmentReady(mem, pt.root, s.kind, Map(s.flags), PlanFor(s), was) {
      ReadyMeansApart(mem, pt.root, live, s, was);
    }
    HungIsBlocked(pt.tables, pt.root, dirs, s);
    r := MapSegment(s.start, s.end, pt, s.kind, ActionOf(call), was);
    if r == Done {
      CallKeeps(mem, pt.tables, pt.root, live, call);
      DirsFollow(mem, pt.tables, pt.root, dirs, s, ActionOf(call));
    }
  }

  // --------------------------------------------------------- sequences of calls

  ghost function LiveAt(live: set<Segment>, calls: seq<TableCall>, i: nat): set<Segment>
    requires i <= |calls|
  {
    if i == 0 then live else LiveAfter(LiveAt(live, calls, i - 1), calls[i - 1])
  }

  ghost function DirsAt(dirs: set<nat>, calls: seq<TableCall>, i: nat): set<nat>
    requires i <= |calls|
  {
    if i == 0 then dirs else DirsAfter(DirsAt(dirs, calls, i - 1), calls[i - 1])
  }

  /** What the sequence asks for makes sense: leaves are to be mapped, and what is unmapped was mapped. */
  ghost predicate Sensible(live: set<Segment>, calls: seq<TableCall>)
  {
    forall i :: 0 <= i < |calls| ==>
      Fine(calls[i].segment) && (calls[i].UnmapCall? ==> Legal(LiveAt(live, calls, i), calls[i]))
  }

  /** Map `i` would meet a live segment, or a directory that earlier calls left. */
  ghost predicate StopsAt(live: set<Segment>, dirs: set<nat>, calls: seq<TableCall>, i: nat)
    requires i < |calls|
  {
    calls[i].MapCall? &&
    (!Legal(LiveAt(live, calls, i), calls[i]) || Blocked(calls[i].segment, DirsAt(dirs, calls, i)))
  }

  lemma StopsMeans(live: set<Segment>, dirs: set<nat>, calls: seq<TableCall>, i: nat)
    requires i < |calls|
    ensures StopsAt(live, dirs, calls, i) <==>
              calls[i].MapCall? &&
              !(Legal(LiveAt(live, calls, i), calls[i]) && !Blocked(calls[i].segment, DirsAt(dirs, calls, i)))
  {
    hide Legal, Blocked;
  }

  /**
   Any sequence of calls. If it does not run out of directories it succeeds if and only if
   no map meets a live segment or a directory left behind, and then the table shows exactly
   the segments that are mapped and not unmapped again. It does not run out if there are
   more pages and region slots than the calls need.
   */
  method PerformAll(pt: PageTable, calls: seq<TableCall>, ghost live: set<Segment>, ghost dirs: set<nat>)
        returns (r: Outcome)
    requires pt.Valid() && Showing(pt.tables, pt.root, live, dirs) && Sensible(live, calls)
    modifies pt, pt.memory`log, pt.memory.available, pt.memory.available.regions
    modifies pt.memory.allotted, pt.memory.allotted.regions
    ensures r == Done || Exhausted(r) || r == AlreadyMapped || r == InsideLargePage
    ensures if exists i :: 0 <= i < |calls| && StopsAt(live, dirs, calls, i) then r != Done
            else r == Done || Exhausted(r)
    ensures (forall i :: 0 <= i < |calls| ==> Legal(LiveAt(live, calls, i), calls[i])) ==> r != InsideLargePage
    ensures pt.Why(r) && M.TookPages(old(pt.memory.log), pt.memory.log)
    ensures |pt.memory.log.calls| <= |old(pt.memory.log.calls)| + NeedAll(calls)
    ensures M.Enough(old(pt.memory.log), old(pt.memory.State()), NeedAll(calls)) ==> !Exhausted(r)
    ensures r == Done ==>
              pt.Valid() && Showing(pt.tables, pt.root, LiveAt(live, calls, |calls|), DirsAt(dirs, calls, |calls|))
  {
    hide Showing, Legal, Blocked, Fine, StopsAt, Need, NeedAll, M.TookPages, M.Enough, M.LogOk, PageTable.Valid,
         PageTable.Why, M.MemblockAllocator.ArraysOk, LiveAfter, DirsAfter, M.MemblockAllocator.Valid;
    HistoryOf(pt);
    M.TookNone(pt.memory.log);
    ghost var log0, state0 := pt.memory.log, pt.memory.State();
    NeedSoFar(calls, 0);
    var k := 0;
    while k < |calls|
      invariant 0 <= k <= |calls| && pt.Valid() && M.TookPages(old(pt.memory.log), pt.memory.log)
      invariant Showing(pt.tables, pt.root, LiveAt(live, calls, k), DirsAt(dirs, calls, k))
      invariant forall i :: 0 <= i < k ==> !StopsAt(live, dirs, calls, i)
      invariant |pt.memory.log.calls| <= |log0.calls| + NeedAll(calls[..k])
    {
      ghost var log := pt.memory.log;
      StopsMeans(live, dirs, calls, k);
      NeedSoFar(calls, k);
      r := Perform(pt, calls[k], LiveAt(live, calls, k), DirsAt(dirs, calls, k));
      M.TookMore(old(pt.memory.log), log, pt.memory.log);
      if r != Done {
        NotExhausted(pt, log0, state0, NeedAll(calls), r);
        return;
      }
      k := k + 1;
    }
    NeedSoFar(calls, |calls|);
    r := Done;
    NoFailure(pt, r);
  }

  lemma {:induction false} NeedSoFar(calls: seq<TableCall>, k: nat)
    requires k <= |calls|
    ensures NeedAll(calls[..k]) <= NeedAll(calls)
    ensures k == 0 ==> NeedAll(calls[..k]) == 0
    ensures k == |calls| ==> calls[..k] == calls
    ensures k < |calls| ==> NeedAll(calls[..k + 1]) == NeedAll(calls[..k]) + Need(calls[k])
    ensures k < |calls| ==> NeedAll(calls[..k + 1]) <= NeedAll(calls)
    decreases |calls| - k
  {
    hide Need;
    if k < |calls| {
      NeedSoFar(calls, k + 1);
      assert calls[..k + 1][..k] == calls[..k];
    } else {
      assert calls[..k] == calls;
    }
  }

  // -------------------------------------------------------- what addresses mean

  /**
   Each address of a live segment goes to the physical address it stands for, with the
   flags asked for, exactly if these are a legal leaf.
   */
  lemma ShowsTranslates(mem: Tables, slot: map<nat, Slot>, root: nat, live: set<Segment>, s: Segment, pa: nat)
    requires Tree(mem, slot, root) && Shows(mem, root, live) && s in live && Fine(s)
    requires PlanFor(s).first * 4096 <= pa < PlanFor(s).last * 4096
    ensures Translate(mem, root, PaToVa(s.kind, pa)) ==
              if LegalLeaf(s.flags) then Some((pa, s.flags / 2 * 2 + 1)) else None
  {
    LastIsBounded(s.start, s.end);
    hide PlanOf, Lookup, Walk, Tree, LegalLeaf, WithValid, HasRwx;
    PaToVaIsWindow(s.kind, pa);
    var v := VpnOf(PaToVa(s.kind, pa));
    assert Holds(s, v) && ShowsAt(mem, root, live, v);
    ExpectedTranslates(mem, slot, root, s.kind, PlanFor(s), s.flags, pa);
  }

  /** An address that no live segment holds does not translate. */
  lemma ShowsNothingElse(mem: Tables, slot: map<nat, Slot>, root: nat, live: set<Segment>, va: nat)
    requires Tree(mem, slot, root) && Shows(mem, root, live)
    requires forall s :: s in live ==> !Holds(s, VpnOf(va))
    ensures Translate(mem, root, va) == None
  {
    hide Lookup, Walk, Tree, Holds;
    assert ShowsAt(mem, root, live, VpnOf(va));
    WalkFindsLookup(mem, slot, root, VpnOf(va));
  }

  /** The two windows never meet: an identity segment and its linear alias are always apart. */
  lemma AliasesAreApart(s: Segment, t: Segment)
    requires s.kind == Identical && t.kind == Linear && s.end <= PHYS_LIMIT
    ensures Apart(s, t)
  {
    LastIsBounded(s.start, s.end);
  }

  // ------------------------------------------- maps alone, then unmaps

  ghost predicate PairwiseApart(maps: seq<Segment>)
  {
    forall i, j :: 0 <= i < j < |maps| ==> Apart(maps[i], maps[j])
  }

  function Live(maps: seq<Segment>): set<Segment> { set s | s in maps }

  /** The directories that mapping the segments hangs. */
  ghost function Dirs(maps: seq<Segment>): set<nat>
  {
    if maps == [] then {} else Dirs(maps[..|maps| - 1]) + SmallSlots(maps[|maps| - 1])
  }

  lemma {:induction false} DirsAreUsed(maps: seq<Segment>, k: nat)
    requires k in Dirs(maps)
    ensures exists t :: t in maps && SmallIn(t, k)
  {
    hide SmallIn;
    var n := |maps| - 1;
    if k in Dirs(maps[..n]) {
      DirsAreUsed(maps[..n], k);
      var t :| t in maps[..n] && SmallIn(t, k);
      assert t in maps;
    } else {
      assert maps[n] in maps && SmallIn(maps[n], k);
    }
  }

  /** A run that meets a 2 MB number holds a page of it. */
  lemma PageOfSlot(kind: BootMapType, k: nat, lo: nat, hi: nat) returns (v: nat)
    requires SlotMeets(kind, k, lo, hi)
    ensures InRun(kind, v, lo, hi) && v / 512 == k
  {
    v := Max(512 * k, Window(kind) + lo);
  }

  /** A segment with a 2 MB page holds all of it. */
  lemma LargeHolds(s: Segment, k: nat, v: nat)
    requires LargeIn(s, k) && v / 512 == k
    ensures Holds(s, v)
  {
    PlanFacts(s.start, s.end);
    hide PlanOf;
  }

  /** A 4 KB page of one segment where another has a 2 MB page: they are not apart. */
  lemma SmallMeetsLarge(s: Segment, t: Segment, k: nat)
    requires LargeIn(s, k) && SmallIn(t, k)
    ensures !Apart(s, t)
  {
    PlanFacts(t.start, t.end);
    hide PlanOf, LargeIn;
    var p := PlanFor(t);
    var v;
    if SlotMeets(t.kind, k, p.first, p.largeFrom) {
      v := PageOfSlot(t.kind, k, p.first, p.largeFrom);
    } else {
      v := PageOfSlot(t.kind, k, p.largeTo, p.last);
    }
    LargeHolds(s, k, v);
    assert Holds(t, v);
  }

  /** As long as segments are only mapped, and apart, no directory is ever in the way. */
  lemma MapIsFine(maps: seq<Segment>, s: Segment)
    requires PairwiseApart(maps + [s]) && Fine(s)
    ensures Legal(Live(maps), MapCall(s)) && !Blocked(s, Dirs(maps))
  {
    hide Apart, HasRwx, PlanOf, SmallIn, LargeIn;
    var all := maps + [s];
    forall t | t in maps
      ensures Apart(s, t)
    {
      var i :| 0 <= i < |maps| && maps[i] == t;
      assert Apart(all[i], all[|maps|]);
      ApartBoth(s, t);
    }
    if Blocked(s, Dirs(maps)) {
      var k :| k in Dirs(maps) && LargeIn(s, k);
      DirsAreUsed(maps, k);
      var t :| t in maps && SmallIn(t, k);
      SmallMeetsLarge(s, t, k);
    }
  }

  lemma ApartBoth(s: Segment, t: Segment)
    ensures Apart(s, t) == Apart(t, s)
  {
    hide Holds;
  }

  /** Maps one segment more; no assertion fires. */
  method MapNext(pt: PageTable, s: Segment, ghost maps: seq<Segment>) returns (r: Outcome)
    requires pt.Valid() && Showing(pt.tables, pt.root, Live(maps), Dirs(maps))
    requires PairwiseApart(maps + [s]) && Fine(s)
    modifies pt, pt.memory`log, pt.memory.available, pt.memory.available.regions
    modifies pt.memory.allotted, pt.memory.allotted.regions
    ensures r == Done || Exhausted(r)
    ensures pt.Why(r) && M.TookPages(old(pt.memory.log), pt.memory.log)
    ensures |pt.memory.log.calls| <= |old(pt.memory.log.calls)| + Need(MapCall(s))
    ensures r == Done ==> pt.Valid()
    ensures r == Done ==> Showing(pt.tables, pt.root, Live(maps + [s]), Dirs(maps + [s]))
  {
    hide Showing, Legal, Blocked, M.TookPages, PageTable.Valid, PageTable.Why, SmallSlots, Need;
    MapIsFine(maps, s);
    r := Perform(pt, MapCall(s), Live(maps), Dirs(maps));
    assert (maps + [s])[..|maps|] == maps;
    assert Live(maps + [s]) == Live(maps) + {s};
  }

  function MapsNeed(maps: seq<Segment>): nat
  {
    if maps == [] then 0 else MapsNeed(maps[..|maps| - 1]) + Need(MapCall(maps[|maps| - 1]))
  }

  lemma OneMega(w: nat, a: nat, b: nat)
    requires w % 0x4_0000 == 0 && b <= a / 512 * 512 + 512
    ensures Megas(w + a, w + b) <= 1 && Gigas(w + a, w + b) <= 1
  {
    var k := w / 0x4_0000;
    assert w == 0x4_0000 * k && w == 512 * (512 * k);
    if a < b {
      assert (w + a) / 512 == 512 * k + a / 512 && (w + b - 1) / 512 == 512 * k + (b - 1) / 512;
      SameMega(w + a, w + b - 1);
    }
  }

  /** Numbers in one 2 MB page are in one 1 GB page. */
  lemma SameMega(x: nat, y: nat)
    requires x / 512 == y / 512
    ensures x / 0x4_0000 == y / 0x4_0000
  {
    assert x / 0x4_0000 == x / 512 / 512;
    assert y / 0x4_0000 == y / 512 / 512;
  }

  lemma FourGigas(w: nat, a: nat, b: nat)
    requires w % 0x4_0000 == 0 && b <= 0x10_0000
    ensures Gigas(w + a, w + b) <= 4
  {
  }

  /** Each end of a segment lies in one 2 MB page, and the 4 GB below it have four 1 GB numbers. */
  lemma NeedBound(s: Segment)
    requires s.end <= PHYS_LIMIT
    ensures Need(MapCall(s)) <= 8
  {
    hide Megas, Gigas;
    var plan, w := PlanFor(s), Window(s.kind);
    PlanEnds(s.start, s.end);
    OneMega(w, plan.first, plan.largeFrom);
    FourGigas(w, plan.largeFrom, plan.largeTo);
    OneMega(w, plan.largeTo, plan.last);
  }

  lemma PlanEnds(start: nat, end: nat)
    requires end <= PHYS_LIMIT
    ensures var plan := PlanOf(start, end);
      && plan.largeFrom <= plan.first / 512 * 512 + 512 && plan.last <= plan.largeTo / 512 * 512 + 512
      && plan.largeTo <= 0x10_0000
  {
  }

  lemma {:induction false} MapsNeedBound(maps: seq<Segment>)
    requires forall s :: s in maps ==> s.end <= PHYS_LIMIT
    ensures MapsNeed(maps) <= 8 * |maps|
  {
    hide Need;
    if maps != [] {
      MapsNeedBound(maps[..|maps| - 1]);
      NeedBound(maps[|maps| - 1]);
    }
  }

  lemma {:induction false} MapsNeedSoFar(maps: seq<Segment>, k: nat)
    requires k <= |maps|
    ensures MapsNeed(maps[..k]) <= MapsNeed(maps)
    ensures k == 0 ==> MapsNeed(maps[..k]) == 0
    ensures k < |maps| ==> MapsNeed(maps[..k + 1]) == MapsNeed(maps[..k]) + Need(MapCall(maps[k]))
    ensures k < |maps| ==> MapsNeed(maps[..k + 1]) <= MapsNeed(maps)
    decreases |maps| - k
  {
    hide Need;
    if k < |maps| {
      MapsNeedSoFar(maps, k + 1);
      assert maps[..k + 1][..k] == maps[..k];
    } else {
      assert maps[..k] == maps;
    }
  }

  /** Maps segments that are pairwise apart; no assertion fires. */
  method MapAll(pt: PageTable, more: seq<Segment>, ghost maps: seq<Segment>) returns (r: Outcome)
    requires pt.Valid() && Showing(pt.tables, pt.root, Live(maps), Dirs(maps))
    requires PairwiseApart(maps + more) && forall s :: s in more ==> Fine(s)
    modifies pt, pt.memory`log, pt.memory.available, pt.memory.available.regions
    modifies pt.memory.allotted, pt.memory.allotted.regions
    ensures r == Done || Exhausted(r)
    ensures pt.Why(r) && M.TookPages(old(pt.memory.log), pt.memory.log)
    ensures |pt.memory.log.calls| <= |old(pt.memory.log.calls)| + MapsNeed(more)
    ensures M.Enough(old(pt.memory.log), old(pt.memory.State()), MapsNeed(more)) ==> r == Done
    ensures r == Done ==> pt.Valid()
    ensures r == Done ==> Showing(pt.tables, pt.root, Live(maps + more), Dirs(maps + more))
  {
    hide Showing, Fine, Apart, M.TookPages, M.Enough, M.LogOk, PageTable.Valid, PageTable.Why, Dirs, Need, MapsNeed,
         M.MemblockAllocator.ArraysOk;
    HistoryOf(pt);
    M.TookNone(pt.memory.log);
    ghost var log0, state0 := pt.memory.log, pt.memory.State();
    MapsNeedSoFar(more, 0);
    var k := 0;
    assert maps + more[..0] == maps;
    while k < |more|
      invariant 0 <= k <= |more| && pt.Valid() && M.TookPages(old(pt.memory.log), pt.memory.log)
      invariant Showing(pt.tables, pt.root, Live(maps + more[..k]), Dirs(maps + more[..k]))
      invariant |pt.memory.log.calls| <= |log0.calls| + MapsNeed(more[..k])
    {
      ghost var log, now := pt.memory.log, maps + more[..k];
      PrefixApart(maps + more, now + [more[k]]);
      MapsNeedSoFar(more, k);
      r := MapNext(pt, more[k], now);
      M.TookMore(old(pt.memory.log), log, pt.memory.log);
      if r != Done {
        NotExhausted(pt, log0, state0, MapsNeed(more), r);
        return;
      }
      assert now + [more[k]] == maps + more[..k + 1];
      k := k + 1;
    }
    assert more[..k] == more;
    r := Done;
    NoFailure(pt, r);
  }

  lemma PrefixApart(maps: seq<Segment>, prefix: seq<Segment>)
    requires PairwiseApart(maps) && prefix <= maps
    ensures PairwiseApart(prefix)
  {
    hide Apart;
  }

  /** Unmaps live segments, in any order; no assertion fires, and no directory goes away. */
  method UnmapAll(pt: PageTable, gone: seq<Segment>, ghost live: set<Segment>, ghost dirs: set<nat>)
        returns (r: Outcome)
    requires pt.Valid() && Showing(pt.tables, pt.root, live, dirs)
    requires forall s :: s in gone ==> s in live && Fine(s)
    requires forall s, t :: s in live && t in live && s != t ==> Apart(s, t)
    requires forall i, j :: 0 <= i < j < |gone| ==> Apart(gone[i], gone[j])
    modifies pt, pt.memory`log, pt.memory.available, pt.memory.available.regions
    modifies pt.memory.allotted, pt.memory.allotted.regions
    ensures r == Done && pt.Valid() && M.TookPages(old(pt.memory.log), pt.memory.log)
    ensures |pt.memory.log.calls| == |old(pt.memory.log.calls)|
    ensures Showing(pt.tables, pt.root, live - Live(gone), dirs)
  {
    hide Showing, Fine, Apart, M.TookPages, PageTable.Valid, Holds;
    M.TookNone(pt.memory.log);
    var k := 0;
    assert live - Live(gone[..0]) == live;
    while k < |gone|
      invariant 0 <= k <= |gone| && pt.Valid() && M.TookPages(old(pt.memory.log), pt.memory.log)
      invariant Showing(pt.tables, pt.root, live - Live(gone[..k]), dirs)
      invariant |pt.memory.log.calls| == |old(pt.memory.log.calls)|
    {
      ghost var log, now := pt.memory.log, live - Live(gone[..k]);
      UnmapIsLegal(live, gone, k);
      r := Perform(pt, UnmapCall(gone[k]), now, dirs);
      M.TookMore(old(pt.memory.log), log, pt.memory.log);
      assert now - {gone[k]} == live - Live(gone[..k + 1]);
      k := k + 1;
    }
    assert gone[..k] == gone;
    r := Done;
  }

  lemma UnmapIsLegal(live: set<Segment>, gone: seq<Segment>, k: nat)
    requires k < |gone| && forall s :: s in gone ==> s in live && Fine(s)
    requires forall s, t :: s in live && t in live && s != t ==> Apart(s, t)
    requires forall i, j :: 0 <= i < j < |gone| ==> Apart(gone[i], gone[j])
    ensures Legal(live - Live(gone[..k]), UnmapCall(gone[k]))
  {
    hide Fine, Holds;
    var s, now := gone[k], live - Live(gone[..k]);
    forall v: nat | Holds(s, v)
      ensures s in now
    {
      forall i | 0 <= i < k
        ensures gone[i] != s
      {
        assert Apart(gone[i], gone[k]);
      }
    }
  }

  // --------------------------------------------------------- empty directories

  const PAGE_THEN_LARGE: seq<TableCall> := [
    MapCall(Segment(0, 4096, Identical, 6)),
    UnmapCall(Segment(0, 4096, Identical, 6)),
    MapCall(Segment(0, LARGE, Identical, 6))]

  /** A page is mapped and unmapped again; its directory stays, and blocks the 2 MB page. */
  lemma EmptyDirectoryStays()
    ensures Sensible({}, PAGE_THEN_LARGE) && StopsAt({}, {}, PAGE_THEN_LARGE, 2)
    ensures LiveAt({}, PAGE_THEN_LARGE, 2) == {}
    ensures forall i :: 0 <= i < 3 ==> Legal(LiveAt({}, PAGE_THEN_LARGE, i), PAGE_THEN_LARGE[i])
  {
    var calls := PAGE_THEN_LARGE;
    var s := Segment(0, 4096, Identical, 6);
    var l := Segment(0, LARGE, Identical, 6);
    assert PlanFor(s) == Plan(0, 0, 0, 1);
    assert PlanFor(l) == Plan(0, 0, 512, 512);
    hide PlanOf;
    assert LiveAt({}, calls, 0) == {};
    assert LiveAt({}, calls, 1) == {s};
    assert LiveAt({}, calls, 2) == {};
    assert SmallIn(s, 0) && 0 in SmallSlots(s);
    assert DirsAt({}, calls, 0) == {};
    assert DirsAt({}, calls, 1) == {} + SmallSlots(s);
    assert DirsAt({}, calls, 2) == DirsAt({}, calls, 1);
    assert LargeIn(l, 0);
  }

  /**
   On every table that shows nothing and has no directory, these three calls cannot succeed:
   unless no page or no region slot is left, the assertion that the entry is free stops them.
   */
  method EmptyDirectoryBlocks(pt: PageTable) returns (r: Outcome)
    requires pt.Valid() && Showing(pt.tables, pt.root, {}, {})
    modifies pt, pt.memory`log, pt.memory.available, pt.memory.available.regions
    modifies pt.memory.allotted, pt.memory.allotted.regions
    ensures r == AlreadyMapped || Exhausted(r)
    ensures pt.Why(r)
    ensures M.Enough(old(pt.memory.log), old(pt.memory.State()), 3) ==> r == AlreadyMapped
  {
    hide Showing, Sensible, StopsAt, PageTable.Valid, PageTable.Why, NeedAll, M.Enough;
    EmptyDirectoryStays();
    EmptyDirectoryNeeds();
    r := PerformAll(pt, PAGE_THEN_LARGE, {}, {});
  }

  /** Two directories for the page, and one that exists already for the 2 MB page. */
  lemma EmptyDirectoryNeeds()
    ensures NeedAll(PAGE_THEN_LARGE) == 3
  {
    var calls := PAGE_THEN_LARGE;
    var s := Segment(0, 4096, Identical, 6);
    var l := Segment(0, LARGE, Identical, 6);
    assert PlanFor(s) == Plan(0, 0, 0, 1);
    assert PlanFor(l) == Plan(0, 0, 512, 512);
    hide PlanOf;
    assert Need(MapCall(s)) == 2 && Need(MapCall(l)) == 1 && Need(UnmapCall(s)) == 0;
    hide Need;
    assert calls[..2] == [calls[0], calls[1]] && calls[..2][..1] == [calls[0]] && [calls[0]][..0] == [];
    assert NeedAll([calls[0]]) == 2;
    assert NeedAll([calls[0], calls[1]]) == 2;
  }

  // -------------------------------------------------------- write without read

  /** A page that is mapped with W alone does not translate. */
  method WriteOnlyFaults(pt: PageTable) returns (r: Outcome)
    requires pt.Valid() && Showing(pt.tables, pt.root, {}, {})
    modifies pt, pt.memory`log, pt.memory.available, pt.memory.available.regions
    modifies pt.memory.allotted, pt.memory.allotted.regions
    ensures r == Done || Exhausted(r)
    ensures pt.Why(r)
    ensures r == Done ==> Lookup(pt.tables, pt.root, 0) == Mapped(0, 0, 5) && Translate(pt.tables, pt.root, 0) == None
  {
    var s := Segment(0, 4096, Identical, 4);
    assert PlanFor(s) == Plan(0, 0, 0, 1) && Fine(s);
    hide PlanOf, Showing, Legal, Blocked, Lookup, Translate;
    OneSegment(s);
    r := Perform(pt, MapCall(s), {}, {});
    if r == Done {
      assert LiveAfter({}, MapCall(s)) == {s};
      WriteOnlyMeans(pt, s);
    }
  }

  lemma OneSegment(s: Segment)
    requires Fine(s)
    ensures Legal({}, MapCall(s)) && !Blocked(s, {})
  {
  }

  lemma WriteOnlyMeans(pt: PageTable, s: Segment)
    requires pt.Valid() && s == Segment(0, 4096, Identical, 4) && PlanFor(s) == Plan(0, 0, 0, 1) && Fine(s)
    requires Shows(pt.tables, pt.root, {s})
    ensures Lookup(pt.tables, pt.root, 0) == Mapped(0, 0, 5) && Translate(pt.tables, pt.root, 0) == None
  {
    hide PlanOf, Lookup, Tree, Translate;
    assert Holds(s, 0) && ShowsAt(pt.tables, pt.root, {s}, 0);
    ShowsTranslates(pt.tables, pt.slot, pt.root, {s}, s, 0);
  }
}
