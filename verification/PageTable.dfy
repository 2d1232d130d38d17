/**
 The kernel's page table: directory pages taken from the boot-time allocator, and entries
 for 4 KB and 2 MB pages written and cleared in place.
 */
module PageTables {
  import opened Bits
  import opened Regions
  import opened Sv39
  import M = Memblock

  /** Physical addresses stay below this bound, so that page numbers fit an entry. */
  const PA_LIMIT: nat := 4096 * PPN_LIMIT

  /** `Done`, or the reason for which the kernel panics. */
  datatype Outcome = Done | OutOfPages | ArrayFull | Overflow | InsideLargePage | AlreadyMapped | NotMapped

  predicate Exhausted(o: Outcome) { o == OutOfPages || o == ArrayFull }

  /** Every directory page lies in memory that was handed out early. */
  ghost predicate Owned(tables: Tables, allotted: set<nat>)
  {
    forall p :: p in tables ==> Range(p * 4096, 4096) <= allotted
  }

  lemma OwnedMore(tables: Tables, s: set<nat>, t: set<nat>)
    requires Owned(tables, s) && s <= t
    ensures Owned(tables, t)
  {
  }

  lemma OwnedWithPage(tables: Tables, tables': Tables, allotted: set<nat>, q: nat)
    requires Owned(tables, allotted) && Range(q * 4096, 4096) <= allotted && tables'.Keys <= tables.Keys + {q}
    ensures Owned(tables', allotted)
  {
  }

  lemma OwnedKeys(tables: Tables, tables': Tables, allotted: set<nat>)
    requires Owned(tables, allotted) && tables'.Keys == tables.Keys
    ensures Owned(tables', allotted)
  {
  }

  /** A page disjoint from what was handed out is not a directory yet. */
  lemma FreshPage(tables: Tables, allotted: set<nat>, a: nat)
    requires Owned(tables, allotted) && a % 4096 == 0 && Range(a, 4096) !! allotted
    ensures a / 4096 !in tables
  {
    assert a / 4096 * 4096 == a;
    assert a in Range(a, 4096) && a !in allotted;
  }

  lemma EndsAbove(s: seq<MemRegion>, bound: nat)
    requires Separated(s) && forall x: nat :: x in Bytes(s) ==> bound <= x
    ensures forall r :: r in s ==> bound <= r.End()
  {
    hide Bytes;
    forall i | 0 <= i < |s|
      ensures bound <= s[i].End()
    {
      assert Holds(s[i], s[i].base) && s[i].base in Bytes(s);
    }
  }

  lemma PageSizeIsPower()
    ensures IsPowerOfTwo(4096)
  {
    Pow2Values();
    TrailingZerosPow2(12);
  }

  /** The directories of 4 KB pages are those of `mem` and, if `grow`, the one for `vpn`. */
  ghost predicate DirsGrow(mem: Tables, mem': Tables, root: nat, vpn: nat, grow: bool)
  {
    forall v: nat :: v < VPN_LIMIT ==>
      (HasDir(mem', root, v) <==> HasDir(mem, root, v) || (grow && v / 512 == vpn / 512))
  }

  lemma DirsSame(mem: Tables, root: nat, vpn: nat)
    ensures DirsGrow(mem, mem, root, vpn, false)
    ensures HasDir(mem, root, vpn) ==> DirsGrow(mem, mem, root, vpn, true)
  {
    hide HasDir;
    forall v: nat | v / 512 == vpn / 512
      ensures HasDir(mem, root, v) == HasDir(mem, root, vpn)
    {
      SameDir(mem, root, vpn, v);
      HasDirs(mem, root, v);
      HasDirs(mem, root, vpn);
    }
  }

  lemma HasDirs(mem: Tables, root: nat, vpn: nat)
    ensures HasDir(mem, root, vpn) <==> PageAt(mem, root, vpn, 2).Some?
  {
  }

  lemma DirsCompose(mem0: Tables, mem1: Tables, mem2: Tables, root: nat, vpn: nat, grow1: bool, grow2: bool)
    requires DirsGrow(mem0, mem1, root, vpn, grow1) && DirsGrow(mem1, mem2, root, vpn, grow2)
    ensures DirsGrow(mem0, mem2, root, vpn, grow1 || grow2)
  {
    hide HasDir;
  }

  /** Everything that hanging an empty directory does and does not change. */
  lemma HangEffect(mem: Tables, slot: map<nat, Slot>, root: nat, vpn: nat, d: nat, page: nat, q: nat)
    requires Tree(mem, slot, root) && d < 2 && PageAt(mem, root, vpn, d) == Some(page)
    requires !IsValid(PteAt(mem, root, vpn, d)) && q !in mem && q < PPN_LIMIT && vpn < VPN_LIMIT
    ensures page in mem && |mem[page]| == ENTRIES
    ensures var mem', slot' := WithDirectory(mem, page, Index(vpn, d), q), slot[q := SlotAt(vpn, d + 1)];
      && Tree(mem', slot', root) && PageAt(mem', root, vpn, d + 1) == Some(q)
      && (forall v: nat :: Lookup(mem', root, v) == Lookup(mem, root, v))
      && DirsGrow(mem, mem', root, vpn, d == 1)
      && mem'.Keys == mem.Keys + {q}
      && (forall e :: d < e < 3 ==> PteAt(mem', root, vpn, e) == PteAt(mem, root, vpn, e))
  {
    DirectoryReadsZero(mem, slot, root, vpn, d, q, vpn);
    PathSlots(mem, slot, root, vpn, d);
    hide Tree, Lookup, PteAt, PageAt, HasDir, NewPte, Through;
    DirectoryKeepsTree(mem, slot, root, vpn, d, q);
    forall v: nat
      ensures Lookup(WithDirectory(mem, page, Index(vpn, d), q), root, v) == Lookup(mem, root, v)
    {
      DirectoryIsInvisible(mem, slot, root, vpn, d, q, v);
    }
    forall v: nat | v < VPN_LIMIT
      ensures HasDir(WithDirectory(mem, page, Index(vpn, d), q), root, v) <==>
              HasDir(mem, root, v) || (d == 1 && v / 512 == vpn / 512)
    {
      DirectoryAdds(mem, slot, root, vpn, d, q, v);
      UnderIsThrough(v, vpn, 1);
    }
  }

  /** A 2 MB page covers the page number. */
  predicate IsLarge(e: Entry) { e.Mapped? && e.level == 1 }

  /** What the entry that the walk reads at depth `d` says about the page number. */
  lemma EntryMeaning(mem: Tables, slot: map<nat, Slot>, root: nat, vpn: nat, d: nat)
    requires Tree(mem, slot, root) && d < 2
    ensures LeafAt(mem, root, vpn, d) ==> d == 1 && IsLarge(Lookup(mem, root, vpn))
    ensures !IsValid(PteAt(mem, root, vpn, d)) || (d == 1 && !LeafAt(mem, root, vpn, d)) ==>
          !IsLarge(Lookup(mem, root, vpn))
    ensures PteAt(mem, root, vpn, d) < 1024 * PPN_LIMIT || !IsValid(PteAt(mem, root, vpn, d))
    ensures LeafAt(mem, root, vpn, d) <==>
              IsValid(PteAt(mem, root, vpn, d)) && HasRwx(FlagsOf(PteAt(mem, root, vpn, d)))
    ensures var p := PageAt(mem, root, vpn, d); p.Some? ==>
      p.value in mem && |mem[p.value]| == ENTRIES && PteAt(mem, root, vpn, d) == mem[p.value][Index(vpn, d)]
  {
    PathEntry(mem, slot, root, vpn, d);
    PathSlots(mem, slot, root, vpn, d);
    if PageAt(mem, root, vpn, d).Some? {
      assert TableOk(slot, slot[PageAt(mem, root, vpn, d).value], mem[PageAt(mem, root, vpn, d).value]);
    }
    if IsValid(PteAt(mem, root, vpn, d)) && IsPointer(PteAt(mem, root, vpn, d)) {
      PointerFlags(PteAt(mem, root, vpn, d));
    }
  }

  lemma RootIsFirst(mem: Tables, root: nat, vpn: nat)
    ensures PageAt(mem, root, vpn, 0) == Some(root)
  {
  }

  lemma UnderSelf(vpn: nat, d: nat)
    requires 1 <= d < 3
    ensures Under(vpn, vpn, d)
  {
  }

  /** What writing a leaf into a free entry does. */
  lemma MapEffect(mem: Tables, slot: map<nat, Slot>, root: nat, vpn: nat, d: nat, ppn: nat, flags: nat)
    requires Tree(mem, slot, root) && 1 <= d < 3 && PageAt(mem, root, vpn, d).Some? && vpn < VPN_LIMIT
    requires !IsValid(PteAt(mem, root, vpn, d)) && ppn < PPN_LIMIT && flags < 256 && HasRwx(flags)
    requires (d == 1 ==> ppn % 512 == 0)
    ensures var p := PageAt(mem, root, vpn, d).value; p in mem && |mem[p]| == ENTRIES
    ensures WithValid(flags) < 256
    ensures var p := PageAt(mem, root, vpn, d).value;
      var mem' := Write(mem, p, Index(vpn, d), NewPte(ppn, WithValid(flags)));
      && Tree(mem', slot, root) && mem'.Keys == mem.Keys
      && (forall v: nat :: v < VPN_LIMIT ==>
            Lookup(mem', root, v) ==
            if Under(v, vpn, d) then Mapped(2 - d, ppn, WithValid(flags)) else Lookup(mem, root, v))
      && DirsGrow(mem, mem', root, vpn, false)
  {
    ValidFlags(flags);
    PteRoundTrip(ppn, WithValid(flags));
    PteIsEntry(mem, slot, root, vpn, d);
    PathSlots(mem, slot, root, vpn, d);
    var p := PageAt(mem, root, vpn, d).value;
    var pte := NewPte(ppn, WithValid(flags));
    assert EntryOk(slot, slot[p], Index(vpn, d), pte);
    hide Tree, Lookup, PteAt, PageAt, Under, EntryOk;
    WriteKeepsTree(mem, slot, root, p, Index(vpn, d), pte);
    forall v: nat | v < VPN_LIMIT
      ensures Lookup(Write(mem, p, Index(vpn, d), pte), root, v) ==
                if Under(v, vpn, d) then Mapped(2 - d, ppn, WithValid(flags)) else Lookup(mem, root, v)
    {
      UnderIsThrough(v, vpn, d);
      WriteLeaf(mem, slot, root, vpn, d, pte, v);
    }
    forall v: nat | v < VPN_LIMIT
      ensures HasDir(Write(mem, p, Index(vpn, d), pte), root, v) <==> HasDir(mem, root, v)
    {
      WriteDir(mem, slot, root, vpn, d, pte, v);
      if d == 1 && Through(v, 1, SlotAt(vpn, 1), Index(vpn, 1)) {
        NoDirUnder(mem, root, vpn, v);
      }
    }
  }

  /** A walk that stops short reaches nothing below. */
  lemma {:induction false} NoPageBelow(mem: Tables, root: nat, vpn: nat, d: nat, e: nat)
    requires d <= e < 3 && PageAt(mem, root, vpn, d) == None
    ensures PageAt(mem, root, vpn, e) == None
    decreases e
  {
    if d < e { NoPageBelow(mem, root, vpn, d, e - 1); }
  }

  lemma LookupLevel(mem: Tables, root: nat, vpn: nat, d: nat)
    requires 1 <= d < 3
    ensures var e := Lookup(mem, root, vpn); e.Mapped? && e.level == 2 - d ==> LeafAt(mem, root, vpn, d)
    ensures LeafAt(mem, root, vpn, d) ==> IsValid(PteAt(mem, root, vpn, d))
    ensures PageAt(mem, root, vpn, d) == None ==> !IsValid(PteAt(mem, root, vpn, d))
  {
  }

  /** What clearing an entry does, be it a leaf or a pointer to a directory. */
  lemma UnmapEffect(mem: Tables, slot: map<nat, Slot>, root: nat, vpn: nat, d: nat)
    requires Tree(mem, slot, root) && 1 <= d < 3 && PageAt(mem, root, vpn, d).Some? && vpn < VPN_LIMIT
    ensures var p := PageAt(mem, root, vpn, d).value; p in mem && |mem[p]| == ENTRIES
    ensures var p := PageAt(mem, root, vpn, d).value;
      var mem' := Write(mem, p, Index(vpn, d), 0);
      && Tree(mem', slot, root)
      && (forall v: nat :: v < VPN_LIMIT ==>
            Lookup(mem', root, v) == if Under(v, vpn, d) then Unmapped else Lookup(mem, root, v))
      && (forall v: nat :: v < VPN_LIMIT ==>
            PageAt(mem', root, v, 2) == if d == 1 && Under(v, vpn, 1) then None else PageAt(mem, root, v, 2))
  {
    PteIsEntry(mem, slot, root, vpn, d);
    ZeroIsInvalid();
    var p := PageAt(mem, root, vpn, d).value;
    assert EntryOk(slot, slot[p], Index(vpn, d), 0);
    hide Lookup, PteAt, PageAt, Under, EntryOk, Through;
    WriteKeepsTree(mem, slot, root, p, Index(vpn, d), 0);
    hide Tree;
    forall v: nat | v < VPN_LIMIT
      ensures Lookup(Write(mem, p, Index(vpn, d), 0), root, v) ==
              if Under(v, vpn, d) then Unmapped else Lookup(mem, root, v)
      ensures PageAt(Write(mem, p, Index(vpn, d), 0), root, v, 2) ==
              if d == 1 && Under(v, vpn, 1) then None else PageAt(mem, root, v, 2)
    {
      UnderIsThrough(v, vpn, d);
      WriteLeaf(mem, slot, root, vpn, d, 0, v);
      WriteDir(mem, slot, root, vpn, d, 0, v);
    }
  }

  /** Clearing a leaf keeps every directory. */
  lemma UnmapKeepsDirs(mem: Tables, slot: map<nat, Slot>, root: nat, vpn: nat, d: nat)
    requires Tree(mem, slot, root) && 1 <= d < 3 && PageAt(mem, root, vpn, d).Some? && vpn < VPN_LIMIT
    requires LeafAt(mem, root, vpn, d)
    ensures var p := PageAt(mem, root, vpn, d).value; p in mem && |mem[p]| == ENTRIES
    ensures DirsGrow(mem, Write(mem, PageAt(mem, root, vpn, d).value, Index(vpn, d), 0), root, vpn, false)
  {
    PteIsEntry(mem, slot, root, vpn, d);
    ZeroIsInvalid();
    hide Tree, PteAt, PageAt, LeafAt;
    var p := PageAt(mem, root, vpn, d).value;
    forall v: nat | v < VPN_LIMIT
      ensures HasDir(Write(mem, p, Index(vpn, d), 0), root, v) <==> HasDir(mem, root, v)
    {
      WriteDir(mem, slot, root, vpn, d, 0, v);
      if d == 1 && Through(v, 1, SlotAt(vpn, 1), Index(vpn, 1)) {
        NoDirUnder(mem, root, vpn, v);
      }
    }
  }

  /** The number of directories that the walk for `vpn` down to depth `target - 1` has to create. */
  function Missing(mem: Tables, root: nat, vpn: nat, target: nat): nat
  {
    (if PageAt(mem, root, vpn, 1).None? then 1 else 0) +
    (if target == 3 && !HasDir(mem, root, vpn) then 1 else 0)
  }

  /** How many of them it has created at depth `i`. */
  function Created(mem: Tables, root: nat, vpn: nat, i: nat): nat
  {
    Missing(mem, root, vpn, if i == 2 then 3 else 2) - (if i == 0 && PageAt(mem, root, vpn, 1).None? then 1 else 0)
  }

  lemma CreatesNext(mem0: Tables, mem: Tables, slot: map<nat, Slot>, root: nat, vpn: nat, i: nat, target: nat)
    requires Tree(mem, slot, root) && i < target - 1 <= 2 && vpn < VPN_LIMIT
    requires i == 0 ==> mem == mem0
    requires DirsGrow(mem0, mem, root, vpn, i == 2)
    ensures Created(mem0, root, vpn, i) + (if IsValid(PteAt(mem, root, vpn, i)) then 0 else 1) <=
              Created(mem0, root, vpn, i + 1) <= Missing(mem0, root, vpn, target)
  {
    MissingMeans(mem, slot, root, vpn);
    hide Tree, PageAt, PteAt, HasDir;
  }

  /** The walk creates a directory at the root exactly if it is missing, and below only if it is. */
  lemma MissingMeans(mem: Tables, slot: map<nat, Slot>, root: nat, vpn: nat)
    requires Tree(mem, slot, root)
    ensures !IsValid(PteAt(mem, root, vpn, 0)) ==> PageAt(mem, root, vpn, 1).None?
    ensures !IsValid(PteAt(mem, root, vpn, 1)) ==> !HasDir(mem, root, vpn)
  {
    hide HasRwx, PpnOf, FlagsOf, IsValid, TableOk;
    PteIsThere(mem, slot, root, vpn, 0);
    PteIsThere(mem, slot, root, vpn, 1);
  }

  /** Where the entry is free and no large page is in the way, nothing is mapped under it. */
  lemma FreeMeansUnmapped(mem: Tables, root: nat, vpn: nat, d: nat)
    requires 1 <= d < 3 && vpn < VPN_LIMIT && !IsValid(PteAt(mem, root, vpn, d))
    requires d == 2 ==> !IsLarge(Lookup(mem, root, vpn))
    ensures forall v: nat :: v < VPN_LIMIT && Under(v, vpn, d) ==> Lookup(mem, root, v) == Unmapped
  {
    ZeroIsInvalid();
    hide HasRwx, PpnOf, FlagsOf, IsValid;
    forall v: nat | v < VPN_LIMIT && Under(v, vpn, d)
      ensures Lookup(mem, root, v) == Unmapped
    {
      UnderIsThrough(v, vpn, d);
      SamePrefix(mem, root, vpn, v, d);
    }
  }

  class PageTable {
    var tables: Tables
    ghost var slot: map<nat, Slot>
    const root: nat
    const memory: M.MemblockAllocator

    /** What the table needs of the allocator behind it. */
    ghost predicate MemoryOk()
      reads this, memory, memory.Repr()
    {
      && memory.Valid()
      && memory.State().available !! memory.State().allotted
      && (forall x :: x in memory.State().available ==> 4096 <= x < PA_LIMIT)
      && Owned(tables, memory.State().allotted)
    }

    ghost predicate Valid()
      reads this, memory, memory.Repr()
    {
      Tree(tables, slot, root) && MemoryOk()
    }

    /** Why a walk ran out of directories: no page is left, or no slot to record one. */
    ghost predicate Why(r: Outcome)
      reads this, memory, memory.Repr()
    {
      && (r == OutOfPages ==> memory.Valid() && M.NoPageLeft(memory.State()))
      && (r == ArrayFull ==> memory.CrowdedForAlloc() && memory.log.Regions() >= M.MAX_REGIONS)
    }

    /** A cleared root page, taken from the allocator beforehand. */
    constructor (allocator: M.MemblockAllocator, rootPa: nat)
      requires allocator.Valid() && allocator.State().available !! allocator.State().allotted
      requires forall x :: x in allocator.State().available ==> 4096 <= x < PA_LIMIT
      requires rootPa % 4096 == 0 && Range(rootPa, 4096) <= allocator.State().allotted
      ensures Valid() && memory == allocator && root == rootPa / 4096
      ensures forall v: nat :: Lookup(tables, root, v) == Unmapped && !HasDir(tables, root, v)
    {
      memory, root := allocator, rootPa / 4096;
      tables, slot := map[rootPa / 4096 := ZeroTable()], map[rootPa / 4096 := Root];
    }

    /** Takes a page for a directory. */
    method NewPage() returns (r: M.Early)
      requires MemoryOk()
      modifies memory`log, memory.available, memory.available.regions, memory.allotted, memory.allotted.regions
      ensures !r.Underflow? && M.TookPages(old(memory.log), memory.log)
      ensures r.NoFit? ==> memory.Valid() && M.NoPageLeft(memory.State())
      ensures r.Full? ==> memory.CrowdedForAlloc() && memory.log.Regions() >= M.MAX_REGIONS
      ensures |memory.log.calls| <= |old(memory.log.calls)| + 1
      ensures r.Found? ==> MemoryOk()
      ensures r.Found? ==> r.addr % 4096 == 0 && r.addr / 4096 !in tables && r.addr / 4096 < PPN_LIMIT
      ensures r.Found? ==> Range(r.addr, 4096) <= memory.State().allotted
    {
      hide Separated, Bytes, Range, Total, IsPowerOfTwo, Owned, M.LogOk, M.TookPages, M.Touches, Punches;
      ghost var s := memory.State();
      EndsAbove(memory.available.View(), 4096);
      PageSizeIsPower();
      r := memory.EarlyAlloc(4096, 4096);
      M.TookNone(old(memory.log));
      if r.NoFit? {
        M.TookOne(old(memory.log), M.BootCall.EarlyAlloc(4096, 4096, None), memory.State());
      } else if r.Found? {
        M.TookOne(old(memory.log), M.BootCall.EarlyAlloc(4096, 4096, Some(r.addr)), memory.State());
        FreshPage(tables, s.allotted, r.addr);
        OwnedMore(tables, s.allotted, memory.State().allotted);
        assert r.addr in Range(r.addr, 4096);
      }
    }

    /** Allocates a directory, clears it, and hangs it under the empty entry at depth `d`. */
    method HangDirectory(vpn: nat, d: nat, page: nat) returns (r: Outcome, q: nat)
      requires Valid() && d < 2 && vpn < VPN_LIMIT && PageAt(tables, root, vpn, d) == Some(page)
      requires !IsValid(PteAt(tables, root, vpn, d))
      modifies this, memory`log, memory.available, memory.available.regions, memory.allotted, memory.allotted.regions
      ensures r == Done || Exhausted(r)
      ensures r == Done ==> Valid() && PageAt(tables, root, vpn, d + 1) == Some(q)
      ensures r == Done ==> forall v: nat :: Lookup(tables, root, v) == old(Lookup(tables, root, v))
      ensures r == Done ==> forall e :: d < e < 3 ==> PteAt(tables, root, vpn, e) == old(PteAt(tables, root, vpn, e))
      ensures r == Done ==> DirsGrow(old(tables), tables, root, vpn, d == 1)
      ensures Why(r) && M.TookPages(old(memory.log), memory.log)
      ensures |memory.log.calls| <= |old(memory.log.calls)| + 1
    {
      hide Tree, Owned, Lookup, PteAt, PageAt, DirsGrow, Range, NewPte, Write, WithDirectory, SlotAt, Index,
           M.LogOk, M.TookPages, M.NoPageLeft;
      ghost var mem0, slot0 := tables, slot;
      PathSlots(tables, slot, root, vpn, d);
      var early := NewPage();
      if early.NoFit? {
        return OutOfPages, 0;
      } else if early.Full? {
        return ArrayFull, 0;
      }
      q := early.addr / 4096;
      HangEffect(tables, slot, root, vpn, d, page, q);
      OwnedWithPage(tables, WithDirectory(tables, page, Index(vpn, d), q), memory.State().allotted, q);
      tables := WithDirectory(tables, page, Index(vpn, d), q);
      slot := slot[q := SlotAt(vpn, d + 1)];
      r := Done;
    }

    /** One level of the walk that creates directories. */
    method Descend(vpn: nat, d: nat, page: nat) returns (r: Outcome, next: nat)
      requires Valid() && d < 2 && vpn < VPN_LIMIT && PageAt(tables, root, vpn, d) == Some(page)
      modifies this, memory`log, memory.available, memory.available.regions, memory.allotted, memory.allotted.regions
      ensures r == Done || r == InsideLargePage || Exhausted(r)
      ensures r == InsideLargePage ==> d == 1 && IsLarge(old(Lookup(tables, root, vpn)))
      ensures (r == Done && d == 1) || Exhausted(r) ==> !IsLarge(old(Lookup(tables, root, vpn)))
      ensures r == Done ==> Valid() && PageAt(tables, root, vpn, d + 1) == Some(next)
      ensures r == Done ==> forall v: nat :: Lookup(tables, root, v) == old(Lookup(tables, root, v))
      ensures r == Done ==> forall e :: d < e < 3 ==> PteAt(tables, root, vpn, e) == old(PteAt(tables, root, vpn, e))
      ensures r == Done ==> DirsGrow(old(tables), tables, root, vpn, d == 1)
      ensures Why(r) && M.TookPages(old(memory.log), memory.log)
      ensures |memory.log.calls| <=
                |old(memory.log.calls)| + if old(IsValid(PteAt(tables, root, vpn, d))) then 0 else 1
    {
      hide Tree, Owned, Lookup, DirsGrow, HasRwx, PpnOf, FlagsOf, LeafAt, M.LogOk, M.TookPages, M.NoPageLeft;
      M.TookNone(memory.log);
      PathSlots(tables, slot, root, vpn, d);
      EntryMeaning(tables, slot, root, vpn, d);
      var pte := tables[page][Index(vpn, d)];
      if !IsValid(pte) {
        r, next := HangDirectory(vpn, d, page);
      } else if HasRwx(FlagsOf(pte)) {
        r, next := InsideLargePage, 0;
      } else {
        r, next := Done, PpnOf(pte);
        DirsSame(tables, root, vpn);
      }
    }

    /**
     Walks down to the entry for `vpn` at depth `target - 1`, creating directories on the
     way. The walk meets a large page exactly when one covers `vpn` above that depth.
     */
    method BumpFindCreatePte(vpn: nat, target: nat) returns (r: Outcome, page: nat)
      requires Valid() && 2 <= target <= 3 && vpn < VPN_LIMIT
      modifies this, memory`log, memory.available, memory.available.regions, memory.allotted, memory.allotted.regions
      ensures r == Done || r == InsideLargePage || Exhausted(r)
      ensures r == InsideLargePage <==> target == 3 && IsLarge(old(Lookup(tables, root, vpn)))
      ensures r == Done ==> Valid() && PageAt(tables, root, vpn, target - 1) == Some(page)
      ensures r == Done ==> forall v: nat :: Lookup(tables, root, v) == old(Lookup(tables, root, v))
      ensures r == Done ==> DirsGrow(old(tables), tables, root, vpn, target == 3)
      ensures Why(r) && M.TookPages(old(memory.log), memory.log)
      ensures |memory.log.calls| <= |old(memory.log.calls)| + Missing(old(tables), root, vpn, target)
      ensures r == Done ==> PteAt(tables, root, vpn, target - 1) == old(PteAt(tables, root, vpn, target - 1))
    {
      hide Tree, Owned, Lookup, DirsGrow, PageAt, PteAt, Valid, Why, M.LogOk, M.TookPages;
      page := root;
      var i := 0;
      RootIsFirst(tables, root, vpn);
      DirsSame(tables, root, vpn);
      M.TookNone(memory.log);
      while i < target - 1
        invariant 0 <= i < target && Valid() && PageAt(tables, root, vpn, i) == Some(page)
        invariant i == 0 ==> tables == old(tables)
        invariant forall v: nat :: Lookup(tables, root, v) == old(Lookup(tables, root, v))
        invariant DirsGrow(old(tables), tables, root, vpn, i == 2) && M.TookPages(old(memory.log), memory.log)
        invariant |memory.log.calls| <= |old(memory.log.calls)| + Created(old(tables), root, vpn, i)
        invariant i == 2 ==> !IsLarge(old(Lookup(tables, root, vpn)))
        invariant PteAt(tables, root, vpn, target - 1) == old(PteAt(tables, root, vpn, target - 1))
      {
        ghost var mem, log := tables, memory.log;
        TreeOf(this);
        CreatesNext(old(tables), tables, slot, root, vpn, i, target);
        r, page := Descend(vpn, i, page);
        M.TookMore(old(memory.log), log, memory.log);
        if r != Done {
          return r, 0;
        }
        DirsCompose(old(tables), mem, tables, root, vpn, i == 2, i == 1);
        i := i + 1;
      }
      r := Done;
      NoFailure(this, r);
    }

    /**
     Maps one page of size 4 KB (`target` 3) or 2 MB (`target` 2). Apart from running out of
     directories it fails exactly when a large page covers the page number or the entry is
     in use. Where nothing is mapped that is: a directory hangs where a 2 MB page is to go.
     */
    method BumpMap(vpn: nat, ppn: nat, flags: nat, target: nat) returns (r: Outcome)
      requires Valid() && 2 <= target <= 3 && vpn < VPN_LIMIT && ppn < PPN_LIMIT
      requires flags < 256 && HasRwx(flags) && (target == 2 ==> ppn % 512 == 0)
      modifies this, memory`log, memory.available, memory.available.regions, memory.allotted, memory.allotted.regions
      ensures r == Done || r == InsideLargePage || r == AlreadyMapped || Exhausted(r)
      ensures r == InsideLargePage <==> target == 3 && IsLarge(old(Lookup(tables, root, vpn)))
      ensures r == AlreadyMapped ==> old(IsValid(PteAt(tables, root, vpn, target - 1)))
      ensures r == Done ==> !old(IsValid(PteAt(tables, root, vpn, target - 1)))
      ensures r == Done ==> forall v: nat :: v < VPN_LIMIT && Under(v, vpn, target - 1) ==>
                old(Lookup(tables, root, v)) == Unmapped
      ensures r == Done ==> Valid()
      ensures r == Done ==> forall v: nat :: v < VPN_LIMIT ==>
                Lookup(tables, root, v) ==
                  if Under(v, vpn, target - 1) then Mapped(3 - target, ppn, flags / 2 * 2 + 1)
                  else old(Lookup(tables, root, v))
      ensures r == Done ==> DirsGrow(old(tables), tables, root, vpn, target == 3)
      ensures Why(r) && M.TookPages(old(memory.log), memory.log)
      ensures |memory.log.calls| <= |old(memory.log.calls)| + Missing(old(tables), root, vpn, target)
      ensures old(Lookup(tables, root, vpn)) == Unmapped ==>
                && (r == AlreadyMapped ==> target == 2 && old(HasDir(tables, root, vpn)))
                && (r == Done ==> !(target == 2 && old(HasDir(tables, root, vpn))))
                && r != InsideLargePage
    {
      hide Tree, Owned, Lookup, DirsGrow, HasDir, PageAt, PteAt, HasRwx, Under, NewPte, Write, LeafAt, Why,
           M.LogOk, M.TookPages;
      var d := target - 1;
      if Lookup(tables, root, vpn) == Unmapped {
        EntryFreeIff(tables, slot, root, vpn, d);
      }
      if !IsValid(PteAt(tables, root, vpn, d)) && (d == 2 ==> !IsLarge(Lookup(tables, root, vpn))) {
        FreeMeansUnmapped(tables, root, vpn, d);
      }
      var page;
      r, page := BumpFindCreatePte(vpn, target);
      if r != Done {
        return;
      }
      PteIsEntry(tables, slot, root, vpn, d);
      if IsValid(tables[page][Index(vpn, d)]) {
        NoFailure(this, AlreadyMapped);
        return AlreadyMapped;
      }
      MapEffect(tables, slot, root, vpn, d, ppn, flags);
      DirsCompose(old(tables), tables, Write(tables, page, Index(vpn, d), NewPte(ppn, WithValid(flags))),
                  root, vpn, target == 3, false);
      OwnedKeys(tables, Write(tables, page, Index(vpn, d), NewPte(ppn, WithValid(flags))), memory.State().allotted);
      tables := Write(tables, page, Index(vpn, d), NewPte(ppn, WithValid(flags)));
      NoFailure(this, Done);
    }

    /** Walks down to the page that holds the entry for `vpn` at depth `target - 1`, if it exists. */
    method BumpFindPte(vpn: nat, target: nat) returns (page: Option<nat>)
      requires Tree(tables, slot, root) && 2 <= target <= 3
      ensures page == PageAt(tables, root, vpn, target - 1)
    {
      hide Tree, HasRwx, FlagsOf, PpnOf;
      var p := root;
      var i := 0;
      while i < target - 1
        invariant 0 <= i < target && PageAt(tables, root, vpn, i) == Some(p)
      {
        PteIsEntry(tables, slot, root, vpn, i);
        var pte := tables[p][Index(vpn, i)];
        if !IsValid(pte) || HasRwx(FlagsOf(pte)) {
          NoPageBelow(tables, root, vpn, i + 1, target - 1);
          return None;
        }
        p := PpnOf(pte);
        i := i + 1;
      }
      return Some(p);
    }

    /**
     Clears the entry of one page, be it a leaf or a pointer. Exactly the page numbers under
     it become untranslatable. No directory goes away, except one that hung on the entry
     itself; where the entry is empty nothing changes.
     */
    method Unmap(vpn: nat, target: nat) returns (r: Outcome)
      requires Valid() && 2 <= target <= 3 && vpn < VPN_LIMIT
      modifies this
      ensures Valid() && slot == old(slot) && tables.Keys == old(tables.Keys)
      ensures r == Done <==> old(IsValid(PteAt(tables, root, vpn, target - 1)))
      ensures r != Done ==> r == NotMapped && tables == old(tables)
      ensures r == Done ==> forall v: nat :: v < VPN_LIMIT ==>
                Lookup(tables, root, v) ==
                if Under(v, vpn, target - 1) then Unmapped else old(Lookup(tables, root, v))
      ensures r == Done ==> forall v: nat :: v < VPN_LIMIT ==>
                PageAt(tables, root, v, 2) ==
                if target == 2 && Under(v, vpn, 1) then None else old(PageAt(tables, root, v, 2))
      ensures old(Lookup(tables, root, vpn)).Mapped? && old(Lookup(tables, root, vpn)).level == 3 - target ==>
                r == Done && DirsGrow(old(tables), tables, root, vpn, false)
    {
      hide Tree, Owned, Lookup, PageAt, PteAt, HasRwx, Under, Write, LeafAt, DirsGrow;
      var d := target - 1;
      LookupLevel(tables, root, vpn, d);
      var page := BumpFindPte(vpn, target);
      if page.None? {
        return NotMapped;
      }
      PteIsEntry(tables, slot, root, vpn, d);
      if !IsValid(tables[page.value][Index(vpn, d)]) {
        return NotMapped;
      }
      UnmapEffect(tables, slot, root, vpn, d);
      ghost var cleared := Write(tables, page.value, Index(vpn, d), 0);
      if LeafAt(tables, root, vpn, d) {
        UnmapKeepsDirs(tables, slot, root, vpn, d);
      }
      OwnedKeys(tables, cleared, memory.State().allotted);
      tables := Write(tables, page.value, Index(vpn, d), 0);
      return Done;
    }
  }

  /** With enough pages and region slots at the start, a walk that takes at most `n` pages does not run out. */
  lemma NotExhausted(pt: PageTable, log: M.BootLog, s: M.MemblockState, n: nat, r: Outcome)
    requires M.LogOk(log, s) && M.TookPages(log, pt.memory.log) && |pt.memory.log.calls| <= |log.calls| + n
    requires pt.Why(r)
    ensures M.Enough(log, s, n) ==> !Exhausted(r)
  {
    if M.Enough(log, s, n) {
      M.EnoughSuffices(log, s, pt.memory.log, n);
    }
  }

  lemma HistoryOf(pt: PageTable)
    requires pt.Valid()
    ensures pt.memory.ArraysOk() && M.LogOk(pt.memory.log, pt.memory.State())
  {
  }

  lemma TreeOf(pt: PageTable)
    requires pt.Valid()
    ensures Tree(pt.tables, pt.slot, pt.root)
  {
  }

  lemma NoFailure(pt: PageTable, r: Outcome)
    ensures !Exhausted(r) ==> pt.Why(r)
  {
  }
}
