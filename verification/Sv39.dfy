/**
 Sv39 page tables as values: entries, the hardware walk, the walk that the kernel's own
 code performs, and how one entry changes what every address translates to.
 */
module Sv39 {
  import opened Bits

  const ENTRIES: nat := 512
  const PPN_LIMIT: nat := 0x1000_0000_0000
  const VPN_LIMIT: nat := 0x800_0000

  // ----------------------------------------------------------------- entries

  const FLAG_V: nat := 1

  predicate Bit(bits: nat, weight: nat)
    requires weight > 0
  {
    bits / weight % 2 == 1
  }

  /** `(ppn << 10) | flags` */
  function NewPte(ppn: nat, flags: nat): nat
    requires flags < 256
  {
    ppn * 1024 + flags
  }

  predicate IsValid(bits: nat) { bits % 2 == 1 }

  function PpnOf(bits: nat): nat { bits / 1024 % PPN_LIMIT }

  function FlagsOf(bits: nat): nat { bits % 256 }

  /** `flags | V`: bit 0 is set, and every other bit is kept. */
  function WithValid(flags: nat): (f: nat)
    ensures f % 2 == 1 && f / 2 == flags / 2
  {
    if flags % 2 == 1 then flags else flags + 1
  }

  predicate HasR(flags: nat) { flags / 2 % 2 == 1 }
  predicate HasW(flags: nat) { flags / 4 % 2 == 1 }
  predicate HasX(flags: nat) { flags / 8 % 2 == 1 }

  /** The kernel takes an entry with any of R, W, X as a leaf. */
  predicate HasRwx(flags: nat) { HasR(flags) || HasW(flags) || HasX(flags) }

  /** The hardware reserves W without R, and a leaf needs R or X. */
  predicate LegalLeaf(flags: nat) { (HasR(flags) || HasX(flags)) && (HasW(flags) ==> HasR(flags)) }

  lemma PteRoundTrip(ppn: nat, flags: nat)
    requires ppn < PPN_LIMIT && flags < 256
    ensures PpnOf(NewPte(ppn, flags)) == ppn && FlagsOf(NewPte(ppn, flags)) == flags
    ensures IsValid(NewPte(ppn, flags)) <==> flags % 2 == 1
    ensures NewPte(ppn, flags) < 1024 * PPN_LIMIT
    ensures NewPte(ppn, flags) / 1024 == ppn && NewPte(ppn, flags) % 1024 == flags
  {
    var bits := NewPte(ppn, flags);
    assert bits / 1024 == ppn;
    assert bits == 256 * (4 * ppn) + flags;
    assert bits == 2 * (512 * ppn) + flags;
  }

  lemma ValidFlags(flags: nat)
    requires flags < 256
    ensures WithValid(flags) < 256 && WithValid(flags) % 2 == 1
    ensures HasR(WithValid(flags)) <==> HasR(flags)
    ensures HasW(WithValid(flags)) <==> HasW(flags)
    ensures HasX(WithValid(flags)) <==> HasX(flags)
    ensures HasRwx(WithValid(flags)) <==> HasRwx(flags)
    ensures LegalLeaf(WithValid(flags)) <==> LegalLeaf(flags)
  {
    assert WithValid(flags) / 2 == flags / 2;
    assert WithValid(flags) / 4 == flags / 4;
    assert WithValid(flags) / 8 == flags / 8;
  }

  // --------------------------------------------------------------- addresses

  /** The nine index bits that a page number contributes at depth `d`, the root being depth 0. */
  function Index(vpn: nat, d: nat): (i: nat)
    requires d < 3
    ensures i < ENTRIES
  {
    if d == 0 then vpn / 0x4_0000 % 512 else if d == 1 then vpn / 512 % 512 else vpn % 512
  }

  /** The loop that fills the three indices, last one first. */
  method Indices(page: nat) returns (idx: array<nat>)
    ensures idx.Length == 3 && forall d :: 0 <= d < 3 ==> idx[d] == Index(page, d)
  {
    idx := new nat[3](_ => 0);
    var vpn, i := page, 3;
    while i > 0
      invariant 0 <= i <= 3 && vpn >= 0
      invariant vpn == if i == 3 then page else if i == 2 then page / 512
                       else if i == 1 then page / 0x4_0000 else page / 0x800_0000
      invariant forall d :: i <= d < 3 ==> idx[d] == Index(page, d)
    {
      i := i - 1;
      idx[i] := vpn % 512;
      vpn := vpn / 512;
    }
  }

  /** Sign extension from bit 38, as the conversion to a virtual address does it. */
  function SignExtend(v: nat): (r: nat)
    requires v < WORD
    ensures Canonical(r) && r % 0x80_0000_0000 == v % 0x80_0000_0000
  {
    var low := v % 0x80_0000_0000;
    if low < 0x40_0000_0000 then low else low + (WORD - 0x80_0000_0000)
  }

  /** Bits 63 to 39 equal bit 38. */
  predicate Canonical(va: nat) { va < 0x40_0000_0000 || WORD - 0x40_0000_0000 <= va < WORD }

  /** The 27 bits of the page number that the walk uses. */
  function VpnOf(va: nat): (vpn: nat)
    ensures vpn < VPN_LIMIT
  {
    va / 4096 % VPN_LIMIT
  }

  // ------------------------------------------------------------ two walks

  /** Directory pages by page number. */
  type Tables = map<nat, seq<nat>>

  datatype Translation = Fault | Leaf(level: nat, ppn: nat, flags: nat)

  /**
   The translation algorithm of the RISC-V privileged architecture, section 4.3.2, as
   section 4.4 specialises it to Sv39, up to the leaf: validity, reserved encodings and
   superpage alignment. `level` counts down from 2.
   */
  function Walk(mem: Tables, table: nat, vpn: nat, level: nat): Translation
    requires level < 3
    decreases level
  {
    if table !in mem || |mem[table]| != ENTRIES then Fault
    else
      var pte := mem[table][Index(vpn, 2 - level)];
      var flags := FlagsOf(pte);
      if !IsValid(pte) || (HasW(flags) && !HasR(flags)) || pte >= 1024 * PPN_LIMIT then Fault
      else if HasR(flags) || HasX(flags) then
        if PpnOf(pte) % SpanPages(level) != 0 then Fault else Leaf(level, PpnOf(pte), flags)
      else if level == 0 || Bit(flags, 16) || Bit(flags, 64) || Bit(flags, 128) then Fault
      else Walk(mem, PpnOf(pte), vpn, level - 1)
  }

  /** The number of pages under one entry of the given level. */
  function SpanPages(level: nat): nat
    requires level < 3
  {
    if level == 0 then 1 else if level == 1 then 512 else 0x4_0000
  }

  /** The physical address that a virtual address translates to, with the flags of its leaf. */
  function Translate(mem: Tables, root: nat, va: nat): Option<(nat, nat)>
  {
    if !Canonical(va) then None
    else
      match Walk(mem, root, VpnOf(va), 2)
      case Fault => None
      case Leaf(level, ppn, flags) =>
        if level < 3 then Some(((ppn + VpnOf(va) % SpanPages(level)) * 4096 + va % 4096, flags)) else None
  }

  datatype Entry = Unmapped | Mapped(level: nat, ppn: nat, flags: nat)

  /** The page that the kernel's walk for `vpn` reaches at depth `d`. */
  function PageAt(mem: Tables, root: nat, vpn: nat, d: nat): Option<nat>
    requires d < 3
    decreases d
  {
    if d == 0 then Some(root)
    else
      match PageAt(mem, root, vpn, d - 1)
      case None => None
      case Some(p) =>
        if p !in mem || |mem[p]| != ENTRIES then None
        else
          var pte := mem[p][Index(vpn, d - 1)];
          if IsValid(pte) && !HasRwx(FlagsOf(pte)) then Some(PpnOf(pte)) else None
  }

  /** The entry that the kernel's walk for `vpn` reads at depth `d`, 0 if it gets there not. */
  function PteAt(mem: Tables, root: nat, vpn: nat, d: nat): nat
    requires d < 3
  {
    match PageAt(mem, root, vpn, d)
    case None => 0
    case Some(p) => if p in mem && |mem[p]| == ENTRIES then mem[p][Index(vpn, d)] else 0
  }

  predicate LeafAt(mem: Tables, root: nat, vpn: nat, d: nat)
    requires d < 3
  {
    IsValid(PteAt(mem, root, vpn, d)) && HasRwx(FlagsOf(PteAt(mem, root, vpn, d)))
  }

  /** What the kernel's code has mapped at `vpn`: the leaf on its path, if there is one. */
  function Lookup(mem: Tables, root: nat, vpn: nat): Entry
  {
    if LeafAt(mem, root, vpn, 1) then EntryOf(PteAt(mem, root, vpn, 1), 1)
    else if LeafAt(mem, root, vpn, 2) then EntryOf(PteAt(mem, root, vpn, 2), 0)
    else Unmapped
  }

  function EntryOf(pte: nat, level: nat): Entry { Mapped(level, PpnOf(pte), FlagsOf(pte)) }

  // --------------------------------------------------------------- the tree

  /** Where a directory page hangs in the tree. */
  datatype Slot = Root | Middle(i2: nat) | Bottom(j2: nat, i1: nat)

  /** The slot that `vpn` passes at depth `d`. */
  function SlotAt(vpn: nat, d: nat): Slot
    requires d < 3
  {
    if d == 0 then Root else if d == 1 then Middle(Index(vpn, 0)) else Bottom(Index(vpn, 0), Index(vpn, 1))
  }

  predicate IsPointer(pte: nat) { IsValid(pte) && FlagsOf(pte) == FLAG_V && pte < 1024 * PPN_LIMIT }

  predicate IsLeafPte(pte: nat) { IsValid(pte) && HasRwx(FlagsOf(pte)) && pte < 1024 * PPN_LIMIT }

  /** Entry `i` of a directory in slot `s` is empty, a leaf, or leads to the directory of the slot below. */
  predicate EntryOk(slot: map<nat, Slot>, s: Slot, i: nat, pte: nat)
  {
    IsValid(pte) ==>
      match s
      case Root => IsPointer(pte) && PpnOf(pte) in slot && slot[PpnOf(pte)] == Middle(i)
      case Middle(i2) =>
        || (IsLeafPte(pte) && PpnOf(pte) % 512 == 0)
        || (IsPointer(pte) && PpnOf(pte) in slot && slot[PpnOf(pte)] == Bottom(i2, i))
      case Bottom(_, _) => IsLeafPte(pte)
  }

  ghost predicate TableOk(slot: map<nat, Slot>, s: Slot, table: seq<nat>)
  {
    |table| == ENTRIES && forall i :: 0 <= i < ENTRIES ==> EntryOk(slot, s, i, table[i])
  }

  /** Every directory page has one slot, and entries lead to pages of the right slot. */
  ghost predicate Tree(mem: Tables, slot: map<nat, Slot>, root: nat)
  {
    && mem.Keys == slot.Keys && root in mem && slot[root] == Root
    && (forall p :: p in mem ==> TableOk(slot, slot[p], mem[p]))
  }

  /** A directory of 4 KB pages hangs on the path of `vpn`. */
  predicate HasDir(mem: Tables, root: nat, vpn: nat) { PageAt(mem, root, vpn, 2).Some? }

  lemma PointerFlags(pte: nat)
    requires IsPointer(pte)
    ensures !HasRwx(FlagsOf(pte)) && PpnOf(pte) < PPN_LIMIT
  {
  }

  /** The kernel's walk meets only pages of the slots on its path. */
  lemma {:induction false} PathSlots(mem: Tables, slot: map<nat, Slot>, root: nat, vpn: nat, d: nat)
    requires Tree(mem, slot, root) && d < 3
    ensures var p := PageAt(mem, root, vpn, d);
      p.Some? ==> p.value in mem && p.value in slot && slot[p.value] == SlotAt(vpn, d)
    decreases d
  {
    if d > 0 {
      PathSlots(mem, slot, root, vpn, d - 1);
      match PageAt(mem, root, vpn, d - 1)
      case None =>
      case Some(p) =>
        assert TableOk(slot, slot[p], mem[p]);
        assert EntryOk(slot, slot[p], Index(vpn, d - 1), mem[p][Index(vpn, d - 1)]);
    }
  }

  /** The entry read at depth `d` is the one the tree promises. */
  lemma PathEntry(mem: Tables, slot: map<nat, Slot>, root: nat, vpn: nat, d: nat)
    requires Tree(mem, slot, root) && d < 3
    ensures EntryOk(slot, SlotAt(vpn, d), Index(vpn, d), PteAt(mem, root, vpn, d))
  {
    PathSlots(mem, slot, root, vpn, d);
    var p := PageAt(mem, root, vpn, d);
    if p.Some? {
      assert TableOk(slot, slot[p.value], mem[p.value]);
    }
  }

  /**
   The hardware finds what the kernel's code has mapped, provided the flags are a legal
   leaf; where the code has mapped W without R, or nothing, it faults.
   */
  lemma WalkFindsLookup(mem: Tables, slot: map<nat, Slot>, root: nat, vpn: nat)
    requires Tree(mem, slot, root)
    ensures Walk(mem, root, vpn, 2) ==
              match Lookup(mem, root, vpn)
              case Unmapped => Fault
              case Mapped(level, ppn, flags) => if LegalLeaf(flags) then Leaf(level, ppn, flags) else Fault
  {
    PathEntry(mem, slot, root, vpn, 0);
    PathEntry(mem, slot, root, vpn, 1);
    PathEntry(mem, slot, root, vpn, 2);
    PathSlots(mem, slot, root, vpn, 1);
    PathSlots(mem, slot, root, vpn, 2);
  }

  // ------------------------------------------------------- changing one entry

  /** Writing entry `i` of page `p`. */
  function Write(mem: Tables, p: nat, i: nat, pte: nat): (mem': Tables)
    requires p in mem && i < |mem[p]|
    ensures mem'.Keys == mem.Keys
  {
    var table: seq<nat> := mem[p][i := pte];
    mem[p := table]
  }

  /** Page numbers that pass entry `i` of the slot `s` at depth `d`. */
  predicate Through(vpn: nat, d: nat, s: Slot, i: nat)
    requires d < 3
  {
    SlotAt(vpn, d) == s && Index(vpn, d) == i
  }

  lemma WriteKeepsTree(mem: Tables, slot: map<nat, Slot>, root: nat, p: nat, i: nat, pte: nat)
    requires Tree(mem, slot, root) && p in mem && i < ENTRIES && EntryOk(slot, slot[p], i, pte)
    ensures |mem[p]| == ENTRIES && Tree(Write(mem, p, i, pte), slot, root)
  {
    hide EntryOk;
    assert TableOk(slot, slot[p], mem[p]);
    var table := mem[p][i := pte];
    assert TableOk(slot, slot[p], table);
    forall q | q in Write(mem, p, i, pte)
      ensures TableOk(slot, slot[q], Write(mem, p, i, pte)[q])
    {
      if q != p { assert TableOk(slot, slot[q], mem[q]); }
    }
  }

  /**
   A write at an entry of depth `d` leaves the pages down to depth `d` as they are, for
   every page number; below, it changes only the walks that pass the entry.
   */
  lemma {:induction false} WritePath(mem: Tables, slot: map<nat, Slot>, root: nat, vpn: nat, d: nat, pte: nat, v: nat,
        e: nat)
    requires Tree(mem, slot, root) && d < 3 && e < 3
    requires PageAt(mem, root, vpn, d).Some?
    ensures var p := PageAt(mem, root, vpn, d).value; p in mem && |mem[p]| == ENTRIES
    ensures var p := PageAt(mem, root, vpn, d).value; var mem' := Write(mem, p, Index(vpn, d), pte);
      && (e <= d || !Through(v, d, SlotAt(vpn, d), Index(vpn, d)) ==>
            PageAt(mem', root, v, e) == PageAt(mem, root, v, e))
      && (Through(v, d, SlotAt(vpn, d), Index(vpn, d)) ==> PageAt(mem, root, v, d) == Some(p))
    decreases e + 3 * d
  {
    PathSlots(mem, slot, root, vpn, d);
    var p := PageAt(mem, root, vpn, d).value;
    assert TableOk(slot, slot[p], mem[p]);
    SamePrefix(mem, root, vpn, v, d);
    if e > 0 {
      WritePath(mem, slot, root, vpn, d, pte, v, e - 1);
      PathSlots(mem, slot, root, v, e - 1);
    }
  }

  /** Page numbers with the same slot at depth `d` reach the same page there. */
  lemma {:induction false} SamePrefix(mem: Tables, root: nat, vpn: nat, v: nat, d: nat)
    requires d < 3
    ensures SlotAt(vpn, d) == SlotAt(v, d) ==> PageAt(mem, root, vpn, d) == PageAt(mem, root, v, d)
    decreases d
  {
    if d > 0 { SamePrefix(mem, root, vpn, v, d - 1); }
  }

  /** Writing a leaf, or clearing an entry, changes exactly the page numbers that pass the entry. */
  lemma WriteLeaf(mem: Tables, slot: map<nat, Slot>, root: nat, vpn: nat, d: nat, pte: nat, v: nat)
    requires Tree(mem, slot, root) && 1 <= d < 3 && PageAt(mem, root, vpn, d).Some?
    requires IsValid(pte) ==> HasRwx(FlagsOf(pte))
    ensures var p := PageAt(mem, root, vpn, d).value; p in mem && |mem[p]| == ENTRIES
    ensures var p := PageAt(mem, root, vpn, d).value; var mem' := Write(mem, p, Index(vpn, d), pte);
      Lookup(mem', root, v) ==
        if Through(v, d, SlotAt(vpn, d), Index(vpn, d))
        then if IsValid(pte) then EntryOf(pte, 2 - d) else Unmapped
        else Lookup(mem, root, v)
  {
    hide HasRwx, PpnOf, FlagsOf, Tree, IsValid;
    ZeroIsInvalid();
    WritePath(mem, slot, root, vpn, d, pte, v, 0);
    WritePath(mem, slot, root, vpn, d, pte, v, 1);
    WritePath(mem, slot, root, vpn, d, pte, v, 2);
    var p := PageAt(mem, root, vpn, d).value;
    var mem' := Write(mem, p, Index(vpn, d), pte);
    forall e | 1 <= e < 3
      ensures PteAt(mem', root, v, e) ==
                if Through(v, d, SlotAt(vpn, d), Index(vpn, d)) && e >= d then if e == d then pte else 0
                else PteAt(mem, root, v, e)
    {
      PteAfterWrite(mem, slot, root, vpn, d, pte, v, e);
    }
  }

  lemma ZeroIsInvalid()
    ensures !IsValid(0)
  {
  }

  lemma PteAfterWrite(mem: Tables, slot: map<nat, Slot>, root: nat, vpn: nat, d: nat, pte: nat, v: nat, e: nat)
    requires Tree(mem, slot, root) && 1 <= d < 3 && 1 <= e < 3 && PageAt(mem, root, vpn, d).Some?
    requires IsValid(pte) ==> HasRwx(FlagsOf(pte))
    ensures var p := PageAt(mem, root, vpn, d).value; p in mem && |mem[p]| == ENTRIES
    ensures var p := PageAt(mem, root, vpn, d).value; var mem' := Write(mem, p, Index(vpn, d), pte);
      PteAt(mem', root, v, e) ==
        if Through(v, d, SlotAt(vpn, d), Index(vpn, d)) && e >= d then if e == d then pte else 0
        else PteAt(mem, root, v, e)
  {
    hide HasRwx, PpnOf, FlagsOf, IsValid;
    WritePath(mem, slot, root, vpn, d, pte, v, d);
    WritePath(mem, slot, root, vpn, d, pte, v, e);
    PathSlots(mem, slot, root, vpn, d);
    PathSlots(mem, slot, root, v, e);
    hide Tree;
    SamePrefix(mem, root, vpn, v, d);
  }

  // -------------------------------------------------- adding a directory page

  function ZeroTable(): (t: seq<nat>)
    ensures |t| == ENTRIES && forall i :: 0 <= i < ENTRIES ==> t[i] == 0
  {
    seq(ENTRIES, _ => 0)
  }

  /** A page that no entry leads to is invisible. */
  lemma {:induction false} AddPage(mem: Tables, slot: map<nat, Slot>, root: nat, q: nat, table: seq<nat>, v: nat,
        d: nat)
    requires Tree(mem, slot, root) && q !in mem && d < 3
    ensures PageAt(mem[q := table], root, v, d) == PageAt(mem, root, v, d)
    ensures PteAt(mem[q := table], root, v, d) == PteAt(mem, root, v, d)
    decreases d
  {
    PathSlots(mem, slot, root, v, d);
    if d > 0 {
      AddPage(mem, slot, root, q, table, v, d - 1);
      PathSlots(mem, slot, root, v, d - 1);
    }
  }

  lemma AddPageKeepsTree(mem: Tables, slot: map<nat, Slot>, root: nat, q: nat, s: Slot)
    requires Tree(mem, slot, root) && q !in mem && s != Root
    ensures Tree(mem[q := ZeroTable()], slot[q := s], root)
  {
    var slot' := slot[q := s];
    assert TableOk(slot', s, ZeroTable());
    forall p | p in mem
      ensures TableOk(slot', slot'[p], mem[p])
    {
      assert TableOk(slot, slot[p], mem[p]);
    }
  }

  /** The tables after an empty directory `q` is hung under the entry at depth `d`. */
  function WithDirectory(mem: Tables, p: nat, i: nat, q: nat): (mem': Tables)
    requires p in mem && i < |mem[p]| && q !in mem
    ensures mem'.Keys == mem.Keys + {q}
  {
    Write(mem[q := ZeroTable()], p, i, NewPte(q, FLAG_V))
  }

  lemma DirectoryKeepsTree(mem: Tables, slot: map<nat, Slot>, root: nat, vpn: nat, d: nat, q: nat)
    requires Tree(mem, slot, root) && d < 2 && PageAt(mem, root, vpn, d).Some? && q !in mem && q < PPN_LIMIT
    ensures var p := PageAt(mem, root, vpn, d).value; p in mem && |mem[p]| == ENTRIES
    ensures var p := PageAt(mem, root, vpn, d).value;
      Tree(WithDirectory(mem, p, Index(vpn, d), q), slot[q := SlotAt(vpn, d + 1)], root)
  {
    var p := PageAt(mem, root, vpn, d).value;
    PathSlots(mem, slot, root, vpn, d);
    assert TableOk(slot, slot[p], mem[p]);
    AddPageKeepsTree(mem, slot, root, q, SlotAt(vpn, d + 1));
    PteRoundTrip(q, FLAG_V);
    var slot' := slot[q := SlotAt(vpn, d + 1)];
    assert EntryOk(slot', slot'[p], Index(vpn, d), NewPte(q, FLAG_V));
    WriteKeepsTree(mem[q := ZeroTable()], slot', root, p, Index(vpn, d), NewPte(q, FLAG_V));
  }

  /** Page tables with a new directory: the walk for `v`, entry by entry. */
  lemma DirectoryPath(mem: Tables, slot: map<nat, Slot>, root: nat, vpn: nat, d: nat, q: nat, v: nat, e: nat)
    requires Tree(mem, slot, root) && d < 2 && e < 3 && PageAt(mem, root, vpn, d).Some? && q !in mem && q < PPN_LIMIT
    ensures var p := PageAt(mem, root, vpn, d).value; p in mem && |mem[p]| == ENTRIES
    ensures var p := PageAt(mem, root, vpn, d).value; var mem' := WithDirectory(mem, p, Index(vpn, d), q);
      && (e <= d || !Through(v, d, SlotAt(vpn, d), Index(vpn, d)) ==>
            PageAt(mem', root, v, e) == PageAt(mem, root, v, e))
      && (Through(v, d, SlotAt(vpn, d), Index(vpn, d)) ==> PageAt(mem, root, v, d) == Some(p))
  {
    hide HasRwx, PpnOf, FlagsOf, IsValid, Tree, Index;
    PathSlots(mem, slot, root, vpn, d);
    AddPageKeepsTree(mem, slot, root, q, SlotAt(vpn, d + 1));
    AddPage(mem, slot, root, q, ZeroTable(), vpn, d);
    AddPage(mem, slot, root, q, ZeroTable(), v, d);
    AddPage(mem, slot, root, q, ZeroTable(), v, e);
    PteIsEntry(mem, slot, root, vpn, d);
    WritePath(mem[q := ZeroTable()], slot[q := SlotAt(vpn, d + 1)], root, vpn, d, NewPte(q, FLAG_V), v, e);
  }

  lemma PteIsEntry(mem: Tables, slot: map<nat, Slot>, root: nat, vpn: nat, d: nat)
    requires Tree(mem, slot, root) && d < 3 && PageAt(mem, root, vpn, d).Some?
    ensures var p := PageAt(mem, root, vpn, d).value;
      p in mem && |mem[p]| == ENTRIES && PteAt(mem, root, vpn, d) == mem[p][Index(vpn, d)]
  {
    PathSlots(mem, slot, root, vpn, d);
    var p := PageAt(mem, root, vpn, d).value;
    assert TableOk(slot, slot[p], mem[p]);
  }

  /** Page numbers that pass the new directory read nothing in it. */
  lemma DirectoryReadsZero(mem: Tables, slot: map<nat, Slot>, root: nat, vpn: nat, d: nat, q: nat, v: nat)
    requires Tree(mem, slot, root) && d < 2 && PageAt(mem, root, vpn, d).Some? && q !in mem && q < PPN_LIMIT
    requires !IsValid(PteAt(mem, root, vpn, d)) && Through(v, d, SlotAt(vpn, d), Index(vpn, d))
    ensures var p := PageAt(mem, root, vpn, d).value; p in mem && |mem[p]| == ENTRIES
    ensures var p := PageAt(mem, root, vpn, d).value; var mem' := WithDirectory(mem, p, Index(vpn, d), q);
      && PageAt(mem', root, v, d + 1) == Some(q)
      && (forall e :: d < e < 3 ==> PteAt(mem', root, v, e) == 0 && PteAt(mem, root, v, e) == 0)
      && !LeafAt(mem', root, v, d) && !LeafAt(mem, root, v, d)
  {
    var p := PageAt(mem, root, vpn, d).value;
    PteIsEntry(mem, slot, root, vpn, d);
    DirectoryPath(mem, slot, root, vpn, d, q, v, d);
    PteRoundTrip(q, FLAG_V);
    PointerFlags(NewPte(q, FLAG_V));
    hide HasRwx, PpnOf, FlagsOf, Tree, NewPte;
    var mem' := WithDirectory(mem, p, Index(vpn, d), q);
    assert mem'[p][Index(vpn, d)] == NewPte(q, FLAG_V) && mem'[q] == ZeroTable();
    assert PageAt(mem', root, v, d + 1) == Some(q);
    assert PageAt(mem, root, v, d + 1) == None;
    assert PteAt(mem', root, v, d + 1) == 0 && PteAt(mem, root, v, d + 1) == 0;
    ZeroIsInvalid();
    if d == 0 {
      assert PageAt(mem', root, v, 2) == None && PageAt(mem, root, v, 2) == None;
    }
  }

  /** Hanging an empty directory where there was nothing changes no translation. */
  lemma DirectoryIsInvisible(mem: Tables, slot: map<nat, Slot>, root: nat, vpn: nat, d: nat, q: nat, v: nat)
    requires Tree(mem, slot, root) && d < 2 && PageAt(mem, root, vpn, d).Some? && q !in mem && q < PPN_LIMIT
    requires !IsValid(PteAt(mem, root, vpn, d))
    ensures var p := PageAt(mem, root, vpn, d).value; p in mem && |mem[p]| == ENTRIES
    ensures var p := PageAt(mem, root, vpn, d).value;
      Lookup(WithDirectory(mem, p, Index(vpn, d), q), root, v) == Lookup(mem, root, v)
  {
    ZeroIsInvalid();
    hide HasRwx, PpnOf, FlagsOf, IsValid, Tree, Index;
    PteIsEntry(mem, slot, root, vpn, d);
    if Through(v, d, SlotAt(vpn, d), Index(vpn, d)) {
      DirectoryReadsZero(mem, slot, root, vpn, d, q, v);
    } else {
      SamePteAt(mem, slot, root, vpn, d, q, v, 1);
      SamePteAt(mem, slot, root, vpn, d, q, v, 2);
    }
  }

  lemma SamePteAt(mem: Tables, slot: map<nat, Slot>, root: nat, vpn: nat, d: nat, q: nat, v: nat, e: nat)
    requires Tree(mem, slot, root) && d < 2 && e < 3 && PageAt(mem, root, vpn, d).Some? && q !in mem && q < PPN_LIMIT
    requires !Through(v, d, SlotAt(vpn, d), Index(vpn, d))
    ensures var p := PageAt(mem, root, vpn, d).value; p in mem && |mem[p]| == ENTRIES
    ensures var p := PageAt(mem, root, vpn, d).value;
      PteAt(WithDirectory(mem, p, Index(vpn, d), q), root, v, e) == PteAt(mem, root, v, e)
  {
    hide HasRwx, PpnOf, FlagsOf, IsValid, PageAt;
    DirectoryPath(mem, slot, root, vpn, d, q, v, e);
    PathSlots(mem, slot, root, v, e);
    PathSlots(mem, slot, root, vpn, d);
    hide Tree;
  }

  // ----------------------------------------------- directories of 4 KB pages

  /** Page numbers in the same 2 MB share a directory. */
  lemma SameDir(mem: Tables, root: nat, vpn: nat, v: nat)
    requires v / 512 == vpn / 512
    ensures PageAt(mem, root, v, 2) == PageAt(mem, root, vpn, 2)
  {
    assert v / 0x4_0000 == v / 512 / 512 && vpn / 0x4_0000 == vpn / 512 / 512;
    SamePrefix(mem, root, vpn, v, 2);
  }

  /** Writing a leaf, or clearing an entry, takes away no directory but one that hung on the entry. */
  lemma WriteDir(mem: Tables, slot: map<nat, Slot>, root: nat, vpn: nat, d: nat, pte: nat, v: nat)
    requires Tree(mem, slot, root) && 1 <= d < 3 && PageAt(mem, root, vpn, d).Some?
    requires IsValid(pte) ==> HasRwx(FlagsOf(pte))
    ensures var p := PageAt(mem, root, vpn, d).value; p in mem && |mem[p]| == ENTRIES
    ensures var p := PageAt(mem, root, vpn, d).value; var mem' := Write(mem, p, Index(vpn, d), pte);
      PageAt(mem', root, v, 2) ==
        if d == 1 && Through(v, d, SlotAt(vpn, d), Index(vpn, d)) then None else PageAt(mem, root, v, 2)
  {
    hide HasRwx, PpnOf, FlagsOf, IsValid;
    PteIsEntry(mem, slot, root, vpn, d);
    hide Tree;
    WritePath(mem, slot, root, vpn, d, pte, v, 2);
    WritePath(mem, slot, root, vpn, d, pte, v, d);
  }

  /** An entry without a pointer has no directory under it. */
  lemma NoDirUnder(mem: Tables, root: nat, vpn: nat, v: nat)
    requires Through(v, 1, SlotAt(vpn, 1), Index(vpn, 1))
    requires IsValid(PteAt(mem, root, vpn, 1)) ==> LeafAt(mem, root, vpn, 1)
    ensures !HasDir(mem, root, v)
  {
    hide HasRwx, PpnOf, FlagsOf, IsValid;
    SamePrefix(mem, root, vpn, v, 1);
  }

  /** Hanging an empty directory adds it, if it is one of 4 KB pages, and nothing else. */
  lemma DirectoryAdds(mem: Tables, slot: map<nat, Slot>, root: nat, vpn: nat, d: nat, q: nat, v: nat)
    requires Tree(mem, slot, root) && d < 2 && PageAt(mem, root, vpn, d).Some? && q !in mem && q < PPN_LIMIT
    requires !IsValid(PteAt(mem, root, vpn, d))
    ensures var p := PageAt(mem, root, vpn, d).value; p in mem && |mem[p]| == ENTRIES
    ensures var p := PageAt(mem, root, vpn, d).value; var mem' := WithDirectory(mem, p, Index(vpn, d), q);
      HasDir(mem', root, v) <==>
        HasDir(mem, root, v) || (d == 1 && Through(v, d, SlotAt(vpn, d), Index(vpn, d)))
  {
    hide HasRwx, PpnOf, FlagsOf, Tree, Index;
    PteIsEntry(mem, slot, root, vpn, d);
    ZeroIsInvalid();
    hide IsValid;
    DirectoryPath(mem, slot, root, vpn, d, q, v, 2);
    if Through(v, d, SlotAt(vpn, d), Index(vpn, d)) {
      DirectoryReadsZero(mem, slot, root, vpn, d, q, v);
      var mem' := WithDirectory(mem, PageAt(mem, root, vpn, d).value, Index(vpn, d), q);
      assert d == 0 ==> PteAt(mem', root, v, 1) == 0 && PteAt(mem, root, v, 1) == 0;
    }
  }

  /** The page numbers under the entry of depth `d` that `vpn` passes. */
  predicate Under(v: nat, vpn: nat, d: nat)
    requires 1 <= d < 3
  {
    if d == 1 then v / 512 == vpn / 512 else v == vpn
  }

  lemma UnderIsThrough(v: nat, vpn: nat, d: nat)
    requires 1 <= d < 3 && v < VPN_LIMIT && vpn < VPN_LIMIT
    ensures Under(v, vpn, d) <==> Through(v, d, SlotAt(vpn, d), Index(vpn, d))
  {
    assert v / 0x4_0000 == v / 512 / 512 && vpn / 0x4_0000 == vpn / 512 / 512;
  }

  /**
   Where nothing is mapped, the entry of a 4 KB page is free, and the entry of a 2 MB page is
   free exactly if no directory hangs there; no large page is in the way.
   */
  lemma EntryFreeIff(mem: Tables, slot: map<nat, Slot>, root: nat, vpn: nat, d: nat)
    requires Tree(mem, slot, root) && 1 <= d < 3 && Lookup(mem, root, vpn) == Unmapped
    ensures IsValid(PteAt(mem, root, vpn, d)) <==> d == 1 && HasDir(mem, root, vpn)
    ensures !LeafAt(mem, root, vpn, 1)
  {
    PathEntry(mem, slot, root, vpn, d);
    PteIsThere(mem, slot, root, vpn, d);
    if IsPointer(PteAt(mem, root, vpn, d)) {
      PointerFlags(PteAt(mem, root, vpn, d));
    }
  }

  lemma PteIsThere(mem: Tables, slot: map<nat, Slot>, root: nat, vpn: nat, d: nat)
    requires Tree(mem, slot, root) && d < 3
    ensures IsValid(PteAt(mem, root, vpn, d)) ==> PageAt(mem, root, vpn, d).Some?
    ensures PageAt(mem, root, vpn, d).Some? ==>
              PageAt(mem, root, vpn, d).value in mem && |mem[PageAt(mem, root, vpn, d).value]| == ENTRIES
  {
    if PageAt(mem, root, vpn, d).Some? {
      PteIsEntry(mem, slot, root, vpn, d);
    }
  }
}
