/**
 The buddy allocator: sixteen singly linked free lists whose links are stored in the first
 word of each free block.
 */
module Buddy {
  import opened Bits
  import opened Blocks
  import opened BuddySpec

  const PAGE_SIZE_BITS: nat := 12

  /** Physical memory, word by word; a null link is 0. */
  type Memory = map<nat, nat>

  /** The physical address of a block, where its link is stored while it is free. */
  function Address(b: Block): nat
  {
    Scale(b.index, b.order + PAGE_SIZE_BITS)
  }

  /** The number of the page that holds address `a`. */
  function PageOf(a: nat): nat
  {
    Shift(a, PAGE_SIZE_BITS)
  }

  function BlockAt(addr: nat, order: nat): (b: Block)
    ensures b.order == order
  {
    Block(Shift(addr, order + PAGE_SIZE_BITS), order)
  }

  /** The block of the given order that starts at page `ppn`, if `ppn` is aligned to it. */
  function RunAt(ppn: nat, order: nat): Option<Block>
  {
    var b := Block(Shift(ppn, order), order);
    if FirstPage(b) == ppn then Some(b) else None
  }

  // ------------------------------------------------------------- addresses

  lemma AddressOfPage(b: Block)
    ensures Address(b) == Scale(FirstPage(b), PAGE_SIZE_BITS)
    ensures PageOf(Address(b)) == FirstPage(b)
    ensures BlockAt(Address(b), b.order) == b
  {
    ScaleScale(b.index, b.order, PAGE_SIZE_BITS);
    ShiftScale(FirstPage(b), PAGE_SIZE_BITS);
    ShiftScale(b.index, b.order + PAGE_SIZE_BITS);
  }

  /** The word that links a block lies in the block's own first page. */
  lemma AddressWithin(b: Block)
    ensures Within(Page(PageOf(Address(b))), b)
  {
    AddressOfPage(b);
    FirstPageWithin(b);
  }

  lemma DistinctAddresses(b: Block, c: Block)
    requires Disjoint(b, c)
    ensures Address(b) != Address(c)
  {
    if Address(b) == Address(c) {
      AddressWithin(b);
      AddressWithin(c);
      SharedPage(PageOf(Address(b)), b, c);
    }
  }

  lemma {:induction false} AddressPositive(b: Block)
    requires b.index > 0
    ensures Address(b) > 0
  {
    ScaleIsProduct(b.index, b.order + PAGE_SIZE_BITS);
  }

  /** XOR with the block size gives the address of the buddy. */
  lemma XorIsBuddy(b: Block)
    ensures Xor(Address(b), Pow2(b.order + PAGE_SIZE_BITS)) == Address(Buddy(b))
    ensures Min(Address(b), Address(Buddy(b))) == Address(Parent(b))
  {
    var k := b.order + PAGE_SIZE_BITS;
    ShiftScale(b.index, k);
    XorPow2(Address(b), k);
    ScaleOne(k);
    ScaleStep(b.index / 2, k);
    if b.index % 2 == 0 {
      ScaleAdd(b.index, 1, k);
    } else {
      ScaleAdd(b.index - 1, 1, k);
    }
  }

  /** Half the size of a block beyond its address is the address of its right half. */
  lemma RightAddress(c: Block)
    requires c.order > 0
    ensures Address(Left(c)) == Address(c)
    ensures Address(Right(c)) == Address(c) + Pow2(c.order + PAGE_SIZE_BITS) / 2
  {
    var k := c.order + PAGE_SIZE_BITS - 1;
    ScaleStep(c.index, k);
    ScaleAdd(2 * c.index, 1, k);
    ScaleOne(k);
  }

  // ------------------------------------------------- lists inside free memory

  /** The word that should lead to node `j` of the list `s`. */
  function Link(s: seq<nat>, j: nat): nat
  {
    if j < |s| then s[j] else 0
  }

  /** Following the words of `mem` from `head` visits the addresses `s` and ends. */
  ghost predicate Chain(mem: Memory, s: seq<nat>, head: nat)
  {
    && head == Link(s, 0)
    && (forall j :: 0 <= j < |s| ==> s[j] in mem && mem[s[j]] == Link(s, j + 1))
  }

  ghost predicate Distinct(s: seq<nat>)
  {
    forall i, j :: 0 <= i < j < |s| ==> s[i] != s[j]
  }

  /** The heads and the words in free memory spell out `lists`. */
  ghost predicate Represents(heads: seq<nat>, mem: Memory, lists: seq<seq<nat>>)
  {
    && |heads| == MAX_ORDER && |lists| == MAX_ORDER
    && (forall k :: 0 <= k < MAX_ORDER ==> Chain(mem, lists[k], heads[k]) && Distinct(lists[k]))
  }

  /** `lists` holds the addresses of the blocks of `free`, order by order. */
  ghost predicate Enumerates(lists: seq<seq<nat>>, free: set<Block>)
  {
    && |lists| == MAX_ORDER
    && (forall b :: b in free ==> b.order < MAX_ORDER && Address(b) in lists[b.order])
    && (forall k, a :: 0 <= k < MAX_ORDER && a in lists[k] ==> BlockAt(a, k) in free && Address(BlockAt(a, k)) == a)
  }

  /** The memory outside the pages of `f` is the same, and no word is added there. */
  ghost predicate KeptOutside(mem: Memory, mem': Memory, f: set<Block>)
  {
    && (forall a :: a in mem && !Covers(f, PageOf(a)) ==> a in mem' && mem'[a] == mem[a])
    && (forall a :: a in mem' && !Covers(f, PageOf(a)) ==> a in mem)
  }

  lemma KeptReflexive(m: Memory, f: set<Block>)
    ensures KeptOutside(m, m, f)
  {
  }

  lemma CoveredByMember(f: set<Block>, c: Block)
    requires c in f
    ensures forall p: nat :: Covers({c}, p) ==> Covers(f, p)
  {
  }

  lemma KeptTransitive(m0: Memory, m1: Memory, m2: Memory, f: set<Block>, g: set<Block>)
    requires KeptOutside(m0, m1, f) && KeptOutside(m1, m2, g)
    requires forall p: nat :: Covers(g, p) ==> Covers(f, p)
    ensures KeptOutside(m0, m2, f)
  {
  }

  lemma KeptWider(m0: Memory, m1: Memory, m2: Memory, f: set<Block>, b: Block)
    requires KeptOutside(m0, m1, f) && KeptOutside(m1, m2, {b})
    ensures KeptOutside(m0, m2, f + {b})
  {
    CoverUnion(f, {b});
  }

  /** The link of a block is stored inside the block. */
  lemma LinkIsInside(mem: Memory, b: Block, c: Block, w: nat)
    requires Within(b, c)
    ensures KeptOutside(mem, mem[Address(b) := w], {c})
  {
    hide Within, Shift;
    AddressWithin(b);
    WithinTransitive(Page(PageOf(Address(b))), b, c);
    assert Covers({c}, PageOf(Address(b)));
  }

  lemma ListsUnshared(lists: seq<seq<nat>>, free: set<Block>, k: nat, m: nat, a: nat)
    requires Enumerates(lists, free) && PairwiseDisjoint(free)
    requires k < MAX_ORDER && m < MAX_ORDER && k != m && a in lists[k]
    ensures a !in lists[m]
  {
    if a in lists[m] {
      DistinctAddresses(BlockAt(a, k), BlockAt(a, m));
    }
  }

  lemma NodeIsCovered(lists: seq<seq<nat>>, free: set<Block>, k: nat, a: nat)
    requires Enumerates(lists, free) && k < MAX_ORDER && a in lists[k]
    ensures Covers(free, PageOf(a))
  {
    AddressWithin(BlockAt(a, k));
  }

  /** Whatever the holders of outstanding blocks write, the free lists stay intact. */
  lemma OwnersMayWrite(heads: seq<nat>, mem: Memory, mem': Memory, lists: seq<seq<nat>>, free: set<Block>)
    requires Represents(heads, mem, lists) && Enumerates(lists, free)
    requires forall a :: a in mem && Covers(free, PageOf(a)) ==> a in mem' && mem'[a] == mem[a]
    ensures Represents(heads, mem', lists)
  {
    forall k | 0 <= k < MAX_ORDER
      ensures Chain(mem', lists[k], heads[k])
    {
      assert Chain(mem, lists[k], heads[k]);
      forall j | 0 <= j < |lists[k]|
        ensures lists[k][j] in mem' && mem'[lists[k][j]] == mem[lists[k][j]]
      {
        NodeIsCovered(lists, free, k, lists[k][j]);
      }
    }
  }

  /** Pushing a block that is in no list. */
  lemma PushNode(heads: seq<nat>, mem: Memory, lists: seq<seq<nat>>, free: set<Block>, b: Block)
    requires Represents(heads, mem, lists) && Enumerates(lists, free)
    requires DisjointFrom(free, b) && b.order < MAX_ORDER
    ensures Represents(heads[b.order := Address(b)], mem[Address(b) := heads[b.order]],
                       lists[b.order := [Address(b)] + lists[b.order]])
    ensures Enumerates(lists[b.order := [Address(b)] + lists[b.order]], free + {b})
  {
    var a, k := Address(b), b.order;
    AddressOfPage(b);
    forall m | 0 <= m < MAX_ORDER
      ensures a !in lists[m]
    {
      if a in lists[m] {
        DistinctAddresses(BlockAt(a, m), b);
      }
    }
    PushChain(mem, lists[k], heads[k], a);
    forall m | 0 <= m < MAX_ORDER
      ensures Chain(mem[a := heads[k]], lists[m], heads[m])
    {
      assert Chain(mem, lists[m], heads[m]);
    }
  }

  lemma PushChain(mem: Memory, s: seq<nat>, head: nat, a: nat)
    requires Chain(mem, s, head) && Distinct(s) && a !in s
    ensures Chain(mem[a := head], [a] + s, a) && Distinct([a] + s)
  {
  }

  /** Memory after node `j` of the list `s` is unlinked. */
  function Unlinked(mem: Memory, s: seq<nat>, j: nat): Memory
    requires j < |s| && s[j] in mem
  {
    if j == 0 then mem[s[0] := 0] else mem[s[j] := 0][s[j - 1] := mem[s[j]]]
  }

  function Without(s: seq<nat>, j: nat): seq<nat>
    requires j < |s|
  {
    s[..j] + s[j + 1..]
  }

  lemma WithoutFacts(s: seq<nat>, j: nat)
    requires Distinct(s) && j < |s|
    ensures Distinct(Without(s, j))
    ensures forall a :: a in Without(s, j) <==> a in s && a != s[j]
  {
    var t := Without(s, j);
    forall a | a in s && a != s[j]
      ensures a in t
    {
      var m :| 0 <= m < |s| && s[m] == a;
      assert t[if m < j then m else m - 1] == a;
    }
  }

  lemma UnlinkChain(mem: Memory, s: seq<nat>, head: nat, j: nat)
    requires Chain(mem, s, head) && Distinct(s) && j < |s|
    ensures Chain(Unlinked(mem, s, j), Without(s, j), if j == 0 then mem[head] else head)
  {
    var t := Without(s, j);
    var mem' := Unlinked(mem, s, j);
    forall m | 0 <= m < |t|
      ensures t[m] in mem' && mem'[t[m]] == Link(t, m + 1)
    {
      var n := if m < j then m else m + 1;
      assert t[m] == s[n] && n != j;
      assert n == j - 1 || mem'[s[n]] == mem[s[n]];
    }
  }

  /** A list none of whose nodes is written survives. */
  lemma ChainFrame(mem: Memory, s: seq<nat>, head: nat, t: seq<nat>, j: nat)
    requires Chain(mem, s, head) && j < |t| && t[j] in mem && t[j] !in s && (j > 0 ==> t[j - 1] !in s)
    ensures Chain(Unlinked(mem, t, j), s, head)
  {
  }

  /** Unlinking node `j` of the list of order `k` leaves the lists represented. */
  lemma RemoveNode(heads: seq<nat>, mem: Memory, lists: seq<seq<nat>>, free: set<Block>, k: nat, j: nat)
    requires Represents(heads, mem, lists) && Enumerates(lists, free) && PairwiseDisjoint(free)
    requires k < MAX_ORDER && j < |lists[k]|
    ensures Chain(mem, lists[k], heads[k])
    ensures Represents(if j == 0 then heads[k := mem[heads[k]]] else heads, Unlinked(mem, lists[k], j),
                       lists[k := Without(lists[k], j)])
  {
    hide Enumerates, PairwiseDisjoint, Chain, Distinct;
    var s := lists[k];
    var mem' := (NodeInMemory(mem, s, heads[k], j); Unlinked(mem, s, j));
    var heads' := if j == 0 then heads[k := mem[heads[k]]] else heads;
    forall m | 0 <= m < MAX_ORDER
      ensures Chain(mem', lists[k := Without(s, j)][m], heads'[m]) && Distinct(lists[k := Without(s, j)][m])
    {
      if m == k {
        WithoutFacts(s, j);
        UnlinkChain(mem, s, heads[k], j);
      } else {
        ListsUnshared(lists, free, k, m, s[j]);
        if j > 0 { ListsUnshared(lists, free, k, m, s[j - 1]); }
        ChainFrame(mem, lists[m], heads[m], s, j);
      }
    }
  }

  lemma NodeInMemory(mem: Memory, s: seq<nat>, head: nat, j: nat)
    requires Chain(mem, s, head) && j < |s|
    ensures s[j] in mem && head in mem
  {
  }

  /** The words that unlinking writes are in free pages. */
  lemma RemoveWritesFree(mem: Memory, lists: seq<seq<nat>>, free: set<Block>, k: nat, j: nat)
    requires Enumerates(lists, free)
    requires k < MAX_ORDER && j < |lists[k]| && lists[k][j] in mem
    ensures KeptOutside(mem, Unlinked(mem, lists[k], j), free)
  {
    hide PageOf, Covers;
    NodeIsCovered(lists, free, k, lists[k][j]);
    if j > 0 { NodeIsCovered(lists, free, k, lists[k][j - 1]); }
  }

  lemma RemoveFromEnumeration(lists: seq<seq<nat>>, free: set<Block>, k: nat, j: nat)
    requires Enumerates(lists, free) && k < MAX_ORDER && j < |lists[k]| && Distinct(lists[k])
    ensures Enumerates(lists[k := Without(lists[k], j)], free - {BlockAt(lists[k][j], k)})
  {
    var s := lists[k];
    var b := BlockAt(s[j], k);
    var lists' := lists[k := Without(s, j)];
    WithoutFacts(s, j);
    forall c | c in free - {b}
      ensures Address(c) in lists'[c.order]
    {
      AddressOfPage(c);
    }
    forall m, a | 0 <= m < MAX_ORDER && a in lists'[m]
      ensures BlockAt(a, m) in free - {b} && Address(BlockAt(a, m)) == a
    {
      assert a in lists[m];
    }
  }

  lemma HalvesDisjoint(free: set<Block>, c: Block)
    requires c.order > 0 && DisjointFrom(free, c)
    ensures DisjointFrom(free, Left(c)) && DisjointFrom(free, Right(c))
    ensures DisjointFrom(free + {Right(c)}, Left(c))
  {
    Halves(c);
    forall d | d in free
      ensures Disjoint(d, Left(c)) && Disjoint(d, Right(c))
    {
      DisjointInside(Left(c), c, d);
      DisjointInside(Right(c), c, d);
    }
  }

  lemma FreedIsCovered(f: set<Block>, b: Block)
    ensures AllCovered(f + {b}, b)
  {
    WithinSelf(b);
    ContainedIsCovered(f + {b}, b, b);
  }

  lemma CoveredBySuperset(f: set<Block>, g: set<Block>)
    requires f <= g
    ensures forall p: nat :: Covers(f, p) ==> Covers(g, p)
  {
  }

  lemma JoinedIsCovered(f: set<Block>, b: Block)
    requires AllCovered(f, b) && Buddy(b) in f
    ensures AllCovered(f, Parent(b))
  {
    WithinParent(b);
    WithinSelf(Buddy(b));
    ContainedIsCovered(f, Buddy(b), Buddy(b));
    HalvesCovered(f, Parent(b));
  }

  lemma LinkIsCovered(mem: Memory, f: set<Block>, b: Block, w: nat)
    requires AllCovered(f, b)
    ensures KeptOutside(mem, mem[Address(b) := w], f)
  {
    hide Within, Shift;
    AddressWithin(b);
  }

  // ---------------------------------------------------------- greedy orders

  /** The order of the block that `add_free_region` cuts at page `current`. */
  function GreedyOrder(current: nat, end: nat): (k: nat)
    requires current < end
    ensures k < MAX_ORDER
  {
    var byRemaining := Log2(end - current);
    var byAlignment := if current == 0 then MAX_ORDER - 1 else Min(TrailingZeros(current), MAX_ORDER - 1);
    Min(Min(byRemaining, byAlignment), MAX_ORDER - 1)
  }

  /** The block cut is aligned, fits, and is the largest such block. */
  lemma GreedyOrderIsMaximal(current: nat, end: nat)
    requires 0 < current < end
    ensures var k := GreedyOrder(current, end); var b := Block(Shift(current, k), k);
      && FirstPage(b) == current
      && current + Pow2(k) <= end
      && (k < MAX_ORDER - 1 && b.index % 2 == 0 ==> end < current + 2 * Pow2(k))
  {
    var k := GreedyOrder(current, end);
    var r := Log2(end - current);
    Pow2Monotone(k, r);
    TrailingZerosAlign(current, k);
    if k < MAX_ORDER - 1 && Shift(current, k) % 2 == 0 {
      ShiftStep(current, k);
      ScaleStep(Shift(current, k + 1), k);
      TrailingZerosAlign(current, k + 1);
      if k < r {
        assert false;
      }
    }
  }

  /** What the greedy loop keeps: `f` is `f0` with the pages from `start` up to `current`. */
  ghost predicate RegionSoFar(f0: set<Block>, f: set<Block>, start: nat, current: nat, end: nat)
  {
    && Canonical(f) && f0 <= f && 0 < start <= current <= end
    && (forall p: nat :: Covers(f, p) <==> Covers(f0, p) || start <= p < current)
    && (forall p: nat :: start - 1 <= p <= end ==> !Covers(f0, p))
    && (forall d :: d in f - f0 && d.order < MAX_ORDER - 1 && d.index % 2 == 0 ==>
                      end < FirstPage(d) + 2 * Pow2(d.order))
  }

  /** The next block overlaps nothing, and its buddy is not free. */
  lemma GreedyBlockIsNew(f0: set<Block>, f: set<Block>, start: nat, current: nat, end: nat, b: Block)
    requires RegionSoFar(f0, f, start, current, end) && current < end
    requires FirstPage(b) == current && current + Pow2(b.order) <= end
    ensures DisjointFrom(f, b) && b.index > 0
    ensures b.order < MAX_ORDER - 1 ==> Buddy(b) !in f
  {
    forall p: nat | Within(Page(p), b)
      ensures !Covers(f, p)
    {
      PagesAreInterval(p, b);
    }
    UncoveredDisjoint(f, b);
    if b.index == 0 { ScaleZero(b.order); }
    FirstPageOfBuddy(b);
    if b.index % 2 == 0 {
      FirstPageWithin(Buddy(b));
      assert !Covers(f, FirstPage(Buddy(b)));
    } else {
      PagesAreInterval(current - 1, Buddy(b));
      assert !Covers(f0, current - 1);
      assert Buddy(b) !in f0;
    }
  }

  lemma GreedyStep(f0: set<Block>, f: set<Block>, start: nat, current: nat, end: nat, b: Block)
    requires RegionSoFar(f0, f, start, current, end) && current < end && b.order < MAX_ORDER
    requires FirstPage(b) == current && current + Pow2(b.order) <= end
    requires b.order < MAX_ORDER - 1 && b.index % 2 == 0 ==> end < current + 2 * Pow2(b.order)
    ensures DisjointFrom(f, b) && b !in f && b.index > 0
    ensures RegionSoFar(f0, f + {b}, start, current + Pow2(b.order), end)
  {
    hide Within, Pow2, Scale;
    GreedyBlockIsNew(f0, f, start, current, end, b);
    WithinSelf(b);
    AddKeepsCanonical(f, b);
    CoverUnion(f, {b});
    forall p: nat
      ensures Covers({b}, p) <==> current <= p < current + Pow2(b.order)
    {
      PagesAreInterval(p, b);
      assert b in {b};
    }
  }

  lemma ParentSpan(b: Block)
    ensures FirstPage(Parent(b)) == if b.index % 2 == 0 then FirstPage(b) else FirstPage(b) - Pow2(b.order)
  {
    ScaleStep(b.index / 2, b.order);
    FirstPageOfBuddy(b);
  }

  lemma FarApart(b: Block, c: Block)
    requires b.order == c.order && b.index + 2 <= c.index
    ensures FirstPage(b) + 2 * Pow2(b.order) <= FirstPage(c)
  {
    ScaleOne(b.order);
    ScaleAdd(b.index, 1, b.order);
    ScaleAdd(b.index + 1, 1, b.order);
    ScaleAdd(b.index + 2, c.index - b.index - 2, b.order);
  }

  /**
   The blocks that cover a new interval of pages: at most two of each order below the top,
   at most one left half and at most one right half.
   */
  lemma TwoPerOrder(f0: set<Block>, f: set<Block>, start: nat, end: nat, b: Block, c: Block)
    requires Canonical(f) && f0 <= f
    requires forall p: nat :: Covers(f, p) <==> Covers(f0, p) || start <= p < end
    requires forall p: nat :: start <= p < end ==> !Covers(f0, p)
    requires b in f - f0 && c in f - f0
    requires b.order == c.order < MAX_ORDER - 1 && b.index % 2 == c.index % 2
    ensures b == c
  {
    hide Within, Disjoint;
    var g := f - f0;
    CoverUnion(f0, g);
    assert f0 + g == f;
    forall p: nat
      ensures Covers(g, p) <==> start <= p < end
    {
      if Covers(g, p) && Covers(f0, p) {
        var x :| x in g && Within(Page(p), x);
        var y :| y in f0 && Within(Page(p), y);
        SharedPage(p, x, y);
      }
    }
    NoLaterTwin(g, start, end, b, c);
    NoLaterTwin(g, start, end, c, b);
  }

  lemma NoLaterTwin(f: set<Block>, start: nat, end: nat, b: Block, c: Block)
    requires Canonical(f) && forall p: nat :: Covers(f, p) <==> start <= p < end
    requires b in f && c in f && b.order == c.order < MAX_ORDER - 1 && b.index % 2 == c.index % 2
    ensures b.index >= c.index
  {
    if b.index < c.index {
      // The parent of the outer one lies between two covered pages, so it is wholly covered.
      var outer := if b.index % 2 == 0 then b else c;
      var first, last := FirstPage(b), FirstPage(c) + Pow2(c.order) - 1;
      CanonicalIsMaximal(f, outer);
      PagesAreInterval(first, b);
      PagesAreInterval(last, c);
      assert Covers(f, first) && Covers(f, last);
      ParentSpan(outer);
      FarApart(b, c);
      forall p: nat | Within(Page(p), Parent(outer))
        ensures Covers(f, p)
      {
        PagesAreInterval(p, Parent(outer));
      }
      assert false;
    }
  }

  // -------------------------------------------------------------- the object

  class BuddySystemFrameAllocator {
    const heads: array<nat>
    var mem: Memory
    ghost var lists: seq<seq<nat>>
    ghost var free: set<Block>
    ghost var out: set<Block>

    ghost predicate Valid()
      reads this, heads
    {
      && heads.Length == MAX_ORDER
      && Represents(heads[..], mem, lists)
      && Enumerates(lists, free)
      && Managed(free) && PairwiseDisjoint(free)
    }

    ghost function State(): BuddyState
      reads this
    {
      BuddyState(free, out)
    }

    /** Between calls the free set is also in normal form and disjoint from what is handed out. */
    ghost predicate Ready()
      reads this, heads
    {
      Valid() && Inv(State())
    }

    constructor (memory: Memory)
      ensures Ready() && State() == BuddyState({}, {}) && mem == memory && fresh(heads)
    {
      heads := new nat[MAX_ORDER](_ => 0);
      mem := memory;
      lists := seq(MAX_ORDER, _ => []);
      free, out := {}, {};
    }

    /** Pushes a block on the front of its list. */
    method AddFreeBlock(addr: nat, order: nat)
      requires Valid() && order < MAX_ORDER
      requires Address(BlockAt(addr, order)) == addr && BlockAt(addr, order).index > 0
      requires DisjointFrom(free, BlockAt(addr, order))
      modifies this`mem, this`lists, this`free, heads
      ensures Valid()
      ensures free == old(free) + {BlockAt(addr, order)}
      ensures mem == old(mem)[addr := old(heads[order])]
    {
      hide Represents, Enumerates, Address, BlockAt, Within;
      ghost var b := BlockAt(addr, order);
      ListFacts(addr, order);
      PushNode(heads[..], mem, lists, free, b);
      var oldHead := heads[order];
      mem := mem[addr := oldHead];
      heads[order] := addr;
      assert heads[..] == old(heads[..])[order := addr];
      lists := lists[order := [addr] + lists[order]];
      free := free + {b};
    }

    lemma ListFacts(addr: nat, order: nat)
      requires Valid() && order < MAX_ORDER
      ensures |lists| == MAX_ORDER && Chain(mem, lists[order], heads[order]) && Distinct(lists[order])
      ensures 0 !in lists[order]
      ensures Address(BlockAt(addr, order)) == addr ==> (addr in lists[order] <==> BlockAt(addr, order) in free)
      ensures KeptOutside(mem, mem, free)
      ensures heads[order] in lists[order] ==> Address(BlockAt(heads[order], order)) == heads[order]
      ensures heads[order] == 0 <==> forall c :: c in free ==> c.order != order
      ensures forall c :: c in free ==> c.order < MAX_ORDER
    {
      assert heads[..][order] == heads[order];
      if 0 in lists[order] {
        AddressPositive(BlockAt(0, order));
      }
      assert heads[order] != 0 ==> heads[order] in lists[order] && BlockAt(heads[order], order) in free;
    }

    /** Unlinks the block at `addr` if it is in the list of its order. */
    method TryRemoveFromList(addr: nat, order: nat) returns (found: bool)
      requires Valid() && order < MAX_ORDER
      requires Address(BlockAt(addr, order)) == addr
      modifies this`mem, this`lists, this`free, heads
      ensures Valid()
      ensures found <==> BlockAt(addr, order) in old(free)
      ensures free == old(free) - {BlockAt(addr, order)}
      ensures KeptOutside(old(mem), mem, old(free))
      ensures !found ==> mem == old(mem) && heads[..] == old(heads[..]) && lists == old(lists)
    {
      hide Represents, Enumerates, KeptOutside, Address, BlockAt;
      ListFacts(addr, order);
      ghost var s := lists[order];
      var head := heads[order];
      if head == 0 {
        return false;
      }
      if head == addr {
        RemoveNode(heads[..], mem, lists, free, order, 0);
        RemoveFromEnumeration(lists, free, order, 0);
        RemoveWritesFree(mem, lists, free, order, 0);
        heads[order] := mem[head];
        mem := mem[head := 0];
        assert heads[..] == old(heads[..])[order := old(mem)[head]];
        lists := lists[order := Without(s, 0)];
        free := free - {BlockAt(addr, order)};
        return true;
      }
      var current := head;
      ghost var j := 0;
      while mem[current] != 0
        invariant 0 <= j < |s| && current == s[j] && addr !in s[..j + 1]
        decreases |s| - j
      {
        var next := mem[current];
        if next == addr {
          RemoveNode(heads[..], mem, lists, free, order, j + 1);
          RemoveFromEnumeration(lists, free, order, j + 1);
          RemoveWritesFree(mem, lists, free, order, j + 1);
          var after := mem[next];
          mem := mem[next := 0];
          mem := mem[current := after];
          lists := lists[order := Without(s, j + 1)];
          free := free - {BlockAt(addr, order)};
          return true;
        }
        current := next;
        j := j + 1;
      }
      assert s[..j + 1] == s;
      return false;
    }

    /** Takes the first block off a non-empty list. */
    method PopHead(order: nat) returns (addr: nat)
      requires Valid() && order < MAX_ORDER && heads[order] != 0
      modifies this`mem, this`lists, this`free, heads
      ensures Valid()
      ensures BlockAt(addr, order) in old(free) && Address(BlockAt(addr, order)) == addr
      ensures free == old(free) - {BlockAt(addr, order)}
      ensures KeptOutside(old(mem), mem, old(free))
    {
      hide Represents, Enumerates, KeptOutside, Address, BlockAt;
      addr := heads[order];
      ListFacts(addr, order);
      ghost var s := lists[order];
      assert addr == s[0];
      RemoveNode(heads[..], mem, lists, free, order, 0);
      RemoveFromEnumeration(lists, free, order, 0);
      RemoveWritesFree(mem, lists, free, order, 0);
      heads[order] := mem[addr];
      mem := mem[addr := 0];
      assert heads[..] == old(heads[..])[order := old(mem)[addr]];
      lists := lists[order := Without(s, 0)];
      free := free - {BlockAt(addr, order)};
    }

    /** The splitting loop of an allocation: the right halves of the block go back to their lists. */
    method SplitDown(addr: nat, order: nat, required: nat)
      requires Valid() && required <= order < MAX_ORDER
      requires Address(BlockAt(addr, order)) == addr && BlockAt(addr, order).index > 0
      requires DisjointFrom(free, BlockAt(addr, order))
      modifies this`mem, this`lists, this`free, heads
      ensures Valid()
      ensures free == Carve(old(free), BlockAt(addr, order), required)
      ensures KeptOutside(old(mem), mem, {BlockAt(addr, order)})
    {
      hide Represents, Enumerates, PairwiseDisjoint, KeptOutside, Within, Disjoint, Address, BlockAt;
      ghost var c := BlockAt(addr, order);
      ghost var cur := c;
      var current := order;
      KeptReflexive(mem, {c});
      WithinSelf(c);
      while current > required
        invariant required <= current <= order && Valid()
        invariant cur.order == current && Address(cur) == addr && cur.index > 0
        invariant Within(cur, c) && DisjointFrom(free, cur)
        invariant Carve(free, cur, required) == Carve(old(free), c, required)
        invariant KeptOutside(old(mem), mem, {c})
      {
        var size := Pow2(current + PAGE_SIZE_BITS);
        var buddy := addr + size / 2;
        RightAddress(cur);
        Halves(cur);
        AddressOfPage(Right(cur));
        HalvesDisjoint(free, cur);
        WithinTransitive(Right(cur), cur, c);
        WithinTransitive(Left(cur), cur, c);
        ghost var before := mem;
        LinkIsInside(mem, Right(cur), c, heads[current - 1]);
        AddFreeBlock(buddy, current - 1);
        KeptTransitive(old(mem), before, mem, {c}, {c});
        cur := Left(cur);
        current := current - 1;
      }
    }

    /** Takes a block off the list of `order` and splits it down to `required`. */
    method TakeFrom(order: nat, required: nat) returns (ppn: nat, ghost c: Block)
      requires Ready() && required <= order < MAX_ORDER && heads[order] != 0
      modifies this, heads
      ensures Ready() && c in old(free) && c.order == order
      ensures AllocFrom(old(State()), c, required, Leftmost(c, required), State())
      ensures ppn == FirstPage(c)
      ensures KeptOutside(old(mem), mem, old(free))
    {
      hide Represents, Enumerates, KeptOutside, Within, Address, BlockAt, Shift, Scale;
      var addr := PopHead(order);
      c := BlockAt(addr, order);
      ghost var b := Leftmost(c, required);
      ghost var before := mem;
      SplitDown(addr, order, required);
      out := out + {b};
      AllocKeeps(old(State()), c, required, b, State());
      CoveredByMember(old(free), c);
      KeptTransitive(old(mem), before, mem, old(free), {c});
      AddressOfPage(c);
      ppn := PageOf(addr);
    }

    /**
     Allocates a naturally aligned run of at least `pages` pages. It fails exactly when the
     order is too large or no such run is wholly free.
     */
    method Alloc(pages: nat) returns (r: Option<nat>)
      requires Ready() && pages > 0
      modifies this, heads
      ensures Ready()
      ensures r.None? ==> Step(old(State()), Call.Alloc(pages, None), State())
      ensures r.Some? ==>
                && RunAt(r.value, PagesToOrder(pages)).Some?
                && Step(old(State()), Call.Alloc(pages, RunAt(r.value, PagesToOrder(pages))), State())
      ensures r.None? <==>
                PagesToOrder(pages) >= MAX_ORDER ||
                forall b: Block :: b.order == PagesToOrder(pages) ==> !AllCovered(old(free), b)
      ensures KeptOutside(old(mem), mem, old(free))
    {
      hide Represents, Enumerates, KeptOutside, Within, Address, BlockAt, Inv, AllCovered;
      var required := PagesToOrder(pages);
      AllocFailsExactly(State(), pages, State());
      KeptReflexive(mem, free);
      if required >= MAX_ORDER {
        ListFacts(0, 0);
        return None;
      }
      var order := required;
      ListFacts(0, order);
      while order < MAX_ORDER && heads[order] == 0
        invariant required <= order <= MAX_ORDER
        invariant Ready() && free == old(free) && out == old(out) && mem == old(mem)
        invariant forall c :: c in free ==> !(required <= c.order < order)
      {
        ListFacts(0, order);
        order := order + 1;
      }
      if order == MAX_ORDER {
        return None;
      }
      ListFacts(0, order);
      var ppn, c := TakeFrom(order, required);
      ghost var b := Leftmost(c, required);
      ShiftScale(b.index, required);
      assert RunAt(ppn, required) == Some(b);
      assert FirstFit(old(free), required, c) && AllocFrom(old(State()), c, required, b, State());
      return Some(ppn);
    }

    /** Returns an outstanding block, joining it with free buddies as far up as they go. */
    method Dealloc(ppn: nat, pages: nat)
      requires Ready() && pages > 0
      requires RunAt(ppn, PagesToOrder(pages)).Some? && RunAt(ppn, PagesToOrder(pages)).value in out
      modifies this, heads
      ensures Ready()
      ensures Step(old(State()), Call.Dealloc(RunAt(ppn, PagesToOrder(pages)).value), State())
      ensures KeptOutside(old(mem), mem, old(free) + {RunAt(ppn, PagesToOrder(pages)).value})
    {
      hide Represents, Enumerates, KeptOutside, Within, Disjoint, Address, BlockAt, Covers, Xor, Pow2, Scale, Shift;
      var order := PagesToOrder(pages);
      ghost var b := RunAt(ppn, order).value;
      var size := Pow2(order + PAGE_SIZE_BITS);
      var addr := Scale(ppn, PAGE_SIZE_BITS);
      ghost var cur := b;
      ghost var touched := free + {b};
      AddressOfPage(b);
      var current := order;
      KeptReflexive(mem, touched);
      FreedIsCovered(free, b);
      while current < MAX_ORDER - 1
        invariant order <= current < MAX_ORDER && Valid() && out == old(out) && free <= old(free)
        invariant cur.order == current && Address(cur) == addr && size == Pow2(current + PAGE_SIZE_BITS)
        invariant cur.index > 0 && DisjointFrom(free, cur)
        invariant Coalesce(free, cur) == Coalesce(old(free), b)
        invariant AllCovered(touched, cur) && KeptOutside(old(mem), mem, touched)
      {
        var buddy := Xor(addr, size);
        XorIsBuddy(cur);
        AddressOfPage(Buddy(cur));
        ghost var f, before := free, mem;
        var found := TryRemoveFromList(buddy, current);
        CoveredBySuperset(f, touched);
        KeptTransitive(old(mem), before, mem, touched, f);
        if !found {
          assert Coalesce(free, cur) == free + {cur};
          break;
        }
        JoinedIsDisjoint(f, cur);
        JoinedIsCovered(touched, cur);
        addr := Min(addr, buddy);
        size := size * 2;
        Pow2Step(current + PAGE_SIZE_BITS);
        current := current + 1;
        cur := Parent(cur);
      }
      assert Coalesce(free, cur) == free + {cur};
      AddressOfPage(cur);
      ghost var before := mem;
      LinkIsCovered(mem, touched, cur, heads[current]);
      AddFreeBlock(addr, current);
      KeptTransitive(old(mem), before, mem, touched, touched);
      out := out - {b};
      DeallocKeeps(old(State()), b, State());
    }

    /**
     Adds the pages from `start` up to `end`, cut greedily into aligned blocks. The pages
     are new to the allocator, and neither the page before nor the page after is free.
     */
    method AddFreeRegion(start: nat, end: nat)
      requires Ready()
      requires start < end ==> 0 < start
      requires forall p: nat :: start <= p < end ==> !Covers(out, p)
      requires start < end ==> forall p: nat :: start - 1 <= p <= end ==> !Covers(free, p)
      modifies this`mem, this`lists, this`free, heads
      ensures Ready() && old(free) <= free
      ensures forall p: nat :: Covers(free, p) <==> Covers(old(free), p) || start <= p < end
      ensures KeptOutside(old(mem), mem, free - old(free))
    {
      hide Represents, Enumerates, KeptOutside, Address, BlockAt, Within, Pow2, Scale, Shift, Disjoint;
      KeptReflexive(mem, free - old(free));
      if start >= end {
        return;
      }
      var current := start;
      while current < end
        invariant Valid() && RegionSoFar(old(free), free, start, current, end)
        invariant KeptOutside(old(mem), mem, free - old(free))
      {
        var order := GreedyOrder(current, end);
        var blockPages := Pow2(order);
        var addr := Scale(current, PAGE_SIZE_BITS);
        ghost var b := Block(Shift(current, order), order);
        GreedyOrderIsMaximal(current, end);
        GreedyStep(old(free), free, start, current, end, b);
        AddressOfPage(b);
        ghost var f, before := free, mem;
        WithinSelf(b);
        LinkIsInside(mem, b, b, heads[order]);
        AddFreeBlock(addr, order);
        KeptWider(old(mem), before, mem, f - old(free), b);
        assert f - old(free) + {b} == free - old(free);
        current := current + blockPages;
      }
      forall d | d in out
        ensures DisjointFrom(free, d)
      {
        forall p: nat | Within(Page(p), d)
          ensures !Covers(free, p)
        {
          DisjointCovers(old(free), d, p);
          assert Covers(out, p);
        }
        UncoveredDisjoint(free, d);
      }
    }
  }
}
