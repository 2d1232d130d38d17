/**
 The small-object allocator, for runs that only allocate: pages taken from the buddy
 allocator are carved into objects of one size, linked through their first words. The links
 are virtual addresses; memory itself is indexed by physical ones.

 An object is a block of bytes: `order` is the logarithm of its size. Page `p` is the byte
 block of order 12 with index `p`.
 */
module Slub {
  import opened Bits
  import opened Blocks
  import opened Buddy
  import B = BuddySpec

  const CACHES: nat := 9

  /** The state of a page that serves as a slab. */
  datatype Slab = Slab(freelist: nat, inuse: nat, cache: nat, hasNext: bool, nextPartial: nat)

  datatype Cache = Cache(objectSize: nat, active: Option<nat>, partial: Option<nat>)

  // --------------------------------------------------------------- the sizes

  /** The object size of a new cache: the request rounded up to whole words. */
  function ObjectSize(requested: nat): nat
    requires requested + 7 < WORD
  {
    Max(AlignDown(requested + 7, 8), 8)
  }

  /** The size class of a layout. */
  function ActualSize(size: nat, align: nat): nat
  {
    Max(NextPowerOfTwo(Max(size, align)), 8)
  }

  /** The logarithm of the object size of cache `i`. */
  function Order(i: nat): nat { i + 3 }

  lemma SmallPowers()
    ensures Pow2(3) == 8 && Pow2(11) == 2048 && TrailingZeros(8) == 3
  {
    assert Pow2(3) == 8;
    hide Pow2;
    Pow2Split(3, 3);
    Pow2Split(6, 3);
    Pow2Step(9);
    Pow2Step(10);
    TrailingZerosPow2(3);
  }

  lemma CacheSizes(i: nat)
    requires i < CACHES
    ensures 8 <= Pow2(Order(i)) <= 2048 && ObjectSize(Pow2(Order(i))) == Pow2(Order(i))
  {
    SmallPowers();
    hide AlignDown, Pow2, TrailingZeros;
    Pow2Monotone(3, Order(i));
    Pow2Monotone(Order(i), 11);
    Pow2Split(3, i);
    var n := Pow2(Order(i));
    assert Aligned(n, 8);
    AlignDownIsGreatest(n + 7, 8, n);
    assert AlignDown(n + 7, 8) == n by {
      var a, q := AlignDown(n + 7, 8), Pow2(i);
      assert n == 8 * q;
      assert a % 8 == 0;
    }
  }

  /** No smaller class has room for the layout. */
  lemma LeastClass(size: nat, align: nat, k: nat)
    requires 3 <= k && size <= Pow2(k) && align <= Pow2(k)
    ensures TrailingZeros(ActualSize(size, align)) <= k
  {
    hide Pow2, TrailingZeros;
    var j := CeilLog2(Max(size, align));
    TrailingZerosPow2(j);
    TrailingZerosPow2(3);
    SmallPowers();
    if j > k {
      Pow2Monotone(k, j - 1);
    }
    if j < 3 {
      Pow2Monotone(j, 3);
    } else {
      Pow2Monotone(3, j);
    }
  }

  /**
   The index that the size class routes to is that of the cache with exactly that size, which
   is the least that has room for the layout.
   */
  lemma Routing(size: nat, align: nat)
    requires ActualSize(size, align) <= 2048
    ensures var n := ActualSize(size, align);
      3 <= TrailingZeros(n) < 3 + CACHES && Pow2(TrailingZeros(n)) == n && size <= n && align <= n
    ensures var w := TrailingZeros(ActualSize(size, align));
      forall k: nat :: 3 <= k && size <= Pow2(k) && align <= Pow2(k) ==> w <= k
  {
    var n := ActualSize(size, align);
    forall k: nat | 3 <= k && size <= Pow2(k) && align <= Pow2(k)
      ensures TrailingZeros(n) <= k
    {
      LeastClass(size, align, k);
    }
    assert Pow2(3) == 8;
    TrailingZerosPow2(3);
    assert IsPowerOfTwo(n);
    var k := TrailingZeros(n);
    if k < 3 { Pow2Monotone(k, 3); }
    if k > 11 {
      Pow2Monotone(12, k);
      Pow2Values();
    }
  }

  // -------------------------------------------------------------- the cells

  /** Object `k` of page `p`, for objects of order `w`. */
  function Cell(p: nat, w: nat, k: nat): Block
    requires w <= 12
  {
    Block(Scale(p, 12 - w) + k, w)
  }

  /** The address of an object. */
  function Start(b: Block): nat { Scale(b.index, b.order) }

  function PerSlab(w: nat): nat
    requires w <= 12
  {
    Pow2(12 - w)
  }

  /** An object lies inside its page. */
  lemma CellWithinPage(p: nat, w: nat, k: nat)
    requires w <= 12 && k < PerSlab(w)
    ensures Within(Cell(p, w, k), Block(p, 12))
  {
    ShiftInterval(Scale(p, 12 - w) + k, p, 12 - w);
  }

  lemma CellStarts(p: nat, w: nat, k: nat)
    requires w <= 12
    ensures Start(Cell(p, w, k)) == Scale(p, 12) + Scale(k, w)
    ensures Start(Cell(p, w, k + 1)) == Start(Cell(p, w, k)) + Pow2(w)
  {
    hide Scale, Pow2;
    ScaleAdd(Scale(p, 12 - w), k, w);
    ScaleAdd(Scale(p, 12 - w) + k, 1, w);
    ScaleOne(w);
    ScaleScale(p, 12 - w, w);
  }

  /** The objects of a page fill it. */
  lemma CellsFill(p: nat, w: nat, k: nat)
    requires w <= 12
    ensures Start(Cell(p, w, k)) < Scale(p, 12) + Pow2(12) <==> k < PerSlab(w)
    ensures Start(Cell(p, w, PerSlab(w))) == Scale(p, 12) + Pow2(12)
  {
    hide Scale, Pow2;
    CellStarts(p, w, k);
    CellStarts(p, w, PerSlab(w));
    ScaleIsProduct(k, w);
    ScaleIsProduct(PerSlab(w), w);
    Pow2Split(12 - w, w);
    if k < PerSlab(w) {
      MulLess(k, PerSlab(w), Pow2(w));
    } else {
      MulLess(PerSlab(w), k, Pow2(w));
    }
  }

  /** The word at an object's start lies in its page. */
  lemma CellPage(p: nat, w: nat, k: nat)
    requires w <= 12 && k < PerSlab(w)
    ensures PageOf(Start(Cell(p, w, k))) == p
  {
    hide Scale, Pow2, Shift;
    CellStarts(p, w, k);
    CellsFill(p, w, k);
    ShiftInterval(Start(Cell(p, w, k)), p, 12);
  }

  /** Different objects share no byte. */
  lemma CellsDisjoint(p: nat, w: nat, k: nat, q: nat, v: nat, j: nat)
    requires w <= 12 && v <= 12 && k < PerSlab(w) && j < PerSlab(v)
    requires p != q || (w == v && k != j)
    ensures Disjoint(Cell(p, w, k), Cell(q, v, j))
  {
    if p != q {
      CellWithinPage(p, w, k);
      CellWithinPage(q, v, j);
      DisjointInside(Cell(p, w, k), Block(p, 12), Block(q, 12));
      DisjointInside(Cell(q, v, j), Block(q, 12), Cell(p, w, k));
    }
  }

  /** The addresses of `n` objects in a row, starting with `b`. */
  function Row(b: Block, n: nat): (s: seq<nat>)
    ensures |s| == n
    ensures forall j :: 0 <= j < n ==> s[j] == Scale(b.index + j, b.order)
  {
    seq<nat>(n, j requires 0 <= j => Scale(b.index + j, b.order))
  }

  /** The free list of a slab whose first `k` objects are in use. */
  function FreeCells(p: nat, w: nat, k: nat): seq<nat>
    requires w <= 12 && k <= PerSlab(w)
  {
    Row(Cell(p, w, k), PerSlab(w) - k)
  }

  // ------------------------------------------------------ slabs and objects

  /** The virtual address at which the linear map shows a physical one. */
  function Va(a: nat): nat { a + PHYS_VIRT_OFFSET }

  /** The word that should lead to object `j` of the list `s`. */
  function Thread(s: seq<nat>, j: nat): nat
  {
    if j < |s| then Va(s[j]) else 0
  }

  /** Following virtual addresses from `head` visits the objects at the physical addresses `s` and ends. */
  ghost predicate Threads(mem: Memory, s: seq<nat>, head: nat)
  {
    && head == Thread(s, 0)
    && (forall j :: 0 <= j < |s| ==> s[j] in mem && mem[s[j]] == Thread(s, j + 1))
  }

  /** The slab's free list is intact, and its length and `inuse` add up to the objects per page. */
  ghost predicate SlabOk(mem: Memory, p: nat, s: Slab)
  {
    && p > 0 && s.cache < CACHES && s.inuse <= PerSlab(Order(s.cache))
    && Threads(mem, FreeCells(p, Order(s.cache), s.inuse), s.freelist)
  }

  ghost predicate SlabsOk(mem: Memory, slabs: map<nat, Slab>)
  {
    forall p :: p in slabs ==> SlabOk(mem, p, slabs[p])
  }

  /** `b` is object `k` of slab `p`, and in use. */
  ghost predicate InUse(slabs: map<nat, Slab>, b: Block, p: nat, k: nat)
  {
    p in slabs && k < slabs[p].inuse && slabs[p].cache < CACHES && b == Cell(p, Order(slabs[p].cache), k)
  }

  /** The objects handed out so far. */
  ghost predicate Given(slabs: map<nat, Slab>, b: Block)
  {
    exists p, k :: InUse(slabs, b, p, k)
  }

  predicate Full(s: Slab) { s.freelist == 0 }

  lemma FullIsUsedUp(mem: Memory, p: nat, s: Slab)
    requires SlabOk(mem, p, s)
    ensures Full(s) <==> s.inuse == PerSlab(Order(s.cache))
    ensures !Full(s) ==> s.freelist == Va(Start(Cell(p, Order(s.cache), s.inuse)))
  {
    hide Scale, Pow2;
  }

  /** Objects in use and objects on the free list make up the page. */
  lemma SlabAccounting(mem: Memory, p: nat, s: Slab)
    requires SlabOk(mem, p, s)
    ensures s.inuse + |FreeCells(p, Order(s.cache), s.inuse)| == 4096 / Pow2(Order(s.cache))
    ensures Threads(mem, FreeCells(p, Order(s.cache), s.inuse), s.freelist)
  {
    hide Scale, Pow2;
    var w := Order(s.cache);
    Pow2Split(12 - w, w);
    Pow2Values();
    QuotientUnique(4096, Pow2(12 - w), Pow2(w));
  }

  /** No two objects in use share a byte. */
  lemma ObjectsDisjoint(mem: Memory, slabs: map<nat, Slab>, b: Block, c: Block)
    requires SlabsOk(mem, slabs) && Given(slabs, b) && Given(slabs, c) && b != c
    ensures Disjoint(b, c)
  {
    hide Scale, Pow2, Within, Disjoint;
    var p, k :| InUse(slabs, b, p, k);
    var q, j :| InUse(slabs, c, q, j);
    assert SlabOk(mem, p, slabs[p]) && SlabOk(mem, q, slabs[q]);
    CellsDisjoint(p, Order(slabs[p].cache), k, q, Order(slabs[q].cache), j);
  }

  /** Taking the head of a slab's free list leaves the rest of the list. */
  lemma TakeHead(mem: Memory, p: nat, s: Slab)
    requires SlabOk(mem, p, s) && !Full(s)
    ensures s.freelist >= PHYS_VIRT_OFFSET && s.freelist - PHYS_VIRT_OFFSET in mem
    ensures SlabOk(mem, p, s.(freelist := mem[s.freelist - PHYS_VIRT_OFFSET], inuse := s.inuse + 1))
  {
    hide Scale, Pow2;
    FullIsUsedUp(mem, p, s);
    var w := Order(s.cache);
    var l, m := FreeCells(p, w, s.inuse), FreeCells(p, w, s.inuse + 1);
    assert m == l[1..];
    assert Va(l[0]) == s.freelist;
  }

  /** The objects after one more is taken from slab `p`. */
  lemma TakeObject(mem: Memory, slabs: map<nat, Slab>, p: nat, s: Slab, b: Block)
    requires SlabsOk(mem, slabs) && p in slabs && !Full(slabs[p])
    requires s == slabs[p].(freelist := s.freelist, inuse := slabs[p].inuse + 1)
    requires b == Cell(p, Order(s.cache), slabs[p].inuse)
    ensures !Given(slabs, b)
    ensures forall x :: Given(slabs[p := s], x) <==> Given(slabs, x) || x == b
    ensures forall x :: Given(slabs, x) ==> Disjoint(x, b)
  {
    hide Scale, Pow2, Within, Disjoint;
    FullIsUsedUp(mem, p, slabs[p]);
    var t := slabs[p := s];
    forall x | Given(slabs, x)
      ensures Given(t, x) && Disjoint(x, b)
    {
      var q, k :| InUse(slabs, x, q, k);
      assert InUse(t, x, q, k);
      assert SlabOk(mem, q, slabs[q]);
      CellsDisjoint(q, Order(slabs[q].cache), k, p, Order(s.cache), slabs[p].inuse);
    }
    assert InUse(t, b, p, slabs[p].inuse);
    forall x | Given(t, x)
      ensures Given(slabs, x) || x == b
    {
      var q, k :| InUse(t, x, q, k);
      assert InUse(slabs, x, q, k) || x == b;
    }
    if Given(slabs, b) {
      NotDisjointSelf(b);
    }
  }

  lemma NotDisjointSelf(b: Block)
    ensures !Disjoint(b, b)
  {
  }

  /** A slab depends only on the first words of its free objects. */
  lemma SlabFrame(mem: Memory, mem': Memory, p: nat, s: Slab)
    requires SlabOk(mem, p, s)
    requires forall k :: s.inuse <= k < PerSlab(Order(s.cache)) ==>
               var a := Start(Cell(p, Order(s.cache), k)); a in mem ==> a in mem' && mem'[a] == mem[a]
    ensures SlabOk(mem', p, s)
  {
    hide Scale, Pow2;
    var w := Order(s.cache);
    var l := FreeCells(p, w, s.inuse);
    forall j | 0 <= j < |l|
      ensures l[j] in mem' && mem'[l[j]] == mem[l[j]]
    {
      assert l[j] == Start(Cell(p, w, s.inuse + j));
    }
  }

  /** Whatever the owners of objects in use write inside them, every free list stays intact. */
  lemma ClientsMayWrite(mem: Memory, mem': Memory, slabs: map<nat, Slab>)
    requires SlabsOk(mem, slabs)
    requires forall a: nat :: a in mem && (forall b :: Given(slabs, b) ==> !Within(Block(a, 0), b)) ==>
               a in mem' && mem'[a] == mem[a]
    ensures SlabsOk(mem', slabs)
  {
    hide Scale, Pow2, Within, Disjoint, Threads, Start, Cell;
    forall p | p in slabs
      ensures SlabOk(mem', p, slabs[p])
    {
      var s := slabs[p];
      assert SlabOk(mem, p, s);
      var w := Order(s.cache);
      forall k | s.inuse <= k < PerSlab(w)
        ensures var a := Start(Cell(p, w, k)); a in mem ==> a in mem' && mem'[a] == mem[a]
      {
        FreeStartIsUnused(mem, slabs, p, k);
      }
      SlabFrame(mem, mem', p, s);
    }
  }

  lemma FreeStartIsUnused(mem: Memory, slabs: map<nat, Slab>, p: nat, k: nat)
    requires SlabsOk(mem, slabs) && p in slabs && slabs[p].cache < CACHES
    requires slabs[p].inuse <= k < PerSlab(Order(slabs[p].cache))
    ensures forall b :: Given(slabs, b) ==> !Within(Block(Start(Cell(p, Order(slabs[p].cache), k)), 0), b)
  {
    hide Scale, Pow2, Within, Disjoint;
    var w := Order(slabs[p].cache);
    var c := Cell(p, w, k);
    FirstPageWithin(c);
    forall b | Given(slabs, b)
      ensures !Within(Page(Start(c)), b)
    {
      var q, j :| InUse(slabs, b, q, j);
      assert SlabOk(mem, q, slabs[q]);
      CellsDisjoint(q, Order(slabs[q].cache), j, p, w, k);
      if Within(Page(Start(c)), b) {
        SharedPage(Start(c), b, c);
      }
    }
  }

  /** Slabs depend only on the words in their own pages. */
  lemma SlabsElsewhere(mem: Memory, mem': Memory, slabs: map<nat, Slab>, f: set<Block>)
    requires SlabsOk(mem, slabs) && KeptOutside(mem, mem', f)
    requires forall p :: p in slabs ==> !Covers(f, p)
    ensures SlabsOk(mem', slabs)
  {
    hide Scale, Pow2, Shift, Covers, Threads, Start, Cell;
    forall p | p in slabs
      ensures SlabOk(mem', p, slabs[p])
    {
      var s := slabs[p];
      assert SlabOk(mem, p, s);
      var w := Order(s.cache);
      forall k | s.inuse <= k < PerSlab(w)
        ensures var a := Start(Cell(p, w, k)); a in mem ==> a in mem' && mem'[a] == mem[a]
      {
        CellPage(p, w, k);
      }
      SlabFrame(mem, mem', p, s);
    }
  }

  // ---------------------------------------------------------------- carving

  /** The word that a carved page holds at the start of object `j`. */
  function NextCell(p: nat, w: nat, j: nat): nat
    requires w <= 12
  {
    if j + 1 < PerSlab(w) then Va(Start(Cell(p, w, j + 1))) else 0
  }

  ghost predicate CarvedTo(mem: Memory, p: nat, w: nat, k: nat)
    requires w <= 12
  {
    forall j: nat :: j < k ==> var a := Start(Cell(p, w, j)); a in mem && mem[a] == NextCell(p, w, j)
  }

  lemma CellOrder(p: nat, w: nat, j: nat, k: nat)
    requires w <= 12 && j < k
    ensures Start(Cell(p, w, j)) < Start(Cell(p, w, k))
  {
    hide Scale, Pow2;
    CellStarts(p, w, j);
    CellStarts(p, w, k);
    ScaleIsProduct(j, w);
    ScaleIsProduct(k, w);
    MulLess(j, k, Pow2(w));
  }

  lemma CarveStep(mem: Memory, mem0: Memory, p: nat, w: nat, k: nat)
    requires w <= 12 && k < PerSlab(w) && CarvedTo(mem, p, w, k) && KeptOutside(mem0, mem, {Page(p)})
    ensures var mem' := mem[Start(Cell(p, w, k)) := NextCell(p, w, k)];
      CarvedTo(mem', p, w, k + 1) && KeptOutside(mem0, mem', {Page(p)})
  {
    hide Scale, Pow2, Start, NextCell, PerSlab, Cell, Covers, PageOf;
    forall j: nat | j < k
      ensures Start(Cell(p, w, j)) != Start(Cell(p, w, k))
    {
      CellOrder(p, w, j, k);
    }
    CellPage(p, w, k);
    PageCovers(p);
  }

  lemma PageCovers(p: nat)
    ensures Covers({Page(p)}, p)
  {
    assert Within(Page(p), Page(p));
  }

  lemma CarvedThreads(mem: Memory, p: nat, w: nat)
    requires w <= 12 && CarvedTo(mem, p, w, PerSlab(w))
    ensures Threads(mem, FreeCells(p, w, 0), Va(Scale(p, 12)))
  {
    hide Scale, Pow2;
    var l := FreeCells(p, w, 0);
    CellStarts(p, w, 0);
    ScaleZero(w);
    forall j | 0 <= j < |l|
      ensures l[j] in mem && mem[l[j]] == Thread(l, j + 1)
    {
      assert l[j] == Start(Cell(p, w, j));
      assert j + 1 < |l| ==> l[j + 1] == Start(Cell(p, w, j + 1));
    }
  }

  // -------------------------------------------------------------- the caches

  /** What the fields of cache `i` say, also in the middle of a call. */
  ghost predicate Linked(c: Cache, i: nat, slabs: map<nat, Slab>)
  {
    && c.objectSize == Pow2(Order(i))
    && (c.active.Some? ==> c.active.value in slabs && slabs[c.active.value].cache == i)
    && (c.partial.Some? ==>
          c.partial.value in slabs && slabs[c.partial.value].cache == i && !slabs[c.partial.value].hasNext)
    && (c.active.Some? && c.partial.Some? ==> c.active == c.partial)
    && (forall p :: p in slabs && slabs[p].cache == i && !Full(slabs[p]) ==>
          c.active == Some(p) && c.partial == Some(p))
  }

  function FreshSlab(p: nat, i: nat, head: Option<nat>): Slab
  {
    Slab(Va(Scale(p, 12)), 0, i, head.Some?, if head.Some? then head.value else 0)
  }

  lemma FreshSlabOk(mem: Memory, slabs: map<nat, Slab>, p: nat, i: nat, head: Option<nat>)
    requires SlabsOk(mem, slabs) && p > 0 && i < CACHES
    requires Threads(mem, FreeCells(p, Order(i), 0), Va(Scale(p, 12)))
    ensures SlabsOk(mem, slabs[p := FreshSlab(p, i, head)])
  {
    hide Scale, Pow2, Threads, FreeCells;
  }

  lemma RunOfPage(p: nat)
    ensures RunAt(p, 0) == Some(Page(p))
  {
  }

  ghost predicate AllLinked(caches: seq<Cache>, slabs: map<nat, Slab>)
  {
    |caches| == CACHES && forall i :: 0 <= i < CACHES ==> Linked(caches[i], i, slabs)
  }

  lemma LinkedSize(caches: seq<Cache>, slabs: map<nat, Slab>, i: nat)
    requires AllLinked(caches, slabs) && i < CACHES
    ensures caches[i].objectSize == Pow2(Order(i))
  {
  }

  /** Each cache has one slab that is both active and partial, or none. */
  predicate AtRest(caches: seq<Cache>)
  {
    forall i :: 0 <= i < |caches| ==> caches[i].active == caches[i].partial
  }

  /** Some slab of cache `i` has a free object. */
  ghost predicate HasSpare(slabs: map<nat, Slab>, i: int)
  {
    exists p :: p in slabs && slabs[p].cache == i && !Full(slabs[p])
  }

  /** One step of the search: the fields of a cache while no slab of it has a free object. */
  lemma SearchStep(caches: seq<Cache>, slabs: map<nat, Slab>, i: nat, c: Cache)
    requires AllLinked(caches, slabs) && i < CACHES && !HasSpare(slabs, i)
    requires c.objectSize == caches[i].objectSize
    requires c.active.None? || c.active == caches[i].active || c.active == caches[i].partial
    requires c.partial.None? || (c.partial == caches[i].partial && c.active.None?)
    ensures AllLinked(caches[i := c], slabs)
  {
    hide Pow2;
    assert Linked(caches[i], i, slabs);
    forall p | p in slabs && slabs[p].cache == i
      ensures Full(slabs[p])
    {
    }
  }

  /** A fresh slab that is both active and partial. */
  lemma FreshLinked(caches: seq<Cache>, slabs: map<nat, Slab>, i: nat, p: nat, s: Slab)
    requires AllLinked(caches, slabs) && i < CACHES && !HasSpare(slabs, i)
    requires p !in slabs && s.cache == i && !s.hasNext
    ensures AllLinked(caches[i := caches[i].(active := Some(p), partial := Some(p))], slabs[p := s])
  {
    hide Pow2;
    var t, c := slabs[p := s], caches[i].(active := Some(p), partial := Some(p));
    var d := caches[i := c];
    forall j | 0 <= j < CACHES
      ensures Linked(d[j], j, t)
    {
      assert Linked(caches[j], j, slabs);
      forall q | q in t && t[q].cache == j && !Full(t[q])
        ensures d[j].active == Some(q) && d[j].partial == Some(q)
      {
        assert q != p ==> q in slabs && slabs[q] == t[q];
      }
    }
  }

  /** Taking an object from the active slab. */
  lemma TakeLinked(caches: seq<Cache>, slabs: map<nat, Slab>, i: nat, p: nat, s: Slab)
    requires AllLinked(caches, slabs) && i < CACHES && p in slabs && slabs[p].cache == i && !Full(slabs[p])
    requires s == slabs[p].(freelist := s.freelist, inuse := s.inuse)
    ensures AllLinked(caches, slabs[p := s])
  {
    hide Pow2;
    var t := slabs[p := s];
    forall j | 0 <= j < CACHES
      ensures Linked(caches[j], j, t)
    {
      assert Linked(caches[j], j, slabs);
      forall q | q in t && t[q].cache == j && !Full(t[q])
        ensures caches[j].active == Some(q) && caches[j].partial == Some(q)
      {
        assert q in slabs && slabs[q].cache == j && !Full(slabs[q]);
      }
    }
  }

  /** How far the search of cache `c` still is from an object or from failing. */
  ghost function Rank(c: Cache, slabs: map<nat, Slab>): nat
  {
    if c.active.Some? && c.partial.Some? then
      if c.active.value in slabs && !Full(slabs[c.active.value]) then 0 else 4
    else if c.partial.Some? then 3
    else if c.active.Some? then 2
    else 1
  }

  ghost predicate NoPage(free: set<Block>)
  {
    forall b: Block :: b.order == 0 ==> !AllCovered(free, b)
  }

  lemma OnePage()
    ensures B.PagesToOrder(1) == 0
  {
    B.PagesToOrderIsLeast(1, 0);
  }

  lemma AddSlab(slabs: map<nat, Slab>, p: nat, s: Slab)
    requires p !in slabs && s.inuse == 0
    ensures forall x :: Given(slabs[p := s], x) <==> Given(slabs, x)
  {
    hide Cell;
    forall x
      ensures Given(slabs[p := s], x) <==> Given(slabs, x)
    {
      if Given(slabs[p := s], x) {
        var q, k :| InUse(slabs[p := s], x, q, k);
        assert InUse(slabs, x, q, k);
      }
      if Given(slabs, x) {
        var q, k :| InUse(slabs, x, q, k);
        assert InUse(slabs[p := s], x, q, k);
      }
    }
  }

  lemma OutIsNotFree(s: B.BuddyState, p: nat)
    requires B.Inv(s) && Page(p) in s.out
    ensures !Covers(s.free, p) && p > 0
  {
    assert DisjointFrom(s.free, Page(p));
  }

  lemma SlabsAreNotFree(s: B.BuddyState, slabs: map<nat, Slab>)
    requires B.Inv(s) && forall p :: p in slabs ==> Page(p) in s.out
    ensures forall p :: p in slabs ==> !Covers(s.free, p)
  {
    forall p | p in slabs
      ensures !Covers(s.free, p)
    {
      OutIsNotFree(s, p);
    }
  }

  /** Carving a page that was free leaves the other slabs alone. */
  lemma CarvedKeeps(m0: Memory, m1: Memory, m2: Memory, f: set<Block>, p: nat, slabs: map<nat, Slab>)
    requires KeptOutside(m0, m1, f) && KeptOutside(m1, m2, {Page(p)}) && Covers(f, p)
    requires SlabsOk(m1, slabs) && p !in slabs
    ensures KeptOutside(m0, m2, f) && SlabsOk(m2, slabs)
  {
    hide KeptOutside, SlabsOk;
    forall q: nat | Covers({Page(p)}, q)
      ensures q == p && Covers(f, q)
    {
      OnlyItself(q, p);
    }
    KeptTransitive(m0, m1, m2, f, {Page(p)});
    SlabsElsewhere(m1, m2, slabs, {Page(p)});
  }

  lemma FailureKeeps(s: B.BuddyState, t: B.BuddyState)
    requires B.Step(s, B.Call.Alloc(1, None), t)
    ensures t == s
  {
  }

  /** What a page from the buddy allocator is. */
  lemma PageResult(s: B.BuddyState, p: nat, t: B.BuddyState)
    requires B.Inv(s) && B.Inv(t) && RunAt(p, 0) == Some(Page(p))
    requires B.Step(s, B.Call.Alloc(1, RunAt(p, 0)), t)
    ensures p > 0 && Page(p) !in s.out && t.out == s.out + {Page(p)} && Covers(s.free, p) && AllCovered(s.free, Page(p))
  {
    B.AllocResult(s, 1, Page(p), t);
    assert Within(Page(p), Page(p));
    assert Page(p) in t.out;
    if Page(p) in s.out { NotDisjointSelf(Page(p)); }
  }

  lemma FirstCell(p: nat, w: nat)
    requires w <= 12
    ensures Start(Cell(p, w, 0)) == Scale(p, 12) && PerSlab(w) > 0
    ensures forall mem: Memory :: CarvedTo(mem, p, w, 0)
  {
    hide Scale;
    CellStarts(p, w, 0);
    ScaleZero(w);
  }

  lemma KeptForOthers(mem: Memory, mem': Memory, free: set<Block>, p: nat)
    requires KeptOutside(mem, mem', {Page(p)}) && !Covers(free, p)
    ensures forall a :: a in mem && Covers(free, PageOf(a)) ==> a in mem' && mem'[a] == mem[a]
  {
    hide Shift;
    forall a | a in mem && Covers(free, PageOf(a))
      ensures a in mem' && mem'[a] == mem[a]
    {
      if Covers({Page(p)}, PageOf(a)) {
        OnlyItself(PageOf(a), p);
      }
    }
  }

  lemma OnlyItself(q: nat, p: nat)
    requires Covers({Page(p)}, q)
    ensures q == p
  {
  }

  /** What the search may rely on in cache `i`. */
  lemma LinkedFacts(caches: seq<Cache>, slabs: map<nat, Slab>, i: nat)
    requires AllLinked(caches, slabs) && i < CACHES
    ensures var c := caches[i];
      && (c.active.Some? ==> c.active.value in slabs && slabs[c.active.value].cache == i)
      && (c.partial.Some? ==> c.partial.value in slabs && !slabs[c.partial.value].hasNext)
      && (HasSpare(slabs, i) <==>
            c.active.Some? && c.partial == c.active && !Full(slabs[c.active.value]))
      && (c.active.Some? && !Full(slabs[c.active.value]) ==> c.partial == c.active)
  {
    hide Pow2;
    assert Linked(caches[i], i, slabs);
  }

  /** `r` is the address of an object of order `w` that is new, and apart from all earlier ones. */
  ghost predicate NewObject(before: map<nat, Slab>, after: map<nat, Slab>, r: nat, w: nat)
  {
    && r >= PHYS_VIRT_OFFSET
    && var b := Block(Shift(r - PHYS_VIRT_OFFSET, w), w);
    && Va(Start(b)) == r && !Given(before, b)
    && (forall x :: Given(before, x) ==> Disjoint(x, b))
    && (forall x :: Given(after, x) <==> Given(before, x) || x == b)
  }

  lemma NewObjectOf(mem: Memory, before: map<nat, Slab>, slabs: map<nat, Slab>, p: nat, s: Slab)
    requires SlabsOk(mem, slabs) && p in slabs && !Full(slabs[p])
    requires s == slabs[p].(freelist := s.freelist, inuse := slabs[p].inuse + 1)
    requires forall x :: Given(slabs, x) <==> Given(before, x)
    ensures var a := slabs[p].freelist - PHYS_VIRT_OFFSET;
      a >= 0 && a in mem && (s.freelist == mem[a] ==> SlabsOk(mem, slabs[p := s]))
    ensures NewObject(before, slabs[p := s], slabs[p].freelist, Order(s.cache))
  {
    hide Scale, Pow2, Shift, Given, Disjoint, Within, Threads, FreeCells;
    TakeHead(mem, p, slabs[p]);
    FullIsUsedUp(mem, p, slabs[p]);
    var b := Cell(p, Order(s.cache), slabs[p].inuse);
    TakeObject(mem, slabs, p, s, b);
    ShiftScale(b.index, b.order);
  }

  /** The start of an object is aligned to every power of two up to its size. */
  lemma ObjectAligned(index: nat, w: nat, align: nat)
    requires IsPowerOfTwo(align) && align <= Pow2(w)
    ensures Aligned(Scale(index, w), align)
  {
    hide Scale, Pow2, TrailingZeros;
    var k := TrailingZeros(align);
    if k > w {
      Pow2Monotone(w, k);
    } else {
      ScaleScale(index, w - k, k);
      ScaleIsProduct(Scale(index, w - k), k);
      MultipleAligned(Scale(index, w - k), align);
    }
  }

  /** So is the virtual address at which it appears. */
  lemma VaAligned(index: nat, w: nat, align: nat)
    requires IsPowerOfTwo(align) && align <= Pow2(w) && w <= 11
    ensures Aligned(Va(Scale(index, w)), align)
  {
    SmallPowers();
    hide Scale, Pow2, TrailingZeros;
    Pow2Monotone(w, 11);
    ObjectAligned(index, w, align);
    ObjectAligned(PHYS_VIRT_OFFSET / 2048, 11, align);
    ScaleIsProduct(PHYS_VIRT_OFFSET / 2048, 11);
    SumAligned(Scale(index, w), PHYS_VIRT_OFFSET, align);
  }

  lemma SumAligned(a: nat, b: nat, align: nat)
    requires align > 0 && Aligned(a, align) && Aligned(b, align)
    ensures Aligned(a + b, align)
  {
    var p, q := a / align, b / align;
    assert a == p * align && b == q * align;
    assert a + b == (p + q) * align;
    MultipleAligned(p + q, align);
  }

  lemma MultipleAligned(q: nat, align: nat)
    requires align > 0
    ensures Aligned(q * align, align)
  {
    QuotientUnique(q * align, q, align);
  }

  class SlubAllocator {
    const frames: BuddySystemFrameAllocator
    /** The page states of the pages that are slabs. */
    var slabs: map<nat, Slab>
    var caches: seq<Cache>

    /** Every slab is a page held by this allocator, with its free list intact. */
    ghost predicate Backed()
      reads this, frames, frames.heads
    {
      && frames.Ready()
      && SlabsOk(frames.mem, slabs)
      && (forall p :: p in slabs ==> Page(p) in frames.out)
    }

    ghost predicate Coherent()
      reads this, frames, frames.heads
    {
      Backed() && AllLinked(caches, slabs)
    }

    ghost predicate Valid()
      reads this, frames, frames.heads
    {
      Coherent() && AtRest(caches)
    }

    constructor (frames: BuddySystemFrameAllocator)
      requires frames.Ready()
      ensures Valid() && this.frames == frames && slabs == map[]
    {
      this.frames := frames;
      slabs := map[];
      caches := seq(CACHES, i requires 0 <= i < CACHES =>
        (CacheSizes(i); Cache(ObjectSize(Pow2(Order(i))), None, None)));
      new;
      forall i | 0 <= i < CACHES
        ensures Linked(caches[i], i, slabs)
      {
        CacheSizes(i);
      }
    }

    /** Links the objects of a page that this allocator holds. */
    method Carve(ppn: nat, i: nat, objectSize: nat)
      requires frames.Ready() && Page(ppn) in frames.out && i < CACHES && objectSize == Pow2(Order(i))
      modifies frames`mem
      ensures frames.Ready()
      ensures Threads(frames.mem, FreeCells(ppn, Order(i), 0), Va(Scale(ppn, 12)))
      ensures KeptOutside(old(frames.mem), frames.mem, {Page(ppn)})
    {
      hide Scale, Pow2, Shift, Threads, Represents, Enumerates, KeptOutside, CarvedTo, Start, Cell, B.Inv, Covers,
            PerSlab;
      var start := Va(Scale(ppn, PAGE_SIZE_BITS));
      var va := start;
      var end := va + 4096;
      ghost var w, k := Order(i), 0;
      Pow2Values();
      FirstCell(ppn, w);
      KeptReflexive(frames.mem, {Page(ppn)});
      while va < end
        invariant k <= PerSlab(w) && va == Va(Start(Cell(ppn, w, k))) && (va < end <==> k < PerSlab(w))
        invariant CarvedTo(frames.mem, ppn, w, k)
        invariant KeptOutside(old(frames.mem), frames.mem, {Page(ppn)})
        decreases end - va
      {
        var nextVa := va + objectSize;
        CellStarts(ppn, w, k);
        CellsFill(ppn, w, k);
        CellsFill(ppn, w, k + 1);
        CarveStep(frames.mem, old(frames.mem), ppn, w, k);
        frames.mem := frames.mem[va - PHYS_VIRT_OFFSET := if nextVa < end then nextVa else 0];
        va, k := va + objectSize, k + 1;
      }
      CarvedThreads(frames.mem, ppn, w);
      OutIsNotFree(frames.State(), ppn);
      KeptForOthers(old(frames.mem), frames.mem, frames.free, ppn);
      OwnersMayWrite(frames.heads[..], old(frames.mem), frames.mem, frames.lists, frames.free);
    }

    /** A carved page from the buddy allocator, put at the head of the cache's partial list. */
    method AllocNewSlab(i: nat) returns (r: Option<nat>)
      requires Coherent() && i < CACHES
      modifies this, frames, frames.heads
      ensures Backed()
      ensures r.None? <==> NoPage(old(frames.free))
      ensures r.None? ==> slabs == old(slabs) && caches == old(caches) && frames.State() == old(frames.State())
      ensures r.Some? ==>
                && r.value !in old(slabs)
                && slabs == old(slabs)[r.value := FreshSlab(r.value, i, old(caches[i].partial))]
                && caches == old(caches)[i := old(caches[i]).(partial := r)]
                && frames.out == old(frames.out) + {Page(r.value)}
      ensures KeptOutside(old(frames.mem), frames.mem, old(frames.free))
    {
      hide Scale, Pow2, Shift, Threads, KeptOutside, Covers, AllCovered, FreeCells, Linked, SlabsOk, RunAt;
      hide Represents, Enumerates, Managed, PairwiseDisjoint, B.Inv, B.Step;
      ghost var before, mem0 := frames.State(), frames.mem;
      OnePage();
      SlabsAreNotFree(before, slabs);
      r := frames.Alloc(1);
      SlabsElsewhere(mem0, frames.mem, slabs, before.free);
      if r.None? {
        FailureKeeps(before, frames.State());
        return None;
      }
      var ppn := r.value;
      ghost var mem1 := frames.mem;
      RunOfPage(ppn);
      PageResult(before, ppn, frames.State());
      LinkedSize(caches, slabs, i);
      Carve(ppn, i, caches[i].objectSize);
      CarvedKeeps(mem0, mem1, frames.mem, before.free, ppn, slabs);
      var head := caches[i].partial;
      var (hasNext, nextPartial) := if head.Some? then (true, head.value) else (false, 0);
      FreshSlabOk(frames.mem, slabs, ppn, i, head);
      slabs := slabs[ppn := Slab(Va(Scale(ppn, PAGE_SIZE_BITS)), 0, i, hasNext, nextPartial)];
      caches := caches[i := caches[i].(partial := Some(ppn))];
    }

    /** Takes the first free object of the active slab. */
    method TakeActive(i: nat, ghost before: map<nat, Slab>) returns (r: nat)
      requires Coherent() && i < CACHES && caches[i].active.Some?
      requires caches[i].active.value in slabs && slabs[caches[i].active.value].cache == i
      requires !Full(slabs[caches[i].active.value])
      requires forall x :: Given(slabs, x) <==> Given(before, x)
      modifies this`slabs
      ensures Coherent() && r > 0 && NewObject(before, slabs, r, Order(i))
    {
      hide Scale, Pow2, Shift, Linked, SlabsOk, Given, NewObject, Represents, Enumerates, B.Inv;
      var p := caches[i].active.value;
      var s := slabs[p];
      r := s.freelist;
      NewObjectOf(frames.mem, before, slabs, p, s.(freelist := 0, inuse := s.inuse + 1));
      var next := frames.mem[r - PHYS_VIRT_OFFSET];
      NewObjectOf(frames.mem, before, slabs, p, s.(freelist := next, inuse := s.inuse + 1));
      TakeLinked(caches, slabs, i, p, s.(freelist := next, inuse := s.inuse + 1));
      slabs := slabs[p := s.(freelist := next, inuse := s.inuse + 1)];
    }

    /** An object of cache `i`, or 0 when every slab of the cache is full and no page is free. */
    method CacheAlloc(i: nat) returns (r: nat)
      requires Valid() && i < CACHES
      modifies this, frames, frames.heads
      ensures Valid() && old(frames.out) <= frames.out
      ensures r == 0 <==> !HasSpare(old(slabs), i) && NoPage(old(frames.free))
      ensures r == 0 ==> slabs == old(slabs)
      ensures r != 0 ==> NewObject(old(slabs), slabs, r, Order(i))
      ensures KeptOutside(old(frames.mem), frames.mem, old(frames.free))
    {
      hide Scale, Pow2, Shift, KeptOutside, Linked, SlabsOk, Given, NewObject, NoPage, HasSpare;
      hide Represents, Enumerates, Managed, PairwiseDisjoint, B.Inv;
      KeptReflexive(frames.mem, frames.free);
      while true
        invariant Coherent() && old(frames.out) <= frames.out
        invariant forall j :: 0 <= j < CACHES && j != i ==> caches[j] == old(caches[j])
        invariant forall x :: Given(slabs, x) <==> Given(old(slabs), x)
        invariant KeptOutside(old(frames.mem), frames.mem, old(frames.free))
        invariant
          || (slabs == old(slabs) && frames.State() == old(frames.State()) && frames.mem == old(frames.mem) &&
              (caches == old(caches) || !HasSpare(slabs, i)))
          || (Rank(caches[i], slabs) == 0 && !NoPage(old(frames.free)))
        decreases Rank(caches[i], slabs)
      {
        var c := caches[i];
        LinkedFacts(caches, slabs, i);
        if c.active.Some? {
          var s := slabs[c.active.value];
          if s.freelist == 0 {
            SearchStep(caches, slabs, i, c.(active := None));
            caches := caches[i := c.(active := None)];
            continue;
          }
          r := TakeActive(i, old(slabs));
          return;
        } else if c.partial.Some? {
          var head := c.partial.value;
          var s := slabs[head];
          var partial := if s.hasNext then Some(s.nextPartial) else None;
          SearchStep(caches, slabs, i, c.(active := Some(head), partial := None));
          caches := caches[i := c.(active := Some(head), partial := partial)];
        } else {
          ghost var caches0, slabs0 := caches, slabs;
          var p := AllocNewSlab(i);
          if p.None? {
            return 0;
          }
          FreshLinked(caches0, slabs0, i, p.value, slabs[p.value]);
          AddSlab(slabs0, p.value, slabs[p.value]);
          caches := caches[i := caches[i].(active := p)];
          assert caches == caches0[i := caches0[i].(active := p, partial := p)];
        }
      }
    }

    /**
     A layout is served by the cache of its size class, with an object that is large enough,
     aligned, and apart from every object handed out before.
     */
    method Alloc(size: nat, align: nat) returns (r: nat)
      requires Valid() && IsPowerOfTwo(align) && ActualSize(size, align) <= 2048
      modifies this, frames, frames.heads
      ensures Valid() && old(frames.out) <= frames.out
      ensures var w := TrailingZeros(ActualSize(size, align));
        && 3 <= w <= 11 && size <= Pow2(w) && align <= Pow2(w)
        && (forall k: nat :: 3 <= k && size <= Pow2(k) && align <= Pow2(k) ==> w <= k)
        && (r == 0 <==> !HasSpare(old(slabs), w - 3) && NoPage(old(frames.free)))
        && (r == 0 ==> slabs == old(slabs))
        && (r != 0 ==> Aligned(r, align) && NewObject(old(slabs), slabs, r, w))
      ensures KeptOutside(old(frames.mem), frames.mem, old(frames.free))
    {
      hide Scale, Pow2, Shift, KeptOutside, Coherent, Given, NoPage, HasSpare, TrailingZeros, ActualSize;
      var actual := ActualSize(size, align);
      Routing(size, align);
      var index := TrailingZeros(actual) - 3;
      r := CacheAlloc(index);
      if r != 0 {
        VaAligned(Shift(r - PHYS_VIRT_OFFSET, TrailingZeros(actual)), TrailingZeros(actual), align);
      }
    }
  }
}
