/**
 What the buddy allocator does to its set of free blocks, and what that means over runs:
 the normal form, conservation of pages, completeness of allocation, and independence
 from the order of frees.
 */
module BuddySpec {
  import opened Bits
  import opened Blocks

  /** The order of the smallest power of two that holds `pages` pages. */
  function PagesToOrder(pages: nat): (k: nat)
    requires pages > 0
    ensures pages <= Pow2(k) < 2 * pages
  {
    TrailingZeros(NextPowerOfTwo(pages))
  }

  /** The order computed is the least one whose blocks hold the request. */
  lemma PagesToOrderIsLeast(pages: nat, j: nat)
    requires pages > 0
    ensures pages <= Pow2(j) <==> PagesToOrder(pages) <= j
  {
    if j < PagesToOrder(pages) {
      Pow2Monotone(j, PagesToOrder(pages));
    } else {
      Pow2Monotone(PagesToOrder(pages), j);
    }
  }

  /** The upward search stops at the least inhabited order that is large enough. */
  ghost predicate FirstFit(free: set<Block>, k: nat, c: Block)
  {
    c in free && k <= c.order && forall d :: d in free && k <= d.order ==> c.order <= d.order
  }

  /** Halving `c` down to order `k`: every right half goes back to the free set. */
  function Carve(free: set<Block>, c: Block, k: nat): set<Block>
    requires k <= c.order
    decreases c.order
  {
    if c.order == k then free else Carve(free + {Right(c)}, Left(c), k)
  }

  /** The block of order `k` at the start of `c`. */
  function Leftmost(c: Block, k: nat): (b: Block)
    requires k <= c.order
    ensures b.order == k && Within(b, c) && FirstPage(b) == FirstPage(c)
    decreases c.order
  {
    if c.order == k then c
    else
      Halves(c);
      var b := Leftmost(Left(c), k);
      WithinTransitive(b, Left(c), c);
      b
  }

  /** Freeing `b`: it joins with its buddy while that is free, up to the top order. */
  function Coalesce(free: set<Block>, b: Block): set<Block>
    decreases MAX_ORDER - b.order
  {
    if b.order < MAX_ORDER - 1 && Buddy(b) in free
    then Coalesce(free - {Buddy(b)}, Parent(b))
    else free + {b}
  }

  // ------------------------------------------------- one call of each kind

  /** Adding a disjoint block whose buddy is not free keeps the normal form. */
  lemma AddKeepsCanonical(f: set<Block>, b: Block)
    requires Canonical(f) && DisjointFrom(f, b) && b.order < MAX_ORDER && b.index > 0
    requires b.order < MAX_ORDER - 1 ==> Buddy(b) !in f
    ensures Canonical(f + {b})
  {
    WithinParent(b);
    forall c | c in f + {b} && c.order < MAX_ORDER - 1
      ensures Buddy(c) !in f + {b}
    {
      WithinParent(c);
    }
  }

  lemma SplitPages(f: set<Block>, c: Block)
    requires c.order > 0
    ensures SamePages(f + {c}, f + {Right(c)} + {Left(c)})
  {
    Halves(c);
    forall p: nat
      ensures Covers(f + {c}, p) <==> Covers(f + {Right(c)} + {Left(c)}, p)
    {
      if Covers(f + {c}, p) {
        var b :| b in f + {c} && Within(Page(p), b);
        if b == c {
          WithinHalf(Page(p), c);
          assert Left(c) in f + {Right(c)} + {Left(c)} && Right(c) in f + {Right(c)} + {Left(c)};
        } else {
          assert b in f + {Right(c)} + {Left(c)};
        }
      }
      if Covers(f + {Right(c)} + {Left(c)}, p) {
        var b :| b in f + {Right(c)} + {Left(c)} && Within(Page(p), b);
        if b == Left(c) || b == Right(c) {
          WithinTransitive(Page(p), b, c);
          assert c in f + {c};
        } else {
          assert b in f + {c};
        }
      }
    }
  }

  /** Splitting keeps the normal form, loses no page, and leaves the result unshared. */
  lemma {:induction false} CarveKeeps(f: set<Block>, c: Block, k: nat)
    requires Canonical(f) && DisjointFrom(f, c) && k <= c.order < MAX_ORDER && c.index > 0
    ensures Canonical(Carve(f, c, k))
    ensures DisjointFrom(Carve(f, c, k), Leftmost(c, k))
    ensures SamePages(Carve(f, c, k) + {Leftmost(c, k)}, f + {c})
    decreases c.order
  {
    if c.order > k {
      Halves(c);
      forall d | d in f
        ensures Disjoint(d, Left(c)) && Disjoint(d, Right(c))
      {
        DisjointInside(Left(c), c, d);
        DisjointInside(Right(c), c, d);
      }
      AddKeepsCanonical(f, Right(c));
      CarveKeeps(f + {Right(c)}, Left(c), k);
      SplitPages(f, c);
    }
  }

  lemma MergePages(f: set<Block>, b: Block)
    requires Buddy(b) in f
    ensures SamePages(f + {b}, f - {Buddy(b)} + {Parent(b)})
  {
    WithinParent(b);
    var g := f - {Buddy(b)};
    SplitPages(g, Parent(b));
    assert {b, Buddy(b)} == {Left(Parent(b)), Right(Parent(b))};
    assert g + {Right(Parent(b))} + {Left(Parent(b))} == f + {b};
  }

  /** Freeing keeps the normal form and adds exactly the pages of the block. */
  lemma {:induction false} CoalesceKeeps(f: set<Block>, b: Block)
    requires Canonical(f) && DisjointFrom(f, b) && b.order < MAX_ORDER && b.index > 0
    ensures Canonical(Coalesce(f, b))
    ensures SamePages(Coalesce(f, b), f + {b})
    decreases MAX_ORDER - b.order
  {
    if b.order < MAX_ORDER - 1 && Buddy(b) in f {
      JoinedIsDisjoint(f, b);
      CoalesceKeeps(f - {Buddy(b)}, Parent(b));
      MergePages(f, b);
    } else {
      AddKeepsCanonical(f, b);
    }
  }

  /** Once its buddy is taken off the list, the joined block overlaps no free block. */
  lemma JoinedIsDisjoint(f: set<Block>, b: Block)
    requires PairwiseDisjoint(f) && Managed(f) && DisjointFrom(f, b) && Buddy(b) in f && b.index > 0
    ensures DisjointFrom(f - {Buddy(b)}, Parent(b)) && Parent(b).index > 0
  {
    WithinParent(b);
    forall c | c in f - {Buddy(b)}
      ensures Disjoint(c, Parent(b))
    {
      if Within(Parent(b), c) {
        WithinTransitive(b, Parent(b), c);
      } else if Within(c, Parent(b)) {
        assert {b, Buddy(b)} == {Left(Parent(b)), Right(Parent(b))};
        WithinHalf(c, Parent(b));
      }
    }
  }

  /** Taking a block off the free set removes exactly its pages. */
  lemma TakeOut(f: set<Block>, c: Block)
    requires Canonical(f) && c in f
    ensures Canonical(f - {c}) && DisjointFrom(f - {c}, c)
    ensures f - {c} + {c} == f
  {
  }

  /** Some order is inhabited from `k` upwards exactly when a run of order `k` is wholly free. */
  lemma SearchIsComplete(free: set<Block>, k: nat)
    requires Canonical(free)
    ensures (exists c :: c in free && k <= c.order)
       <==> k < MAX_ORDER && exists b: Block :: b.order == k && AllCovered(free, b)
  {
    if c :| c in free && k <= c.order {
      ContainedIsCovered(free, Leftmost(c, k), c);
    }
    if k < MAX_ORDER {
      if b: Block :| b.order == k && AllCovered(free, b) {
        var c := RunIsInOneBlock(free, b);
      }
    }
  }

  // -------------------------------------------------------------------- runs

  /** The free blocks and the blocks handed out and not yet returned. */
  datatype BuddyState = BuddyState(free: set<Block>, out: set<Block>)

  datatype Call =
    | Alloc(pages: nat, result: Option<Block>)
    | Dealloc(block: Block)

  ghost predicate Step(s: BuddyState, call: Call, t: BuddyState)
  {
    match call
    case Alloc(n, None) =>
      n > 0 && t == s && forall c :: c in s.free ==> c.order < PagesToOrder(n)
    case Alloc(n, Some(b)) =>
      n > 0 && exists c :: FirstFit(s.free, PagesToOrder(n), c) && AllocFrom(s, c, PagesToOrder(n), b, t)
    case Dealloc(b) =>
      b in s.out && t == BuddyState(Coalesce(s.free, b), s.out - {b})
  }

  ghost predicate AllocFrom(s: BuddyState, c: Block, k: nat, b: Block, t: BuddyState)
    requires k <= c.order
  {
    b == Leftmost(c, k) && t == BuddyState(Carve(s.free - {c}, c, k), s.out + {b})
  }

  /** Free blocks in normal form; no two blocks, free or handed out, share a page. */
  ghost predicate Inv(s: BuddyState)
  {
    && Canonical(s.free)
    && Managed(s.out) && PairwiseDisjoint(s.out)
    && forall b :: b in s.out ==> DisjointFrom(s.free, b)
  }

  ghost predicate Run(states: seq<BuddyState>, calls: seq<Call>)
  {
    && |states| == |calls| + 1
    && forall i :: 0 <= i < |calls| ==> Step(states[i], calls[i], states[i + 1])
  }

  /** A block of the outstanding set shares no page with a free set covering less. */
  lemma StillDisjoint(f: set<Block>, g: set<Block>, b: Block)
    requires DisjointFrom(f, b)
    requires forall p: nat :: Covers(g, p) ==> Covers(f, p)
    ensures DisjointFrom(g, b)
  {
    forall p: nat | Within(Page(p), b)
      ensures !Covers(g, p)
    {
      DisjointCovers(f, b, p);
    }
    UncoveredDisjoint(g, b);
  }

  lemma AllocKeeps(s: BuddyState, c: Block, k: nat, b: Block, t: BuddyState)
    requires Inv(s) && c in s.free && k <= c.order && AllocFrom(s, c, k, b, t)
    ensures Inv(t) && SamePages(s.free + s.out, t.free + t.out)
    ensures AllCovered(s.free, b) && b !in s.out
  {
    TakeOut(s.free, c);
    CarveKeeps(s.free - {c}, c, k);
    ContainedIsCovered(s.free, b, c);
    CoverUnion(t.free, {b});
    CoverUnion(s.free, s.out);
    CoverUnion(t.free + {b}, s.out);
    assert t.free + {b} + s.out == t.free + t.out;
    forall d | d in s.out
      ensures Disjoint(d, b) && DisjointFrom(t.free, d)
    {
      DisjointInside(b, c, d);
      StillDisjoint(s.free, t.free, d);
    }
    LeftmostPositive(c, k);
  }

  lemma {:induction false} LeftmostPositive(c: Block, k: nat)
    requires k <= c.order && c.index > 0
    ensures Leftmost(c, k).index > 0
    decreases c.order
  {
    if c.order > k {
      LeftmostPositive(Left(c), k);
    }
  }

  lemma DeallocKeeps(s: BuddyState, b: Block, t: BuddyState)
    requires Inv(s) && Step(s, Dealloc(b), t)
    ensures Inv(t) && SamePages(s.free + s.out, t.free + t.out)
  {
    CoalesceKeeps(s.free, b);
    CoverUnion(s.free, {b});
    CoverUnion(s.free + {b}, t.out);
    CoverUnion(t.free, t.out);
    assert s.free + {b} + t.out == s.free + s.out;
    forall d | d in t.out
      ensures DisjointFrom(t.free, d)
    {
      assert DisjointFrom(s.free + {b}, d);
      StillDisjoint(s.free + {b}, t.free, d);
    }
  }

  lemma StepKeeps(s: BuddyState, call: Call, t: BuddyState)
    requires Inv(s) && Step(s, call, t)
    ensures Inv(t) && SamePages(s.free + s.out, t.free + t.out)
  {
    match call
    case Alloc(n, None) =>
    case Alloc(n, Some(b)) =>
      var k := PagesToOrder(n);
      var c :| FirstFit(s.free, k, c) && AllocFrom(s, c, k, b, t);
      AllocKeeps(s, c, k, b, t);
    case Dealloc(b) =>
      DeallocKeeps(s, b, t);
  }

  /** Over every run: the normal form holds, and free and outstanding blocks partition the same pages. */
  lemma {:induction false} RunKeeps(states: seq<BuddyState>, calls: seq<Call>)
    requires Run(states, calls) && Inv(states[0])
    ensures forall i :: 0 <= i < |states| ==> Inv(states[i])
    ensures SamePages(states[0].free + states[0].out, states[|calls|].free + states[|calls|].out)
    decreases |calls|
  {
    if calls != [] {
      var n := |calls| - 1;
      RunKeeps(states[..n + 1], calls[..n]);
      assert Inv(states[..n + 1][n]);
      StepKeeps(states[n], calls[n], states[n + 1]);
    }
  }

  /** At every point of every run the free set is the set of maximal free runs. */
  lemma RunIsMaximal(states: seq<BuddyState>, calls: seq<Call>, i: nat, b: Block)
    requires Run(states, calls) && Inv(states[0]) && i < |states|
    ensures b in states[i].free <==> MaximalRun(states[i].free, b)
  {
    RunKeeps(states, calls);
    CanonicalIsMaximal(states[i].free, b);
  }

  /** Two points of any runs with the same outstanding blocks have the same free blocks. */
  lemma FreeIsDetermined(s: BuddyState, t: BuddyState)
    requires Inv(s) && Inv(t) && s.out == t.out
    requires SamePages(s.free + s.out, t.free + t.out)
    ensures s.free == t.free
  {
    CoverUnion(s.free, s.out);
    CoverUnion(t.free, t.out);
    forall p: nat
      ensures Covers(s.free, p) <==> Covers(t.free, p)
    {
      if Covers(s.out, p) {
        var b :| b in s.out && Within(Page(p), b);
        DisjointCovers(s.free, b, p);
        DisjointCovers(t.free, b, p);
      }
    }
    CanonicalUnique(s.free, t.free);
  }

  /**
   Whatever was allocated and in whatever order it was freed, once nothing is outstanding
   the free set is the initial one.
   */
  lemma AllFreedRestores(states: seq<BuddyState>, calls: seq<Call>)
    requires Run(states, calls) && Inv(states[0])
    requires states[|calls|].out == states[0].out
    ensures states[|calls|].free == states[0].free
  {
    RunKeeps(states, calls);
    FreeIsDetermined(states[0], states[|calls|]);
  }

  /** Allocation fails exactly when the order is too large or no aligned run of it is free. */
  lemma AllocFailsExactly(s: BuddyState, n: nat, t: BuddyState)
    requires Inv(s) && n > 0
    ensures Step(s, Alloc(n, None), t) <==>
              t == s &&
              (PagesToOrder(n) >= 16 ||
               forall b: Block :: b.order == PagesToOrder(n) ==> !AllCovered(s.free, b))
  {
    SearchIsComplete(s.free, PagesToOrder(n));
  }

  /** `b` is the start of `c`, and no free block that could hold `b` is smaller than `c`. */
  ghost predicate StartsSmallest(free: set<Block>, b: Block, c: Block)
  {
    && FirstPage(b) == FirstPage(c) && b.order <= c.order
    && forall d :: d in free && b.order <= d.order ==> c.order <= d.order
  }

  lemma {:induction false} CarveLeaves(free: set<Block>, c: Block, k: nat)
    requires k <= c.order
    ensures free <= Carve(free, c, k)
    decreases c.order
  {
    if c.order > k {
      CarveLeaves(free + {Right(c)}, Left(c), k);
    }
  }

  /**
   A successful allocation hands out a free aligned run of at least `n` and fewer than `2n`
   pages: the start of a smallest free block that is large enough. All other free blocks stay.
   */
  lemma AllocResult(s: BuddyState, n: nat, b: Block, t: BuddyState)
    requires Inv(s) && Step(s, Alloc(n, Some(b)), t)
    ensures n <= Pow2(b.order) < 2 * n
    ensures AllCovered(s.free, b) && DisjointFrom(s.out, b)
    ensures t.out == s.out + {b}
    ensures forall p: nat :: Covers(t.free, p) <==> Covers(s.free, p) && !Within(Page(p), b)
    ensures exists c :: c in s.free && StartsSmallest(s.free, b, c) && s.free - {c} <= t.free
  {
    var k := PagesToOrder(n);
    var c :| FirstFit(s.free, k, c) && AllocFrom(s, c, k, b, t);
    CarveLeaves(s.free - {c}, c, k);
    assert StartsSmallest(s.free, b, c);
    AllocKeeps(s, c, k, b, t);
    TakeOut(s.free, c);
    CarveKeeps(s.free - {c}, c, k);
    CoverUnion(t.free, {b});
    forall p: nat
      ensures Covers(t.free, p) <==> Covers(s.free, p) && !Within(Page(p), b)
    {
      if Within(Page(p), b) {
        DisjointCovers(t.free, b, p);
      } else {
        assert Covers({b}, p) ==> Within(Page(p), b);
      }
    }
    forall d | d in s.out
      ensures Disjoint(d, b)
    {
      DisjointInside(b, c, d);
    }
  }
}
