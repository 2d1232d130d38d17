/**
 The geometry of naturally aligned power-of-two runs of pages, and the normal form of a
 set of free runs: no two of them overlap and no two buddies are both in it.

 A block is its order and its index among the runs of that order, so that nesting is a
 shift of indices. A single page is the block of order 0 with its page number as index.
 */
module Blocks {
  import opened Bits

  /** Orders run from 0 to 15. */
  const MAX_ORDER: nat := 16

  datatype Block = Block(index: nat, order: nat)

  function Page(p: nat): Block { Block(p, 0) }

  /** The run `b` lies inside the run `c`. */
  predicate Within(b: Block, c: Block)
  {
    b.order <= c.order && Shift(b.index, c.order - b.order) == c.index
  }

  predicate Disjoint(b: Block, c: Block)
  {
    !Within(b, c) && !Within(c, b)
  }

  function FirstPage(b: Block): nat { Scale(b.index, b.order) }

  function Buddy(b: Block): Block
  {
    Block(if b.index % 2 == 0 then b.index + 1 else b.index - 1, b.order)
  }

  function Parent(b: Block): Block { Block(b.index / 2, b.order + 1) }

  function Left(b: Block): Block
    requires b.order > 0
  {
    Block(2 * b.index, b.order - 1)
  }

  function Right(b: Block): Block
    requires b.order > 0
  {
    Block(2 * b.index + 1, b.order - 1)
  }

  // ------------------------------------------------------------- nesting

  /** Membership of a page in a block is membership in an interval. */
  lemma PagesAreInterval(p: nat, b: Block)
    ensures Within(Page(p), b) <==> FirstPage(b) <= p < FirstPage(b) + Pow2(b.order)
  {
    ShiftInterval(p, b.index, b.order);
  }

  lemma WithinSelf(b: Block)
    ensures Within(b, b)
  {
  }

  lemma WithinTransitive(a: Block, b: Block, c: Block)
    requires Within(a, b) && Within(b, c)
    ensures Within(a, c)
  {
    ShiftShift(a.index, b.order - a.order, c.order - b.order);
  }

  /** Two blocks around a common block are nested. */
  lemma WithinNested(a: Block, b: Block, c: Block)
    requires Within(a, b) && Within(a, c) && b.order <= c.order
    ensures Within(b, c)
  {
    ShiftShift(a.index, b.order - a.order, c.order - b.order);
  }

  lemma FirstPageWithin(b: Block)
    ensures Within(Page(FirstPage(b)), b)
  {
    ShiftScale(b.index, b.order);
  }

  /** A common page makes two blocks nested. */
  lemma SharedPage(p: nat, b: Block, c: Block)
    requires Within(Page(p), b) && Within(Page(p), c)
    ensures !Disjoint(b, c)
  {
    if b.order <= c.order {
      WithinNested(Page(p), b, c);
    } else {
      WithinNested(Page(p), c, b);
    }
  }

  /** Blocks are disjoint exactly when they share no page. */
  lemma DisjointPages(b: Block, c: Block)
    ensures Disjoint(b, c) <==> forall p: nat :: !(Within(Page(p), b) && Within(Page(p), c))
  {
    if Disjoint(b, c) {
      forall p: nat | Within(Page(p), b) && Within(Page(p), c)
        ensures false
      {
        SharedPage(p, b, c);
      }
    } else if Within(b, c) {
      FirstPageWithin(b);
      WithinTransitive(Page(FirstPage(b)), b, c);
    } else {
      FirstPageWithin(c);
      WithinTransitive(Page(FirstPage(c)), c, b);
    }
  }

  lemma DisjointInside(a: Block, b: Block, c: Block)
    requires Within(a, b) && Disjoint(b, c)
    ensures Disjoint(a, c)
  {
    if Within(a, c) {
      if b.order <= c.order { WithinNested(a, b, c); } else { WithinNested(a, c, b); }
    } else if Within(c, a) {
      WithinTransitive(c, a, b);
    }
  }

  lemma WithinParent(b: Block)
    ensures Within(b, Parent(b)) && Within(Buddy(b), Parent(b))
    ensures Disjoint(b, Buddy(b)) && Buddy(Buddy(b)) == b && Parent(Buddy(b)) == Parent(b)
  {
    assert Shift(b.index, 1) == Shift(b.index / 2, 0);
    assert Shift(Buddy(b).index, 1) == Shift(Buddy(b).index / 2, 0);
  }

  lemma Halves(b: Block)
    requires b.order > 0
    ensures Within(Left(b), b) && Within(Right(b), b) && Disjoint(Left(b), Right(b))
    ensures Buddy(Left(b)) == Right(b) && Buddy(Right(b)) == Left(b)
    ensures Parent(Left(b)) == b && Parent(Right(b)) == b
    ensures FirstPage(Left(b)) == FirstPage(b)
  {
    WithinParent(Left(b));
    ScaleStep(b.index, b.order - 1);
  }

  /** What lies strictly inside a block lies inside one half of it. */
  lemma WithinHalf(a: Block, b: Block)
    requires Within(a, b) && a.order < b.order
    ensures Within(a, Left(b)) || Within(a, Right(b))
  {
    ShiftStep(a.index, b.order - a.order - 1);
    assert b.order - a.order - 1 == b.order - 1 - a.order;
  }

  /** What properly contains a block contains its parent. */
  lemma WithinAbove(b: Block, c: Block)
    requires Within(b, c) && b.order < c.order
    ensures Within(Parent(b), c)
  {
    WithinParent(b);
    WithinNested(b, Parent(b), c);
  }

  /** Blocks beside each other: the page after a left half is the first of its buddy. */
  lemma FirstPageOfBuddy(b: Block)
    ensures b.index % 2 == 0 ==> FirstPage(Buddy(b)) == FirstPage(b) + Pow2(b.order)
    ensures b.index % 2 == 1 ==> FirstPage(Buddy(b)) + Pow2(b.order) == FirstPage(b)
  {
    ScaleOne(b.order);
    if b.index % 2 == 0 {
      ScaleAdd(b.index, 1, b.order);
    } else {
      ScaleAdd(b.index - 1, 1, b.order);
    }
  }

  // ------------------------------------------------------- sets of blocks

  /** Page `p` belongs to some block of `f`. */
  ghost predicate Covers(f: set<Block>, p: nat)
  {
    exists b :: b in f && Within(Page(p), b)
  }

  ghost predicate AllCovered(f: set<Block>, b: Block)
  {
    forall p: nat :: Within(Page(p), b) ==> Covers(f, p)
  }

  ghost predicate PairwiseDisjoint(f: set<Block>)
  {
    forall b, c :: b in f && c in f && b != c ==> Disjoint(b, c)
  }

  ghost predicate DisjointFrom(f: set<Block>, b: Block)
  {
    forall c :: c in f ==> Disjoint(c, b)
  }

  /** No block below the top order is free together with its buddy. */
  ghost predicate Merged(f: set<Block>)
  {
    forall b :: b in f && b.order < MAX_ORDER - 1 ==> Buddy(b) !in f
  }

  /** The orders are the ones the allocator manages, and page 0 is in no block. */
  ghost predicate Managed(f: set<Block>)
  {
    forall b :: b in f ==> b.order < MAX_ORDER && b.index > 0
  }

  ghost predicate Canonical(f: set<Block>)
  {
    Managed(f) && PairwiseDisjoint(f) && Merged(f)
  }

  ghost predicate SamePages(f: set<Block>, g: set<Block>)
  {
    forall p: nat :: Covers(f, p) <==> Covers(g, p)
  }

  /** `b` is a maximal aligned run, of order at most 15, of the pages that `f` covers. */
  ghost predicate MaximalRun(f: set<Block>, b: Block)
  {
    && b.order < MAX_ORDER
    && AllCovered(f, b)
    && (b.order < MAX_ORDER - 1 ==> !AllCovered(f, Parent(b)))
  }

  lemma CoverUnion(f: set<Block>, g: set<Block>)
    ensures forall p: nat :: Covers(f + g, p) <==> Covers(f, p) || Covers(g, p)
  {
    forall p: nat
      ensures Covers(f + g, p) <==> Covers(f, p) || Covers(g, p)
    {
      if Covers(f, p) {
        var b :| b in f && Within(Page(p), b);
        assert b in f + g;
      }
      if Covers(g, p) {
        var b :| b in g && Within(Page(p), b);
        assert b in f + g;
      }
    }
  }

  /** In a disjoint family a block covers pages that no other block covers. */
  lemma DisjointCovers(f: set<Block>, b: Block, p: nat)
    requires DisjointFrom(f, b) && Within(Page(p), b)
    ensures !Covers(f, p)
  {
    if Covers(f, p) {
      var c :| c in f && Within(Page(p), c);
      SharedPage(p, c, b);
    }
  }

  /** A block none of whose pages is covered is disjoint from every block. */
  lemma UncoveredDisjoint(f: set<Block>, b: Block)
    requires forall p: nat :: Within(Page(p), b) ==> !Covers(f, p)
    ensures DisjointFrom(f, b)
  {
    forall c | c in f
      ensures Disjoint(c, b)
    {
      DisjointPages(c, b);
    }
  }

  lemma ContainedIsCovered(f: set<Block>, b: Block, c: Block)
    requires c in f && Within(b, c)
    ensures AllCovered(f, b)
  {
    forall p: nat | Within(Page(p), b)
      ensures Covers(f, p)
    {
      WithinTransitive(Page(p), b, c);
    }
  }

  lemma HalvesCovered(f: set<Block>, b: Block)
    requires b.order > 0
    ensures AllCovered(f, b) <==> AllCovered(f, Left(b)) && AllCovered(f, Right(b))
  {
    Halves(b);
    if AllCovered(f, b) {
      forall p: nat | Within(Page(p), Left(b))
        ensures Covers(f, p)
      {
        WithinTransitive(Page(p), Left(b), b);
      }
      forall p: nat | Within(Page(p), Right(b))
        ensures Covers(f, p)
      {
        WithinTransitive(Page(p), Right(b), b);
      }
    }
    if AllCovered(f, Left(b)) && AllCovered(f, Right(b)) {
      forall p: nat | Within(Page(p), b)
        ensures Covers(f, p)
      {
        WithinHalf(Page(p), b);
      }
    }
  }

  /**
   The heart of the buddy system: in a canonical set, an aligned run whose pages are all
   free, however they were freed, lies inside one free block.
   */
  lemma {:induction false} RunIsInOneBlock(f: set<Block>, b: Block) returns (c: Block)
    requires Merged(f) && b.order < MAX_ORDER
    requires AllCovered(f, b)
    ensures c in f && Within(b, c)
    decreases b.order
  {
    if b.order == 0 {
      assert Within(Page(b.index), b);
      c :| c in f && Within(Page(b.index), c);
    } else {
      Halves(b);
      HalvesCovered(f, b);
      var l := RunIsInOneBlock(f, Left(b));
      var r := RunIsInOneBlock(f, Right(b));
      if l.order >= b.order {
        WithinAbove(Left(b), l);
        c := l;
      } else {
        assert l == Left(b);
        assert r != Right(b);
        WithinAbove(Right(b), r);
        c := r;
      }
    }
  }

  /** The members of a canonical set are exactly the maximal runs of the pages it covers. */
  lemma CanonicalIsMaximal(f: set<Block>, b: Block)
    requires Canonical(f)
    ensures b in f <==> MaximalRun(f, b)
  {
    WithinParent(b);
    if b in f {
      ContainedIsCovered(f, b, b);
      if b.order < MAX_ORDER - 1 && AllCovered(f, Parent(b)) {
        var c := RunIsInOneBlock(f, Parent(b));
        WithinTransitive(b, Parent(b), c);
        assert false;
      }
    }
    if MaximalRun(f, b) {
      var c := RunIsInOneBlock(f, b);
      if c.order > b.order {
        WithinAbove(b, c);
        ContainedIsCovered(f, Parent(b), c);
        assert false;
      }
    }
  }

  /** The normal form is unique: the free pages determine the free blocks. */
  lemma CanonicalUnique(f: set<Block>, g: set<Block>)
    requires Canonical(f) && Canonical(g) && SamePages(f, g)
    ensures f == g
  {
    forall b
      ensures b in f <==> b in g
    {
      CanonicalIsMaximal(f, b);
      CanonicalIsMaximal(g, b);
      assert AllCovered(f, b) <==> AllCovered(g, b);
      assert AllCovered(f, Parent(b)) <==> AllCovered(g, Parent(b));
    }
  }
}
