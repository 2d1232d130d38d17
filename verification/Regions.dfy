/**
 Sets of byte addresses kept as sorted, strictly separated regions.
 */
module Regions {
  import opened Bits

  datatype MemRegion = MemRegion(base: nat, size: nat) {
    function End(): nat { base + size }
  }

  predicate Holds(r: MemRegion, x: nat) { r.base <= x < r.End() }

  /** The `size` bytes from `base` on. */
  ghost function Range(base: nat, size: nat): (b: set<nat>)
    ensures forall x: nat :: x in b <==> base <= x < base + size
  {
    var r := MemRegion(base, size);
    set x: nat | x < base + size && Holds(r, x)
  }

  /** Regions are non-empty, sorted, and leave at least one byte between each other. */
  ghost predicate Separated(s: seq<MemRegion>)
  {
    && (forall i :: 0 <= i < |s| ==> s[i].size > 0)
    && (forall i, j :: 0 <= i < j < |s| ==> s[i].End() < s[j].base)
  }

  ghost predicate In(s: seq<MemRegion>, x: nat)
  {
    exists i :: 0 <= i < |s| && Holds(s[i], x)
  }

  /** The bytes that the regions cover. */
  ghost function Bytes(s: seq<MemRegion>): (b: set<nat>)
    ensures forall x: nat :: x in b <==> In(s, x)
  {
    if s == [] then {}
    else
      var n := |s| - 1;
      assert s == s[..n] + [s[n]];
      assert forall x: nat :: In(s, x) <==> In(s[..n], x) || Holds(s[n], x) by {
        forall x: nat
          ensures In(s, x) <==> In(s[..n], x) || Holds(s[n], x)
        {
          InConcat(s[..n], [s[n]], x);
          assert In([s[n]], x) <==> Holds([s[n]][0], x);
        }
      }
      Bytes(s[..n]) + Range(s[n].base, s[n].size)
  }

  function Total(s: seq<MemRegion>): nat
  {
    if s == [] then 0 else Total(s[..|s| - 1]) + s[|s| - 1].size
  }

  lemma EmptyRange(base: nat)
    ensures Range(base, 0) == {}
  {
  }

  lemma {:induction false} RangeSize(base: nat, size: nat)
    ensures |Range(base, size)| == size
    decreases size
  {
    if size > 0 {
      RangeSize(base, size - 1);
      assert Range(base, size) == Range(base, size - 1) + {base + size - 1};
    }
  }

  /** The total is the number of bytes covered. */
  lemma {:induction false} TotalCounts(s: seq<MemRegion>)
    requires Separated(s)
    ensures Total(s) == |Bytes(s)|
    decreases |s|
  {
    hide Bytes, Range, In;
    if s == [] {
      NoBytes(s);
    } else {
      var n := |s| - 1;
      TotalCounts(s[..n]);
      RangeSize(s[n].base, s[n].size);
      DropLast(s);
    }
  }

  /** A run of covered bytes lies in one region. */
  lemma RunInOneRegion(s: seq<MemRegion>, base: nat, size: nat) returns (k: nat)
    requires Separated(s) && size > 0 && Range(base, size) <= Bytes(s)
    ensures k < |s| && s[k].base <= base && base + size <= s[k].End()
  {
    hide Bytes, Range;
    assert base in Range(base, size);
    k :| 0 <= k < |s| && Holds(s[k], base);
    var e := s[k].End();
    assert !In(s, e);
    assert e !in Range(base, size);
  }

  lemma InBound(s: seq<MemRegion>, x: nat)
    requires Separated(s) && In(s, x)
    ensures x < s[|s| - 1].End()
  {
  }

  lemma RegionIsIn(s: seq<MemRegion>, i: nat)
    requires i < |s|
    ensures Range(s[i].base, s[i].size) <= Bytes(s)
    ensures s[i].size > 0 ==> s[i].base in Bytes(s)
  {
    hide Bytes, Range;
    assert forall x: nat :: Holds(s[i], x) ==> In(s, x);
    assert forall x: nat :: x in Range(s[i].base, s[i].size) ==> Holds(s[i], x);
    assert s[i].size > 0 ==> Holds(s[i], s[i].base);
  }

  /** Fewer or no new bytes above a bound: the regions still end within it. */
  lemma EndsBound(s: seq<MemRegion>, t: seq<MemRegion>, bound: nat)
    requires Separated(t) && forall r :: r in s ==> r.End() <= bound
    requires forall x: nat :: x in Bytes(t) ==> x in Bytes(s) || x < bound
    ensures forall r :: r in t ==> r.End() <= bound
  {
    hide Bytes, Range;
    forall j | 0 <= j < |t|
      ensures t[j].End() <= bound
    {
      var x: nat := t[j].End() - 1;
      assert Holds(t[j], x) && x in Bytes(t);
      if x in Bytes(s) {
        var i :| 0 <= i < |s| && Holds(s[i], x);
        assert s[i] in s;
      }
    }
  }

  lemma LastAgrees(s: seq<MemRegion>, t: seq<MemRegion>)
    requires Separated(s) && Separated(t) && Bytes(s) == Bytes(t) && s != [] && t != []
    ensures t[|t| - 1].base <= s[|s| - 1].base && s[|s| - 1].End() <= t[|t| - 1].End()
  {
    hide Bytes, Range, In;
    var r, u := s[|s| - 1], t[|t| - 1];
    RegionIsIn(s, |s| - 1);
    RegionIsIn(t, |t| - 1);
    var k := RunInOneRegion(t, r.base, r.size);
    InBound(s, u.base);
  }

  lemma DropLast(s: seq<MemRegion>)
    requires Separated(s) && s != []
    ensures var n := |s| - 1; Separated(s[..n]) && Bytes(s[..n]) == Bytes(s) - Range(s[n].base, s[n].size)
    ensures var n := |s| - 1; Range(s[n].base, s[n].size) <= Bytes(s)
  {
    var n := |s| - 1;
    assert Bytes(s) == Bytes(s[..n]) + Range(s[n].base, s[n].size);
    hide Bytes, Range;
    assert Bytes(s[..n]) !! Range(s[n].base, s[n].size);
  }

  /** The covered bytes determine the regions. */
  lemma {:induction false} SeparatedUnique(s: seq<MemRegion>, t: seq<MemRegion>)
    requires Separated(s) && Separated(t) && Bytes(s) == Bytes(t)
    ensures s == t
    decreases |s|
  {
    hide Bytes, Range, In;
    if s == [] || t == [] {
      NoBytes(s);
      NoBytes(t);
    } else {
      var m, n := |s| - 1, |t| - 1;
      LastAgrees(s, t);
      LastAgrees(t, s);
      DropLast(s);
      DropLast(t);
      SeparatedUnique(s[..m], t[..n]);
      assert s == s[..m] + [s[m]] && t == t[..n] + [t[n]];
    }
  }

  lemma NoBytes(s: seq<MemRegion>)
    requires Separated(s)
    ensures Bytes(s) == {} <==> s == []
  {
    if s != [] {
      RegionIsIn(s, 0);
    }
  }

  // ------------------------------------------------------------------ union

  /** `lo` to `hi` is the union of the request and the regions it touches, `s[i..j]`. */
  ghost predicate Merges(s: seq<MemRegion>, i: nat, j: nat, base: nat, end: nat, lo: nat, hi: nat)
  {
    && i <= j <= |s| && lo <= base < end <= hi
    && (forall k :: i <= k < j ==> lo <= s[k].base && s[k].End() <= hi)
    && (forall x: nat :: lo <= x < hi ==> base <= x < end || In(s[i..j], x))
    && (lo == base || (i < j && lo == s[i].base))
    && (hi == end || (i < j && hi == s[j - 1].End()))
  }

  lemma MergeOne(s: seq<MemRegion>, i: nat, j: nat, base: nat, end: nat, lo: nat, hi: nat)
    requires Separated(s) && Merges(s, i, j, base, end, lo, hi) && j < |s|
    requires s[j].base <= hi && base <= s[i].End()
    ensures Merges(s, i, j + 1, base, end, Min(lo, s[j].base), Max(hi, s[j].End()))
  {
    var t := s[i..j + 1];
    assert t == s[i..j] + [s[j]];
    forall x: nat | Min(lo, s[j].base) <= x < Max(hi, s[j].End())
      ensures base <= x < end || In(t, x)
    {
      InConcat(s[i..j], [s[j]], x);
      assert Holds(s[j], x) ==> Holds([s[j]][0], x);
    }
  }

  lemma MergedIn(s: seq<MemRegion>, i: nat, j: nat, base: nat, end: nat, lo: nat, hi: nat, x: nat)
    requires Merges(s, i, j, base, end, lo, hi)
    ensures In(s[..i] + [MemRegion(lo, hi - lo)] + s[j..], x) <==> In(s, x) || base <= x < end
  {
    var m := [MemRegion(lo, hi - lo)];
    assert s == s[..i] + s[i..j] + s[j..];
    assert In(m, x) <==> Holds(m[0], x);
    assert In(s[i..j], x) ==> Holds(m[0], x);
    hide In;
    InConcat(s[..i] + m, s[j..], x);
    InConcat(s[..i], m, x);
    InConcat(s[..i] + s[i..j], s[j..], x);
    InConcat(s[..i], s[i..j], x);
  }

  lemma SeparatedConcat(a: seq<MemRegion>, b: seq<MemRegion>)
    requires Separated(a) && Separated(b)
    requires a != [] && b != [] ==> a[|a| - 1].End() < b[0].base
    ensures Separated(a + b)
  {
    var t := a + b;
    forall i, j | 0 <= i < j < |t|
      ensures t[i].End() < t[j].base
    {
      if i < |a| <= j {
        assert a[i].End() <= a[|a| - 1].End() < b[0].base <= b[j - |a|].base;
      }
    }
  }

  lemma SliceSeparated(s: seq<MemRegion>, i: nat, j: nat)
    requires Separated(s) && i <= j <= |s|
    ensures Separated(s[i..j])
  {
  }

  lemma ReplaceSeparated(s: seq<MemRegion>, i: nat, j: nat, r: MemRegion)
    requires Separated(s) && i <= j <= |s| && r.size > 0
    requires (i > 0 ==> s[i - 1].End() < r.base) && (j < |s| ==> r.End() < s[j].base)
    ensures Separated(s[..i] + [r] + s[j..])
  {
    SliceSeparated(s, 0, i);
    SliceSeparated(s, j, |s|);
    assert Separated([r]) && s[..i] == s[0..i] && s[j..] == s[j..|s|];
    hide Separated;
    SeparatedConcat(s[..i], [r]);
    SeparatedConcat(s[..i] + [r], s[j..]);
  }

  lemma MergedKeeps(s: seq<MemRegion>, i: nat, j: nat, base: nat, end: nat, lo: nat, hi: nat)
    requires Separated(s) && Merges(s, i, j, base, end, lo, hi)
    requires forall k :: 0 <= k < i ==> s[k].End() < base
    requires j < |s| ==> hi < s[j].base
    ensures Separated(s[..i] + [MemRegion(lo, hi - lo)] + s[j..])
    ensures Bytes(s[..i] + [MemRegion(lo, hi - lo)] + s[j..]) == Bytes(s) + Range(base, end - base)
  {
    hide Bytes, Range, In;
    var t := s[..i] + [MemRegion(lo, hi - lo)] + s[j..];
    forall x: nat
      ensures x in Bytes(t) <==> x in Bytes(s) + Range(base, end - base)
    {
      MergedIn(s, i, j, base, end, lo, hi, x);
    }
    ReplaceSeparated(s, i, j, MemRegion(lo, hi - lo));
  }

  // ------------------------------------------------------------- difference

  /** What remains of one region when the bytes from `lo` up to `hi` are taken out. */
  function Cut(r: MemRegion, lo: nat, hi: nat): (c: seq<MemRegion>)
    ensures |c| <= 2
  {
    if !(lo < r.End() && hi > r.base) then [r]
    else if lo <= r.base && hi >= r.End() then []
    else if lo <= r.base then [MemRegion(hi, r.End() - hi)]
    else if hi >= r.End() then [MemRegion(r.base, lo - r.base)]
    else [MemRegion(r.base, lo - r.base), MemRegion(hi, r.End() - hi)]
  }

  function CutAll(s: seq<MemRegion>, lo: nat, hi: nat): seq<MemRegion>
  {
    if s == [] then [] else CutAll(s[..|s| - 1], lo, hi) + Cut(s[|s| - 1], lo, hi)
  }

  lemma CutNone(s: seq<MemRegion>, lo: nat, hi: nat)
    ensures CutAll(s[..0], lo, hi) == []
  {
  }

  lemma CutNext(s: seq<MemRegion>, n: nat, lo: nat, hi: nat)
    requires n < |s|
    ensures CutAll(s[..n + 1], lo, hi) == CutAll(s[..n], lo, hi) + Cut(s[n], lo, hi)
  {
    assert s[..n + 1][..n] == s[..n];
  }

  lemma CutFacts(r: MemRegion, lo: nat, hi: nat)
    requires r.size > 0 && lo < hi
    ensures Separated(Cut(r, lo, hi))
    ensures forall c :: c in Cut(r, lo, hi) ==> r.base <= c.base && c.End() <= r.End()
  {
  }

  lemma {:induction false} CutAllSeparated(s: seq<MemRegion>, lo: nat, hi: nat)
    requires Separated(s) && lo < hi
    ensures Separated(CutAll(s, lo, hi))
    ensures s != [] ==> forall c :: c in CutAll(s, lo, hi) ==> c.End() <= s[|s| - 1].End()
    decreases |s|
  {
    if s != [] {
      var n := |s| - 1;
      SliceSeparated(s, 0, n);
      assert s[..n] == s[0..n] && s[n].size > 0;
      assert n > 0 ==> s[n - 1].End() < s[n].base;
      hide Separated, Cut;
      CutAllSeparated(s[..n], lo, hi);
      CutFacts(s[n], lo, hi);
      SeparatedConcat(CutAll(s[..n], lo, hi), Cut(s[n], lo, hi));
    }
  }

  lemma {:induction false} CutAllIn(s: seq<MemRegion>, lo: nat, hi: nat, x: nat)
    requires Separated(s) && lo < hi
    ensures In(CutAll(s, lo, hi), x) <==> In(s, x) && !(lo <= x < hi)
    decreases |s|
  {
    if s != [] {
      var n := |s| - 1;
      assert s == s[..n] + [s[n]];
      CutAllIn(s[..n], lo, hi, x);
      hide In;
      InConcat(CutAll(s[..n], lo, hi), Cut(s[n], lo, hi), x);
      InConcat(s[..n], [s[n]], x);
      InCut(s[n], lo, hi, x);
    }
  }

  lemma InConcat(a: seq<MemRegion>, b: seq<MemRegion>, x: nat)
    ensures In(a + b, x) <==> In(a, x) || In(b, x)
  {
    if In(a, x) {
      var i :| 0 <= i < |a| && Holds(a[i], x);
      assert (a + b)[i] == a[i];
    }
    if In(b, x) {
      var i :| 0 <= i < |b| && Holds(b[i], x);
      assert (a + b)[|a| + i] == b[i];
    }
  }

  lemma InCut(r: MemRegion, lo: nat, hi: nat, x: nat)
    requires r.size > 0 && lo < hi
    ensures In(Cut(r, lo, hi), x) <==> In([r], x) && !(lo <= x < hi)
  {
    var c := Cut(r, lo, hi);
    assert In([r], x) <==> Holds([r][0], x);
    if |c| == 1 { assert In(c, x) <==> Holds(c[0], x); }
    if |c| == 2 { assert In(c, x) <==> Holds(c[0], x) || Holds(c[1], x); }
  }

  lemma CutAllBytes(s: seq<MemRegion>, lo: nat, hi: nat)
    requires Separated(s) && lo < hi
    ensures Separated(CutAll(s, lo, hi))
    ensures Bytes(CutAll(s, lo, hi)) == Bytes(s) - Range(lo, hi - lo)
  {
    hide Bytes, Range, CutAll;
    CutAllSeparated(s, lo, hi);
    forall x: nat
      ensures x in Bytes(CutAll(s, lo, hi)) <==> x in Bytes(s) - Range(lo, hi - lo)
    {
      CutAllIn(s, lo, hi, x);
    }
  }

  /** Regions that do not meet the cut stay as they are. */
  lemma {:induction false} CutAllOutside(s: seq<MemRegion>, lo: nat, hi: nat)
    requires forall i :: 0 <= i < |s| ==> s[i].End() <= lo || hi <= s[i].base
    ensures CutAll(s, lo, hi) == s
    decreases |s|
  {
    if s != [] {
      CutAllOutside(s[..|s| - 1], lo, hi);
      assert s == s[..|s| - 1] + [s[|s| - 1]];
    }
  }

  /** The cut lies strictly inside a region. */
  predicate Punches(s: seq<MemRegion>, lo: nat, hi: nat)
  {
    exists i :: 0 <= i < |s| && s[i].base < lo && hi < s[i].End()
  }

  lemma PunchesCut(s: seq<MemRegion>, lo: nat, hi: nat)
    requires lo < hi
    ensures Punches(s, lo, hi) <==> exists i :: 0 <= i < |s| && |Cut(s[i], lo, hi)| == 2
  {
  }

  /** A region strictly around the cut is the only one the cut meets. */
  /** A cut makes at most one region more. */
  lemma {:induction false} CutAllLength(s: seq<MemRegion>, lo: nat, hi: nat)
    requires Separated(s) && lo < hi
    ensures |CutAll(s, lo, hi)| <= |s| + 1
    decreases |s|
  {
    hide Cut;
    if s != [] {
      var n := |s| - 1;
      CutAllLength(s[..n], lo, hi);
      if |Cut(s[n], lo, hi)| == 2 {
        PunchedOnce(s, n, lo, hi);
      }
    }
  }

  lemma PunchedOnce(s: seq<MemRegion>, n: nat, lo: nat, hi: nat)
    requires Separated(s) && n < |s| && lo < hi && |Cut(s[n], lo, hi)| == 2
    ensures Punches(s, lo, hi) && CutAll(s[..n], lo, hi) == s[..n]
  {
    CutAllOutside(s[..n], lo, hi);
  }
}
