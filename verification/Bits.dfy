/**
 Machine-word arithmetic on naturals: powers of two, shifts, the bitwise operators
 the kernel uses, and the integer intrinsics of the Rust core library.

 Shifts are defined by repeated halving and doubling, so that everything about
 aligned power-of-two blocks stays linear arithmetic.
 */
module Bits {

  /** One more than the largest `usize` of the 64-bit target. */
  const WORD: nat := 0x1_0000_0000_0000_0000

  /** Where the linear map of physical memory starts. */
  const PHYS_VIRT_OFFSET: nat := 0xFFFF_FFFF_0000_0000

  datatype Option<+T> = None | Some(value: T)

  function Min(a: int, b: int): int { if a <= b then a else b }

  function Max(a: int, b: int): int { if a >= b then a else b }

  /** `1 << k` */
  function Pow2(k: nat): (r: nat)
    ensures r > 0
  {
    if k == 0 then 1 else 2 * Pow2(k - 1)
  }

  /** `x >> k` */
  function Shift(x: nat, k: nat): nat
    decreases k
  {
    if k == 0 then x else Shift(x / 2, k - 1)
  }

  /** `i << k` */
  function Scale(i: nat, k: nat): nat
    decreases k
  {
    if k == 0 then i else 2 * Scale(i, k - 1)
  }

  /** `a ^ b` */
  function Xor(a: nat, b: nat): nat
    decreases a + b
  {
    if a == 0 && b == 0 then 0 else (a + b) % 2 + 2 * Xor(a / 2, b / 2)
  }

  /** `a & b` */
  function And(a: nat, b: nat): nat
    decreases a
  {
    if a == 0 then 0 else (if a % 2 == 1 && b % 2 == 1 then 1 else 0) + 2 * And(a / 2, b / 2)
  }

  /** `!m` on a 64-bit word */
  function Not(m: nat): nat
    requires m < WORD
  {
    WORD - 1 - m
  }

  /** `usize::ilog2` */
  function Log2(n: nat): (k: nat)
    requires n > 0
    ensures Pow2(k) <= n < Pow2(k + 1)
  {
    if n == 1 then 0 else 1 + Log2(n / 2)
  }

  /** `usize::trailing_zeros`, for a non-zero word */
  function TrailingZeros(n: nat): (k: nat)
    requires n > 0
    ensures Scale(Shift(n, k), k) == n
    ensures Shift(n, k) % 2 == 1
  {
    if n % 2 == 1 then 0 else 1 + TrailingZeros(n / 2)
  }

  /** The least `k` with `n <= 2^k` */
  function CeilLog2(n: nat): (k: nat)
    ensures n <= Pow2(k) && (k > 0 ==> Pow2(k - 1) < n)
  {
    if n <= 1 then 0 else 1 + CeilLog2((n + 1) / 2)
  }

  /** `usize::next_power_of_two` */
  function NextPowerOfTwo(n: nat): (r: nat)
    ensures n <= r && (n > 0 ==> r < 2 * n)
    ensures IsPowerOfTwo(r)
  {
    TrailingZerosPow2(CeilLog2(n));
    Pow2(CeilLog2(n))
  }

  predicate IsPowerOfTwo(a: nat)
  {
    a > 0 && a == Pow2(TrailingZeros(a))
  }

  // ---------------------------------------------------------------- shifts

  lemma {:induction false} ShiftShift(x: nat, j: nat, k: nat)
    ensures Shift(x, j + k) == Shift(Shift(x, j), k)
    decreases j
  {
    if j > 0 {
      ShiftShift(x / 2, j - 1, k);
    }
  }

  /** Halving last is the same as halving first. */
  lemma ShiftStep(x: nat, k: nat)
    ensures Shift(x, k + 1) == Shift(x, k) / 2
  {
    ShiftShift(x, k, 1);
  }

  lemma {:induction false} ShiftScale(i: nat, k: nat)
    ensures Shift(Scale(i, k), k) == i
    decreases k
  {
    if k > 0 {
      ShiftScale(i, k - 1);
    }
  }

  lemma {:induction false} ScaleStep(i: nat, k: nat)
    ensures Scale(i, k + 1) == Scale(2 * i, k)
    decreases k
  {
    if k > 0 {
      ScaleStep(i, k - 1);
    }
  }

  lemma {:induction false} ScaleAdd(i: nat, j: nat, k: nat)
    ensures Scale(i + j, k) == Scale(i, k) + Scale(j, k)
    decreases k
  {
    if k > 0 {
      ScaleAdd(i, j, k - 1);
    }
  }

  lemma {:induction false} ScaleOne(k: nat)
    ensures Scale(1, k) == Pow2(k)
    decreases k
  {
    if k > 0 {
      ScaleOne(k - 1);
    }
  }

  lemma {:induction false} ScaleIsProduct(i: nat, k: nat)
    ensures Scale(i, k) == i * Pow2(k)
    decreases k
  {
    if k > 0 {
      ScaleIsProduct(i, k - 1);
    }
  }

  lemma {:induction false} ScaleScale(i: nat, j: nat, k: nat)
    ensures Scale(Scale(i, j), k) == Scale(i, j + k)
    decreases k
  {
    if k > 0 {
      ScaleScale(i, j, k - 1);
      assert j + k - 1 == j + (k - 1);
    }
  }

  /** The numbers with quotient `i` by `2^k` are an interval of `2^k` numbers. */
  lemma {:induction false} ShiftInterval(x: nat, i: nat, k: nat)
    ensures Shift(x, k) == i <==> Scale(i, k) <= x < Scale(i, k) + Pow2(k)
    decreases k
  {
    if k > 0 {
      ShiftInterval(x / 2, i, k - 1);
    }
  }

  lemma Pow2Step(k: nat)
    ensures Pow2(k + 1) == 2 * Pow2(k)
  {
  }

  lemma {:induction false} Pow2Monotone(j: nat, k: nat)
    requires j <= k
    ensures Pow2(j) <= Pow2(k)
    ensures j < k ==> 2 * Pow2(j) <= Pow2(k)
    decreases k
  {
    if j < k {
      Pow2Monotone(j, k - 1);
    }
  }

  lemma Pow2Values()
    ensures Pow2(9) == 512 && Pow2(12) == 4096 && Pow2(21) == 0x20_0000
    ensures Pow2(64) == WORD
  {
    assert Pow2(3) == 8;
    Pow2Split(3, 3);
    Pow2Split(3, 6);
    Pow2Split(6, 6);
    Pow2Split(9, 12);
    Pow2Split(1, 3);
    Pow2Split(4, 12);
    Pow2Split(16, 16);
    Pow2Split(32, 32);
  }

  lemma {:induction false} TrailingZerosPow2(k: nat)
    ensures TrailingZeros(Pow2(k)) == k
    decreases k
  {
    if k > 0 {
      TrailingZerosPow2(k - 1);
    }
  }

  /** A number with enough trailing zeros is aligned. */
  lemma {:induction false} TrailingZerosAlign(n: nat, k: nat)
    requires n > 0
    ensures k <= TrailingZeros(n) <==> Scale(Shift(n, k), k) == n
    decreases k
  {
    if k > 0 {
      if n % 2 == 0 {
        TrailingZerosAlign(n / 2, k - 1);
      }
    }
  }

  // ------------------------------------------------------ bitwise operators

  lemma XorUnfold(a: nat, b: nat, p: nat, q: nat)
    requires p == a / 2 && q == b / 2
    ensures Xor(a, b) == (a + b) % 2 + 2 * Xor(p, q)
  {
  }

  lemma AndUnfold(a: nat, b: nat, p: nat, q: nat)
    requires p == a / 2 && q == b / 2
    ensures And(a, b) == (if a % 2 == 1 && b % 2 == 1 then 1 else 0) + 2 * And(p, q)
  {
  }

  lemma {:induction false} XorZero(a: nat)
    ensures Xor(a, 0) == a
  {
    if a > 0 {
      XorZero(a / 2);
    }
  }

  /** Flipping bit `k` adds or subtracts `2^k`, by the parity of `a >> k`. */
  lemma {:induction false} XorPow2(a: nat, k: nat)
    ensures Shift(a, k) % 2 == 0 ==> Xor(a, Pow2(k)) == a + Pow2(k)
    ensures Shift(a, k) % 2 == 1 ==> Xor(a, Pow2(k)) == a - Pow2(k)
    decreases k
  {
    hide Xor;
    if k == 0 {
      XorUnfold(a, 1, a / 2, 0);
      XorZero(a / 2);
    } else {
      XorUnfold(a, Pow2(k), a / 2, Pow2(k - 1));
      XorPow2(a / 2, k - 1);
    }
  }

  /** Masking with `2^w - 1` keeps a number below `2^w`. */
  lemma {:induction false} AndOnes(y: nat, w: nat)
    requires y < Pow2(w)
    ensures And(y, Pow2(w) - 1) == y
    decreases w
  {
    if y > 0 {
      AndUnfold(y, Pow2(w) - 1, y / 2, Pow2(w - 1) - 1);
      AndOnes(y / 2, w - 1);
    }
  }

  /** A mask whose low `k` bits are clear acts on the shifted word. */
  lemma {:induction false} AndScale(x: nat, m: nat, k: nat)
    ensures And(x, Scale(m, k)) == Scale(And(Shift(x, k), m), k)
    decreases k
  {
    if k > 0 {
      AndScale(x / 2, m, k - 1);
      if x == 0 {
        ShiftZero(k);
        ScaleZero(k);
      }
    }
  }

  lemma {:induction false} ShiftZero(k: nat)
    ensures Shift(0, k) == 0
  {
    if k > 0 {
      ShiftZero(k - 1);
    }
  }

  lemma {:induction false} ScaleZero(k: nat)
    ensures Scale(0, k) == 0
  {
    if k > 0 {
      ScaleZero(k - 1);
    }
  }

  lemma {:induction false} ScaleOnes(w: nat, k: nat)
    ensures Scale(Pow2(w) - 1, k) == Pow2(w + k) - Pow2(k)
    decreases k
  {
    if k > 0 {
      ScaleOnes(w, k - 1);
      assert w + k - 1 == w + (k - 1);
    }
  }

  /** `!(2^k - 1)` is a run of ones above bit `k`. */
  lemma NotLowMask(k: nat)
    requires k <= 64
    ensures Pow2(k) <= WORD
    ensures Not(Pow2(k) - 1) == Scale(Pow2(64 - k) - 1, k)
  {
    Pow2Values();
    Pow2Monotone(k, 64);
    ScaleOnes(64 - k, k);
  }

  lemma {:induction false} Pow2Split(j: nat, k: nat)
    ensures Pow2(j) * Pow2(k) == Pow2(j + k)
    decreases k
  {
    if k > 0 {
      Pow2Split(j, k - 1);
      assert Pow2(j) * Pow2(k) == 2 * (Pow2(j) * Pow2(k - 1));
      assert j + k - 1 == j + (k - 1);
    }
  }

  /** `value & !(align - 1)` for a power of two rounds down to a multiple of it. */
  lemma MaskRoundsDown(value: nat, k: nat)
    requires value < WORD && k <= 64
    ensures Pow2(k) <= WORD
    ensures And(value, Not(Pow2(k) - 1)) == Scale(Shift(value, k), k)
    ensures And(value, Not(Pow2(k) - 1)) <= value < And(value, Not(Pow2(k) - 1)) + Pow2(k)
  {
    Pow2Values();
    NotLowMask(k);
    AndScale(value, Pow2(64 - k) - 1, k);
    ShiftBound(value, k, 64);
    AndOnes(Shift(value, k), 64 - k);
    ShiftInterval(value, Shift(value, k), k);
  }

  lemma {:induction false} ShiftBound(x: nat, k: nat, w: nat)
    requires k <= w && x < Pow2(w)
    ensures Shift(x, k) < Pow2(w - k)
    decreases k
  {
    if k > 0 {
      ShiftBound(x / 2, k - 1, w - 1);
    }
  }

  // --------------------------------------------------------------- alignment

  predicate Aligned(a: nat, align: nat)
    requires align > 0
  {
    a % align == 0
  }

  /** `value & !(align - 1)` */
  function AlignDown(value: nat, align: nat): nat
    requires 0 < align <= WORD
  {
    And(value, Not(align - 1))
  }

  lemma MulLess(x: int, y: int, d: nat)
    ensures x < y ==> x * d + d <= y * d
  {
    if x < y {
      var e: nat := y - x - 1;
      assert (x + 1 + e) * d == x * d + d + e * d;
    }
  }

  lemma QuotientUnique(a: nat, q: nat, d: nat)
    requires d > 0 && q * d <= a < q * d + d
    ensures a / d == q && a % d == a - q * d
  {
    MulLess(a / d, q, d);
    MulLess(q, a / d, d);
  }

  /** For a power of two, the mask rounds down to the greatest multiple. */
  lemma AlignDownIsGreatest(value: nat, align: nat, a: nat)
    requires value < WORD && IsPowerOfTwo(align) && align <= WORD
    ensures Aligned(AlignDown(value, align), align) &&
          AlignDown(value, align) <= value < AlignDown(value, align) + align
    ensures Aligned(a, align) && a <= value ==> a <= AlignDown(value, align)
  {
    var k := TrailingZeros(align);
    PowerOfTwoFits(k);
    MaskRoundsDown(value, k);
    var q := Shift(value, k);
    ScaleIsProduct(q, k);
    var m := AlignDown(value, align);
    assert m == q * align;
    QuotientUnique(m, q, align);
    if Aligned(a, align) && a <= value {
      hide Aligned;
      QuotientUnique(value, q, align);
      MultipleBelow(a, value, align);
    }
  }

  lemma PowerOfTwoFits(k: nat)
    requires Pow2(k) <= WORD
    ensures k <= 64
  {
    Pow2Values();
    if k > 64 { Pow2Monotone(64, k); }
  }

  lemma MultipleBelow(a: nat, value: nat, d: nat)
    requires d > 0 && a % d == 0 && a <= value
    ensures a <= (value / d) * d
  {
    MulLess(value / d, a / d, d);
    assert a / d <= value / d ==> (a / d) * d <= (value / d) * d;
  }
}
