/** Unsigned 32-bit words as naturals: wrap-around addition, the bitwise operators the
    sources use, and the power-of-two masks built from them. */
module Bits {

  /** 2^32, the modulus of `u32` and of the 32-bit `phys_addr_t`. */
  const M: nat := 0x1_0000_0000

  type u32 = x: int | 0 <= x < M

  type Byte = x: int | 0 <= x < 256

  function Add32(x: u32, y: u32): u32 {
    (x + y) % M
  }

  /** `x - y` on unsigned 32-bit operands. */
  function Sub32(x: u32, y: u32): u32 {
    (x - y) % M
  }

  lemma Add32Exact(x: u32, y: u32)
    requires x + y <= M
    ensures Add32(x, y) == if x + y == M then 0 else x + y
  {
  }

  lemma Sub32Exact(x: u32, y: u32)
    ensures Sub32(x, y) == if x >= y then x - y else M + x - y
  {
  }

  /** Bitwise and. */
  function And(x: nat, y: nat): nat {
    if x == 0 || y == 0 then 0
    else (if x % 2 == 1 && y % 2 == 1 then 1 else 0) + 2 * And(x / 2, y / 2)
  }

  /** Bitwise or. */
  function Or(x: nat, y: nat): nat {
    if x == 0 then y else if y == 0 then x
    else (if x % 2 == 1 || y % 2 == 1 then 1 else 0) + 2 * Or(x / 2, y / 2)
  }

  predicate PowerOfTwo(n: nat) {
    n == 1 || (n > 1 && n % 2 == 0 && PowerOfTwo(n / 2))
  }

  /** The least multiple of `a` that is not below `v`, in exact arithmetic. */
  function RoundUp(v: nat, a: nat): nat
    requires a > 0
  {
    (v + a - 1) / a * a
  }

  lemma DivModStep(x: nat, a: nat)
    requires a >= 2 && a % 2 == 0
    ensures x % a == 2 * ((x / 2) % (a / 2)) + x % 2
  {
    var h := a / 2;
    var q, r := (x / 2) / h, (x / 2) % h;
    assert x == 2 * (q * h + r) + x % 2;
    assert x == q * a + (2 * r + x % 2);
    ModUnique(x, a, q, 2 * r + x % 2);
  }

  lemma MulGe(k: int, a: nat)
    requires k >= 1
    ensures k * a >= a
  {
  }

  lemma MulLess(y: int, q: int, a: nat)
    requires y < q
    ensures y * a + a <= q * a
  {
    MulGe(q - y, a);
  }

  lemma FloorMultiple(w: nat, a: nat)
    requires a > 0
    ensures w / a * a == w - w % a
  {
  }

  lemma ModUnique(x: int, a: nat, q: int, r: int)
    requires a > 0 && 0 <= r < a && x == q * a + r
    ensures x % a == r && x / a == q
  {
    var d := x / a - q;
    assert d * a == r - x % a by { assert x == (x / a) * a + x % a; }
    if d >= 1 { MulGe(d, a); }
    if d <= -1 { MulGe(-d, a); }
  }

  /** Masking with `a - 1` keeps the remainder modulo a power of two. */
  lemma {:induction false} AndLow(x: nat, a: nat)
    requires PowerOfTwo(a)
    ensures And(x, a - 1) == x % a
    decreases a
  {
    if a > 1 {
      AndLow(x / 2, a / 2);
      DivModStep(x, a);
      if x != 0 { assert (a - 1) / 2 == a / 2 - 1 && (a - 1) % 2 == 1; }
    }
  }

  /** Masking with `-a` (that is, `m - a` modulo `m`) clears the remainder. */
  lemma {:induction false} AndHigh(x: nat, a: nat, m: nat)
    requires PowerOfTwo(a) && PowerOfTwo(m) && a <= m && x < m
    ensures And(x, m - a) == x - x % a
    decreases a
  {
    if a == 1 {
      AndLow(x, m);
      ModUnique(x, m, 0, x);
    } else {
      AndHigh(x / 2, a / 2, m / 2);
      HalfDifference(a, m);
      AndHighStep(x, a, m - a);
    }
  }

  lemma AndHighStep(x: nat, a: nat, y: nat)
    requires a >= 2 && a % 2 == 0 && y % 2 == 0
    requires And(x / 2, y / 2) == x / 2 - (x / 2) % (a / 2)
    ensures And(x, y) == x - x % a
  {
    var low := (x / 2) % (a / 2);
    assert x % a == 2 * low + x % 2 by { DivModStep(x, a); }
    assert And(x, y) == 2 * (x / 2 - low) by { AndEven(x, y); }
  }

  lemma HalfDifference(a: nat, m: nat)
    requires a % 2 == 0 && m % 2 == 0 && a <= m
    ensures (m - a) % 2 == 0 && (m - a) / 2 == m / 2 - a / 2
  {
  }

  lemma {:induction false} PowersDivide(a: nat, m: nat)
    requires PowerOfTwo(a) && PowerOfTwo(m) && a <= m
    ensures m % a == 0
    decreases a
  {
    if a > 1 {
      PowersDivide(a / 2, m / 2);
      DivModStep(m, a);
    }
  }

  lemma {:induction false} AndEven(x: nat, y: nat)
    requires x % 2 == 0 || y % 2 == 0
    ensures And(x, y) == 2 * And(x / 2, y / 2)
  {
  }

  /** `x & (x - 1)` is zero exactly for a power of two (zero aside). */
  lemma {:induction false} PowerOfTwoTest(x: nat)
    requires x > 0
    ensures And(x, x - 1) == 0 <==> PowerOfTwo(x)
    decreases x
  {
    if x == 1 {
    } else if x % 2 == 1 {
      assert And(x / 2, (x - 1) / 2) == x / 2 by { AndSelf(x / 2); }
    } else {
      PowerOfTwoTest(x / 2);
      assert (x - 1) / 2 == x / 2 - 1;
      AndEven(x, x - 1);
    }
  }

  lemma {:induction false} AndSelf(x: nat)
    ensures And(x, x) == x
  {
    if x != 0 { AndSelf(x / 2); }
  }

  /** `RoundUp` is the least multiple of `a` at or above `v`. */
  lemma RoundUpLeast(v: nat, a: nat)
    requires a > 0
    ensures v <= RoundUp(v, a) < v + a
    ensures RoundUp(v, a) % a == 0
    ensures forall x: nat :: v <= x && x % a == 0 ==> RoundUp(v, a) <= x
  {
    var q := (v + a - 1) / a;
    ModUnique(q * a, a, q, 0);
    forall x: nat | v <= x && x % a == 0
      ensures q * a <= x
    {
      NoMultipleBetween(x, v, a);
    }
  }

  lemma NoMultipleBetween(x: nat, v: nat, a: nat)
    requires a > 0 && v <= x && x % a == 0
    ensures (v + a - 1) / a * a <= x
  {
    var q, y := (v + a - 1) / a, x / a;
    FloorMultiple(x, a);
    FloorMultiple(v + a - 1, a);
    if q > y {
      MulLess(y, q, a);
    } else if q < y {
      MulLess(q, y, a);
    }
  }

  lemma RoundUpId(v: nat, a: nat)
    requires a > 0 && v % a == 0
    ensures RoundUp(v, a) == v
  {
    RoundUpLeast(v, a);
  }

  /** The `ALIGN` macro on 32-bit operands: `(v + a - 1) & -a`, where `-a` is `M - a`. */
  function Align32(v: u32, a: u32): (r: u32)
    requires a > 0
  {
    AndBound((v + a - 1) % M, M - a);
    And((v + a - 1) % M, M - a)
  }

  lemma {:induction false} AndBound(x: nat, y: nat)
    ensures And(x, y) <= x
  {
    if x != 0 && y != 0 { AndBound(x / 2, y / 2); }
  }

  lemma MIsPower()
    ensures PowerOfTwo(M)
  {
    assert PowerOfTwo(0x100);
    assert PowerOfTwo(0x1_0000);
    assert PowerOfTwo(0x100_0000);
  }

  lemma AlignMask(v: nat, a: nat)
    requires PowerOfTwo(a) && a < M && v < M
    ensures Align32(v, a) == var w := (v + a - 1) % M; w - w % a
  {
    MaskHigh((v + a - 1) % M, a);
  }

  lemma MaskHigh(w: u32, a: u32)
    requires PowerOfTwo(a)
    ensures And(w, M - a) == w - w % a
  {
    MIsPower();
    AndHigh(w, a, M);
  }

  /** `ALIGN` is exact rounding, except that rounding up to 2^32 gives 0. */
  lemma AlignExact(v: nat, a: nat)
    requires PowerOfTwo(a) && a < M && v < M
    ensures RoundUp(v, a) <= M
    ensures Align32(v, a) == if RoundUp(v, a) == M then 0 else RoundUp(v, a)
  {
    if v + a - 1 < M {
      AlignBelow(v, a);
      RoundUpBelow(v, a);
    } else {
      AlignAtTop(v, a);
      RoundUpAtTop(v, a);
    }
  }

  lemma AlignBelow(v: nat, a: nat)
    requires PowerOfTwo(a) && a < M && v < M && v + a - 1 < M
    ensures Align32(v, a) == RoundUp(v, a)
  {
    assert (v + a - 1) % M == v + a - 1;
    AlignMask(v, a);
    FloorMultiple(v + a - 1, a);
  }

  lemma AlignAtTop(v: nat, a: nat)
    requires PowerOfTwo(a) && a < M && v < M <= v + a - 1
    ensures Align32(v, a) == 0
  {
    var w := v + a - 1 - M;
    assert (v + a - 1) % M == w;
    assert w % a == w by { ModUnique(w, a, 0, w); }
    AlignMask(v, a);
  }

  lemma RoundUpBelow(v: nat, a: nat)
    requires a > 0 && v + a - 1 < M
    ensures RoundUp(v, a) < M
  {
  }

  lemma RoundUpAtTop(v: nat, a: nat)
    requires PowerOfTwo(a) && a < M && v < M <= v + a - 1
    ensures RoundUp(v, a) == M
  {
    MIsPower();
    PowersDivide(a, M);
    var k := M / a;
    assert M == k * a by { FloorMultiple(M, a); }
    ModUnique(v + a - 1, a, k, v + a - 1 - M);
  }
}
