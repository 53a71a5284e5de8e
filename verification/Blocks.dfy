/** Aligned power-of-two blocks of the 64-bit address space, and lib/sbi/sbi_math.c. */
module Blocks {
  import opened Arith

  const XLEN: nat := 64
  const SPACE: nat := 0x1_0000_0000_0000_0000

  lemma SpaceIsPow2()
    ensures Pow2(XLEN) == SPACE
  {
    assert Pow2(8) == 0x100 by { assert Pow2(2) == 4 && Pow2(4) == 16 && Pow2(6) == 64; }
    hide Pow2;
    Pow2Add(8, 8);
    assert Pow2(16) == 0x1_0000;
    Pow2Add(16, 16);
    assert Pow2(32) == 0x1_0000_0000;
    Pow2Add(32, 32);
    assert Pow2(64) == 0x1_0000_0000_0000_0000;
  }

  /** The start of the block of size 2^n that holds `x`: `x & ~((1UL << n) - 1)`. */
  function Floor(x: nat, n: nat): nat {
    if n == 0 then x else 2 * Floor(x / 2, n - 1)
  }

  predicate Aligned(b: nat, n: nat) { Floor(b, n) == b }

  lemma {:induction false} FloorBounds(x: nat, n: nat)
    ensures Floor(x, n) <= x < Floor(x, n) + Pow2(n)
  {
    if n > 0 {
      FloorBounds(x / 2, n - 1);
    }
  }

  /** The block that holds `y` is the one that starts at `Floor(x, n)` exactly when `y` lies in it. */
  lemma {:induction false} SameBlock(x: nat, y: nat, n: nat)
    ensures Floor(x, n) <= y < Floor(x, n) + Pow2(n) <==> Floor(y, n) == Floor(x, n)
  {
    if n > 0 {
      SameBlock(x / 2, y / 2, n - 1);
    }
  }

  /** A larger block is the same whether looked up from an address or from the start of its smaller block. */
  lemma {:induction false} FloorFloor(x: nat, m: nat, n: nat)
    requires m <= n
    ensures Floor(Floor(x, m), n) == Floor(x, n)
  {
    if m > 0 {
      FloorFloor(x / 2, m - 1, n - 1);
      assert Floor(x, m) / 2 == Floor(x / 2, m - 1);
    }
  }

  lemma FloorAligned(x: nat, m: nat, n: nat)
    requires m <= n
    ensures Aligned(Floor(x, n), m)
  {
    AlignedDown(x, m, n);
  }

  lemma {:induction false} AlignedDown(x: nat, m: nat, n: nat)
    requires m <= n
    ensures Floor(Floor(x, n), m) == Floor(x, n)
  {
    if m > 0 {
      AlignedDown(x / 2, m - 1, n - 1);
      assert Floor(x, n) / 2 == Floor(x / 2, n - 1);
    }
  }

  /** No block sticks out of a space of 2^m addresses. */
  lemma {:induction false} BlockInside(x: nat, n: nat, m: nat)
    requires x < Pow2(m) && n <= m
    ensures Floor(x, n) + Pow2(n) <= Pow2(m)
  {
    if n > 0 {
      BlockInside(x / 2, n - 1, m - 1);
    }
  }

  lemma {:induction false} WholeSpace(x: nat, n: nat)
    requires x < Pow2(n)
    ensures Floor(x, n) == 0
  {
    if n > 0 {
      WholeSpace(x / 2, n - 1);
    }
  }

  /** Blocks are nested or apart. */
  lemma Nested(a: nat, m: nat, b: nat, n: nat, x: nat)
    requires m <= n && Aligned(a, m) && Aligned(b, n) && a <= x < a + Pow2(m) && b <= x < b + Pow2(n)
    ensures Floor(a, n) == b && b <= a && a + Pow2(m) <= b + Pow2(n)
  {
    SameBlock(a, x, m);
    SameBlock(b, x, n);
    FloorFloor(x, m, n);
    NestedEnd(a, m, n);
    FloorBounds(a, n);
  }

  lemma {:induction false} NestedEnd(a: nat, m: nat, n: nat)
    requires m <= n && Aligned(a, m)
    ensures a + Pow2(m) <= Floor(a, n) + Pow2(n)
  {
    if m > 0 {
      assert a % 2 == 0;
      NestedEnd(a / 2, m - 1, n - 1);
    } else {
      FloorBounds(a, n);
    }
  }

  /** `log2roundup`: the least exponent whose power reaches `x`, but not more than XLEN. */
  method Log2Roundup(x: nat) returns (ret: nat)
    requires x < SPACE
    ensures ret <= XLEN && x <= Pow2(ret) && forall n :: 0 <= n < ret ==> Pow2(n) < x
  {
    SpaceIsPow2();
    ret := 0;
    while ret < XLEN
      invariant ret <= XLEN && forall n :: 0 <= n < ret ==> Pow2(n) < x
    {
      if x <= Pow2(ret) {
        return;
      }
      ret := ret + 1;
    }
  }
}
