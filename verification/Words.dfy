/** Bits of 64-bit words as naturals, and the single-word searches of include/sbi/sbi_bitops.h. */
module Words {
  import opened Arith
  import opened Blocks

  /** Bit `i` of `w`. */
  predicate Bit(w: nat, i: nat) {
    if i == 0 then w % 2 == 1 else Bit(w / 2, i - 1)
  }

  /** `w >> n`. */
  function Shr(w: nat, n: nat): nat {
    if n == 0 then w else Shr(w / 2, n - 1)
  }

  /** `w & ((1 << n) - 1)`. */
  function Low(w: nat, n: nat): nat {
    if n == 0 then 0 else w % 2 + 2 * Low(w / 2, n - 1)
  }

  /** The bits from `n` on, in their places: `w & (~0 << n)`. */
  function High(w: nat, n: nat): nat { Floor(w, n) }

  lemma {:induction false} BitShr(w: nat, n: nat, i: nat)
    ensures Bit(Shr(w, n), i) <==> Bit(w, n + i)
  {
    if n > 0 {
      BitShr(w / 2, n - 1, i);
    }
  }

  lemma {:induction false} BitLow(w: nat, n: nat, i: nat)
    ensures Bit(Low(w, n), i) <==> i < n && Bit(w, i)
    ensures Low(w, n) < Pow2(n)
  {
    if n == 0 {
      ZeroBits(i);
    } else if i > 0 {
      BitLow(w / 2, n - 1, i - 1);
      assert Low(w, n) / 2 == Low(w / 2, n - 1);
    } else {
      BitLow(w / 2, n - 1, 0);
    }
  }

  lemma {:induction false} ZeroBits(i: nat)
    ensures !Bit(0, i)
  {
    if i > 0 {
      ZeroBits(i - 1);
    }
  }

  lemma {:induction false} BitHigh(w: nat, n: nat, i: nat)
    ensures Bit(High(w, n), i) <==> n <= i && Bit(w, i)
  {
    if n > 0 && i > 0 {
      BitHigh(w / 2, n - 1, i - 1);
      assert Floor(w, n) / 2 == Floor(w / 2, n - 1);
    }
  }

  /** `w | ((1 << n) - 1)`. */
  function WithLow(w: nat, n: nat): nat {
    if n == 0 then w else 1 + 2 * WithLow(w / 2, n - 1)
  }

  lemma {:induction false} BitWithLow(w: nat, n: nat, i: nat)
    ensures Bit(WithLow(w, n), i) <==> i < n || Bit(w, i)
  {
    if n > 0 && i > 0 {
      BitWithLow(w / 2, n - 1, i - 1);
      assert WithLow(w, n) / 2 == WithLow(w / 2, n - 1);
    }
  }

  /** `~w` in `n` bits. */
  function Not(w: nat, n: nat): nat {
    if n == 0 then 0 else 1 - w % 2 + 2 * Not(w / 2, n - 1)
  }

  lemma {:induction false} BitNot(w: nat, n: nat, i: nat)
    ensures Bit(Not(w, n), i) <==> i < n && !Bit(w, i)
    ensures Not(w, n) < Pow2(n)
  {
    if n == 0 {
      ZeroBits(i);
    } else if i > 0 {
      BitNot(w / 2, n - 1, i - 1);
      assert Not(w, n) / 2 == Not(w / 2, n - 1);
    } else {
      BitNot(w / 2, n - 1, 0);
    }
  }

  /** A word that is not zero has a bit. */
  lemma {:induction false} SomeBit(w: nat, n: nat) returns (i: nat)
    requires 0 < w < Pow2(n)
    ensures i < n && Bit(w, i)
  {
    if w % 2 == 1 {
      i := 0;
    } else {
      i := SomeBit(w / 2, n - 1);
      i := i + 1;
    }
  }

  lemma {:induction false} HighBitsZero(w: nat, n: nat, i: nat)
    requires w < Pow2(n) && n <= i
    ensures !Bit(w, i)
  {
    if n == 0 {
      ZeroBits(i);
    } else {
      HighBitsZero(w / 2, n - 1, i - 1);
    }
  }

  /** `w | (~0 << n)` in `width` bits. */
  function WithHigh(w: nat, n: nat, width: nat): nat {
    if width == 0 then 0
    else if n == 0 then 1 + 2 * WithHigh(w / 2, 0, width - 1)
    else w % 2 + 2 * WithHigh(w / 2, n - 1, width - 1)
  }

  lemma {:induction false} BitWithHigh(w: nat, n: nat, width: nat, i: nat)
    ensures Bit(WithHigh(w, n, width), i) <==> i < width && (n <= i || Bit(w, i))
    ensures WithHigh(w, n, width) < Pow2(width)
  {
    if width == 0 {
      ZeroBits(i);
    } else {
      BitWithHigh(w / 2, if n == 0 then 0 else n - 1, width - 1, if i == 0 then 0 else i - 1);
      assert WithHigh(w, n, width) / 2 == WithHigh(w / 2, if n == 0 then 0 else n - 1, width - 1);
    }
  }

  /** `w << n` in `width` bits: what is shifted out at the top is lost. */
  function Shl(w: nat, n: nat, width: nat): nat {
    if n == 0 then Low(w, width) else if width == 0 then 0 else 2 * Shl(w, n - 1, width - 1)
  }

  lemma {:induction false} BitShl(w: nat, n: nat, width: nat, i: nat)
    ensures Bit(Shl(w, n, width), i) <==> n <= i < width && Bit(w, i - n)
    ensures Shl(w, n, width) < Pow2(width)
  {
    if n == 0 {
      BitLow(w, width, i);
    } else if width == 0 {
      ZeroBits(i);
    } else {
      BitShl(w, n - 1, width - 1, if i == 0 then 0 else i - 1);
      assert Shl(w, n, width) / 2 == Shl(w, n - 1, width - 1);
    }
  }

  /** `v | w`. */
  function Either(v: nat, w: nat): nat
    decreases v + w
  {
    if v == 0 && w == 0 then 0
    else (if v % 2 == 1 || w % 2 == 1 then 1 else 0) + 2 * Either(v / 2, w / 2)
  }

  lemma EitherHalf(v: nat, w: nat)
    ensures Either(v, w) / 2 == Either(v / 2, w / 2)
  {
  }

  lemma {:induction false} BitEither(v: nat, w: nat, i: nat)
    ensures Bit(Either(v, w), i) <==> Bit(v, i) || Bit(w, i)
    decreases v + w, i
  {
    if v == 0 && w == 0 {
      ZeroBits(i);
    } else if i > 0 {
      BitEither(v / 2, w / 2, i - 1);
      EitherHalf(v, w);
    }
  }

  lemma {:induction false} EitherBound(v: nat, w: nat, n: nat)
    requires v < Pow2(n) && w < Pow2(n)
    ensures Either(v, w) < Pow2(n)
  {
    if n > 0 {
      EitherBound(v / 2, w / 2, n - 1);
    }
  }

  /** `v & w`. */
  function Both(v: nat, w: nat): nat {
    if v == 0 then 0 else (if v % 2 == 1 && w % 2 == 1 then 1 else 0) + 2 * Both(v / 2, w / 2)
  }

  lemma {:induction false} BitBoth(v: nat, w: nat, i: nat)
    ensures Bit(Both(v, w), i) <==> Bit(v, i) && Bit(w, i)
  {
    if v == 0 {
      ZeroBits(i);
    } else if i > 0 {
      BitBoth(v / 2, w / 2, i - 1);
      assert Both(v, w) / 2 == Both(v / 2, w / 2);
    }
  }

  lemma {:induction false} ShrBound(w: nat, n: nat)
    ensures Shr(w, n) <= w
  {
    if n > 0 {
      ShrBound(w / 2, n - 1);
    }
  }

  lemma {:induction false} BothBound(v: nat, w: nat)
    ensures Both(v, w) <= v
  {
    if v > 0 {
      BothBound(v / 2, w / 2);
    }
  }

  /** A word is determined by its bits. */
  lemma {:induction false} SameBits(v: nat, w: nat, n: nat)
    requires v < Pow2(n) && w < Pow2(n)
    requires forall i: nat :: i < n ==> (Bit(v, i) <==> Bit(w, i))
    ensures v == w
  {
    if n > 0 {
      assert Bit(v, 0) <==> Bit(w, 0);
      forall i: nat | i < n - 1 ensures Bit(v / 2, i) <==> Bit(w / 2, i) {
        assert Bit(v, i + 1) <==> Bit(w, i + 1);
      }
      SameBits(v / 2, w / 2, n - 1);
    }
  }

  lemma ShlShl(w: nat, m: nat, n: nat, width: nat)
    ensures Shl(Shl(w, m, width), n, width) == Shl(w, m + n, width)
  {
    hide Shl, Bit, Pow2;
    var v := Shl(w, m, width);
    BitShl(v, n, width, 0);
    BitShl(w, m + n, width, 0);
    forall i: nat | i < width ensures Bit(Shl(v, n, width), i) <==> Bit(Shl(w, m + n, width), i) {
      BitShl(v, n, width, i);
      BitShl(w, m + n, width, i);
      if n <= i {
        BitShl(w, m, width, i - n);
      }
    }
    SameBits(Shl(v, n, width), Shl(w, m + n, width), width);
  }

  // ---- The searches in one word ----

  /** Bit `i` is the first that is set. */
  ghost predicate FirstBit(w: nat, i: nat) {
    Bit(w, i) && forall j: nat :: j < i ==> !Bit(w, j)
  }

  /** Bit `i` is the last of the word's that is set. */
  ghost predicate LastBit(w: nat, i: nat) {
    i < XLEN && Bit(w, i) && forall j: nat :: i < j < XLEN ==> !Bit(w, j)
  }

  /** The first set bit of `word` is one of the `n` lowest of `w`, the word shifted down by `num`. */
  ghost predicate Within(word: nat, w: nat, num: nat, n: nat) {
    && w == Shr(word, num) && num + n <= XLEN
    && (forall j: nat :: j < num ==> !Bit(word, j))
    && exists j: nat :: num <= j < num + n && Bit(word, j)
  }

  lemma Narrow(word: nat, w: nat, num: nat, n: nat)
    requires Within(word, w, num, n + n)
    ensures if Low(w, n) == 0 then Within(word, Shr(w, n), num + n, n) else Within(word, w, num, n)
  {
    if Low(w, n) == 0 {
      forall j: nat | num <= j < num + n ensures !Bit(word, j) {
        BitShr(word, num, j - num);
        BitLow(w, n, j - num);
        ZeroBits(j - num);
      }
      ShrShr(word, num, n);
    } else {
      BitLow(w, n, 0);
      var i := SomeBit(Low(w, n), n);
      BitLow(w, n, i);
      BitShr(word, num, i);
      assert Bit(word, num + i);
    }
  }

  lemma {:induction false} ShrShr(w: nat, m: nat, n: nat)
    ensures Shr(Shr(w, m), n) == Shr(w, m + n)
  {
    if m > 0 {
      ShrShr(w / 2, m - 1, n);
    }
  }

  /** One halving of the stretch in which the first set bit lies. */
  method HalveUp(ghost word: nat, w: nat, num: nat, n: nat) returns (w': nat, num': nat)
    requires Within(word, w, num, n + n)
    ensures Within(word, w', num', n)
  {
    Narrow(word, w, num, n);
    w', num' := w, num;
    if Low(w, n) == 0 {
      num' := num + n;
      w' := Shr(w, n);
    }
  }

  /** `__ffs`. */
  method Ffs(word: nat) returns (num: nat)
    requires 0 < word < SPACE
    ensures num < XLEN && FirstBit(word, num)
  {
    var w := word;
    num := 0;
    SpaceIsPow2();
    ghost var some := SomeBit(word, XLEN);
    assert Within(word, w, 0, 64);
    w, num := HalveUp(word, w, num, 32);
    w, num := HalveUp(word, w, num, 16);
    w, num := HalveUp(word, w, num, 8);
    w, num := HalveUp(word, w, num, 4);
    w, num := HalveUp(word, w, num, 2);
    w, num := HalveUp(word, w, num, 1);
  }

  /** The last set bit of `word` is one of the `n` highest of `w`, the word shifted up so that its
      bit `num` comes out on top. */
  ghost predicate WithinTop(word: nat, w: nat, num: nat, n: nat) {
    && num < XLEN && n <= num + 1 && w == Shl(word, XLEN - 1 - num, XLEN)
    && (forall j: nat :: num < j < XLEN ==> !Bit(word, j))
    && exists j: nat :: num + 1 - n <= j <= num && Bit(word, j)
  }

  lemma NarrowTop(word: nat, w: nat, num: nat, n: nat)
    requires WithinTop(word, w, num, n + n) && n <= XLEN
    ensures if High(w, XLEN - n) == 0 then num >= n && WithinTop(word, Shl(w, n, XLEN), num - n, n)
            else WithinTop(word, w, num, n)
  {
    var s := XLEN - 1 - num;
    if High(w, XLEN - n) == 0 {
      forall j: nat | num - n < j <= num ensures !Bit(word, j) {
        BitShl(word, s, XLEN, j + s);
        BitHigh(w, XLEN - n, j + s);
        ZeroBits(j + s);
      }
      ShlShl(word, s, n, XLEN);
    } else {
      SpaceIsPow2();
      BitShl(word, s, XLEN, 0);
      FloorBounds(w, XLEN - n);
      var i := SomeBit(High(w, XLEN - n), XLEN);
      BitHigh(w, XLEN - n, i);
      BitShl(word, s, XLEN, i);
      assert Bit(word, i - s);
    }
  }

  /** One halving of the stretch in which the last set bit lies. */
  method HalveDown(ghost word: nat, w: nat, num: nat, n: nat) returns (w': nat, num': nat)
    requires WithinTop(word, w, num, n + n) && n <= XLEN
    ensures WithinTop(word, w', num', n)
  {
    NarrowTop(word, w, num, n);
    w', num' := w, num;
    if High(w, XLEN - n) == 0 {
      num' := num - n;
      w' := Shl(w, n, XLEN);
    }
  }

  /** `__fls`. */
  method Fls(word: nat) returns (num: nat)
    requires 0 < word < SPACE
    ensures LastBit(word, num)
  {
    var w := word;
    num := XLEN - 1;
    SpaceIsPow2();
    ghost var some := SomeBit(word, XLEN);
    LowAll(word, XLEN);
    assert WithinTop(word, w, 63, 64);
    w, num := HalveDown(word, w, num, 32);
    w, num := HalveDown(word, w, num, 16);
    w, num := HalveDown(word, w, num, 8);
    w, num := HalveDown(word, w, num, 4);
    w, num := HalveDown(word, w, num, 2);
    w, num := HalveDown(word, w, num, 1);
  }

  lemma {:induction false} LowAll(w: nat, n: nat)
    requires w < Pow2(n)
    ensures Low(w, n) == w
  {
    if n > 0 {
      LowAll(w / 2, n - 1);
    }
  }
}
