/** 128- and 256-bit arithmetic on 64-bit words (include/sbi_utils/softfloat/primitives.h and opts-GCC.h).
    Every operation wraps around where the unsigned types of the source do. */
module Wide {
  import opened Arith
  import opened Blocks
  import opened Words
  import opened Bitmap

  /** 2^32 and 2^128. */
  const W32: nat := 0x1_0000_0000
  const W128: nat := 0x1_0000_0000_0000_0000_0000_0000_0000_0000

  datatype Uint128 = Uint128(v64: Word, v0: Word)

  function Value(z: Uint128): nat {
    z.v64 * 0x1_0000_0000_0000_0000 + z.v0
  }

  // ---- Shifts that keep a sticky bit ----

  /** What a jamming shift means: the bits shifted out are remembered in the lowest bit. */
  function Jam(a: nat, d: nat): nat {
    OrBit(Shr(a, d), Low(a, d) != 0)
  }

  /** `x | (b != 0)`. */
  function OrBit(x: nat, b: bool): nat {
    if b && x % 2 == 0 then x + 1 else x
  }

  /** Jamming shifts compose. */
  lemma {:induction false} JamJam(a: nat, c: nat, d: nat)
    ensures Jam(Jam(a, c), d) == Jam(a, c + d)
  {
    if c > 0 {
      JamHalf(a, c);
      JamHalf(a, c + d);
      JamJam(OrBit(a / 2, a % 2 == 1), c - 1, d);
    }
  }

  /** A jamming shift by `d` is a jamming shift by one and then by the rest. */
  lemma JamHalf(a: nat, d: nat)
    requires d > 0
    ensures Jam(a, d) == Jam(OrBit(a / 2, a % 2 == 1), d - 1)
  {
    var h := OrBit(a / 2, a % 2 == 1);
    assert Shr(a, d) == Shr(a / 2, d - 1) && Low(a, d) == a % 2 + 2 * Low(a / 2, d - 1);
    if d > 1 {
      assert h / 2 == a / 2 / 2;
      assert Shr(h, d - 1) == Shr(h / 2, d - 2) && Low(h, d - 1) == h % 2 + 2 * Low(h / 2, d - 2);
      assert Shr(a / 2, d - 1) == Shr(a / 2 / 2, d - 2);
      assert Low(a / 2, d - 1) == a / 2 % 2 + 2 * Low(a / 2 / 2, d - 2);
    } else {
      assert Low(a / 2, 0) == 0 && Shr(a / 2, 0) == a / 2;
    }
  }

  /** What is shifted up against the top of the word is zero when the low bits were. */
  lemma {:induction false} ShlZero(w: nat, n: nat, d: nat)
    ensures Shl(w, n, n + d) == 0 <==> Low(w, d) == 0
  {
    if n > 0 {
      ShlZero(w, n - 1, d);
    }
  }

  /** A number that `d` shifts leave at most one bit of jams to that bit or to the sticky one. */
  lemma {:induction false} JamAll(a: nat, d: nat)
    requires a < Pow2(d + 1)
    ensures Jam(a, d) == if a != 0 then 1 else 0
  {
    if d > 0 {
      JamAll(a / 2, d - 1);
    }
  }

  /** The mask `(1 << d) - 1` keeps the lowest `d` bits. */
  lemma {:induction false} MaskIsLow(a: nat, d: nat)
    ensures Both(a, Pow2(d) - 1) == Low(a, d)
  {
    if a == 0 {
      ZeroLow(d);
    } else if d == 0 {
      NoMask(a);
    } else {
      MaskIsLow(a / 2, d - 1);
      assert (Pow2(d) - 1) / 2 == Pow2(d - 1) - 1 && (Pow2(d) - 1) % 2 == 1;
    }
  }

  lemma {:induction false} ZeroLow(d: nat)
    ensures Low(0, d) == 0
  {
    if d > 0 {
      ZeroLow(d - 1);
    }
  }

  lemma {:induction false} NoMask(a: nat)
    ensures Both(a, 0) == 0
  {
    if a > 0 {
      NoMask(a / 2);
    }
  }

  /** `softfloat_shortShiftRightJam64`, which masks the bits that fall off where `softfloat_shiftRightJam64` shifts
      them up. */
  function ShortShiftRightJam64(a: Word, dist: nat): (r: nat)
    requires 1 <= dist <= 63
    ensures r == Jam(a, dist)
  {
    MaskIsLow(a, dist);
    OrBit(Shr(a, dist), Both(a, Pow2(dist) - 1) != 0)
  }

  /** `softfloat_shiftRightJam64`, for any distance. */
  function ShiftRightJam64(a: Word, dist: nat): (r: nat)
    requires dist >= 1
    ensures r == Jam(a, dist)
  {
    if dist < 63 then
      ShlZero(a, 64 - dist, dist);
      OrBit(Shr(a, dist), Shl(a, 64 - dist, 64) != 0)
    else
      SpaceIsPow2();
      Pow2Monotone(64, dist + 1);
      JamAll(a, dist);
      if a != 0 then 1 else 0
  }

  /** The two agree on all distances that both take. */
  lemma ShortAgrees(a: Word, dist: nat)
    requires 1 <= dist <= 63
    ensures ShortShiftRightJam64(a, dist) == ShiftRightJam64(a, dist)
  {
  }

  /** `softfloat_shiftRightJam32`. */
  function ShiftRightJam32(a: nat, dist: nat): (r: nat)
    requires a < Pow2(32) && dist >= 1
    ensures r == Jam(a, dist)
  {
    if dist < 31 then
      ShlZero(a, 32 - dist, dist);
      OrBit(Shr(a, dist), Shl(a, 32 - dist, 32) != 0)
    else
      Pow2Monotone(32, dist + 1);
      JamAll(a, dist);
      if a != 0 then 1 else 0
  }

  /** The bits of two words put together. */
  lemma {:induction false} CatBits(hi: nat, lo: nat, n: nat, i: nat)
    requires lo < Pow2(n)
    ensures Bit(hi * Pow2(n) + lo, i) <==> if i < n then Bit(lo, i) else Bit(hi, i - n)
  {
    if n > 0 {
      var v := hi * Pow2(n) + lo;
      CatHalf(hi, lo, n);
      if i > 0 {
        CatBits(hi, lo / 2, n - 1, i - 1);
      }
    }
  }

  lemma CatHalf(hi: nat, lo: nat, n: nat)
    requires n > 0
    ensures (hi * Pow2(n) + lo) / 2 == hi * Pow2(n - 1) + lo / 2 && (hi * Pow2(n) + lo) % 2 == lo % 2
  {
    var p := hi * Pow2(n - 1);
    assert hi * Pow2(n) == 2 * p;
  }

  lemma ValueBits(z: Uint128, i: nat)
    ensures Bit(Value(z), i) <==> if i < 64 then Bit(z.v0, i) else Bit(z.v64, i - 64)
    ensures Value(z) < W128
  {
    SpaceIsPow2();
    CatBits(z.v64, z.v0, 64, i);
  }

  lemma BitJam(a: nat, d: nat, i: nat)
    ensures Bit(Jam(a, d), i) <==> Bit(a, d + i) || (i == 0 && Low(a, d) != 0)
  {
    BitShr(a, d, i);
    if i > 0 {
      assert Jam(a, d) / 2 == Shr(a, d) / 2;
    }
  }

  /** `softfloat_shortShiftRightJam128`. */
  function ShortShiftRightJam128(a: Uint128, dist: nat): (z: Uint128)
    requires 1 <= dist <= 63
    ensures Value(z) == Jam(Value(a), dist)
  {
    ShrBound(a.v64, dist);
    ShortJamWord(a, dist);
    var z := Uint128(Shr(a.v64, dist), ShortJamLow(a, dist));
    ShortJamBits(a, dist, z);
    z
  }

  function ShortJamLow(a: Uint128, dist: nat): nat
    requires 1 <= dist <= 63
  {
    OrBit(Either(Shl(a.v64, 64 - dist, 64), Shr(a.v0, dist)), Shl(a.v0, 64 - dist, 64) != 0)
  }

  lemma ShortJamWord(a: Uint128, dist: nat)
    requires 1 <= dist <= 63
    ensures ShortJamLow(a, dist) < SPACE
  {
    SpaceIsPow2();
    BitShl(a.v64, 64 - dist, 64, 0);
    ShrBound(a.v0, dist);
    EitherBound(Shl(a.v64, 64 - dist, 64), Shr(a.v0, dist), 64);
  }

  lemma ShortJamBits(a: Uint128, dist: nat, z: Uint128)
    requires 1 <= dist <= 63 && z.v64 == Shr(a.v64, dist) && z.v0 == ShortJamLow(a, dist)
    ensures Value(z) == Jam(Value(a), dist)
  {
    LowValue(a, dist);
    ShlZero(a.v0, 64 - dist, dist);
    forall i: nat | i < 128 ensures Bit(Value(z), i) <==> Bit(Jam(Value(a), dist), i) {
      ShortJamBit(a, dist, z, i);
    }
    W128IsPow2();
    ValueBits(z, 0);
    ValueBits(a, 0);
    ShrBound(Value(a), dist);
    JamBound(Value(a), dist, 128);
    SameBits(Value(z), Jam(Value(a), dist), 128);
  }

  lemma W128IsPow2()
    ensures Pow2(128) == W128
  {
    SpaceIsPow2();
    Pow2Add(64, 64);
  }

  lemma JamBound(a: nat, d: nat, n: nat)
    requires a < Pow2(n) && n > 0
    ensures Jam(a, d) < Pow2(n)
  {
    ShrBound(a, d);
    assert Pow2(n) == 2 * Pow2(n - 1);
    hide Shr, Low, Pow2;
    OrBelow(Shr(a, d), Low(a, d) != 0, Pow2(n - 1));
  }

  lemma OrBelow(x: nat, b: bool, half: nat)
    requires x < 2 * half
    ensures OrBit(x, b) < 2 * half
  {
    if x == 2 * half - 1 {
      assert x == 2 * (half - 1) + 1;
    }
  }

  lemma LowValue(a: Uint128, dist: nat)
    requires dist <= 64
    ensures Low(Value(a), dist) == Low(a.v0, dist)
  {
    SpaceIsPow2();
    LowCat(a.v64, a.v0, 64, dist);
  }

  lemma {:induction false} LowCat(hi: nat, lo: nat, n: nat, d: nat)
    requires d <= n
    ensures Low(hi * Pow2(n) + lo, d) == Low(lo, d)
  {
    if d > 0 {
      CatHalf(hi, lo, n);
      LowCat(hi, lo / 2, n - 1, d - 1);
    }
  }

  lemma ShortJamBit(a: Uint128, dist: nat, z: Uint128, i: nat)
    requires 1 <= dist <= 63 && z.v64 == Shr(a.v64, dist) && z.v0 == ShortJamLow(a, dist)
    requires Low(Value(a), dist) != 0 <==> Shl(a.v0, 64 - dist, 64) != 0
    ensures Bit(Value(z), i) <==> Bit(Jam(Value(a), dist), i)
  {
    ValueBits(z, i);
    BitJam(Value(a), dist, i);
    ValueBits(a, dist + i);
    if i < 64 {
      var x := Either(Shl(a.v64, 64 - dist, 64), Shr(a.v0, dist));
      BitEither(Shl(a.v64, 64 - dist, 64), Shr(a.v0, dist), i);
      BitShl(a.v64, 64 - dist, 64, i);
      BitShr(a.v0, dist, i);
      SpaceIsPow2();
      if dist + i >= 64 {
        HighBitsZero(a.v0, 64, dist + i);
      }
      if i > 0 {
        assert z.v0 / 2 == x / 2;
      }
    } else {
      BitShr(a.v64, dist, i - 64);
    }
  }

  // ---- Sums, differences and products ----

  /** What an unsigned 64-bit result keeps. */
  function Wrap64(x: int): Word { x % 0x1_0000_0000_0000_0000 }

  function Wrap128(x: int): (r: nat)
    ensures r < W128
  {
    x % 0x1_0000_0000_0000_0000_0000_0000_0000_0000
  }

  /** One turn around at most. */
  lemma Turn64(x: int)
    requires -0x1_0000_0000_0000_0000 <= x < 2 * 0x1_0000_0000_0000_0000
    ensures Wrap64(x) == if x < 0 then x + 0x1_0000_0000_0000_0000 else if x < 0x1_0000_0000_0000_0000 then x else x - 0x1_0000_0000_0000_0000
  {
  }

  lemma Turn128(x: int)
    requires 0 <= x + W128 < 3 * W128
    ensures Wrap128(x) == if x < 0 then x + W128 else if x < W128 then x else x - W128
  {
  }

  /** `softfloat_add128`. */
  function Add128(a: Uint128, b: Uint128): (z: Uint128)
    ensures Value(z) == Wrap128(Value(a) + Value(b))
  {
    var v0 := Wrap64(a.v0 + b.v0);
    var v64 := a.v64 + b.v64 + if v0 < a.v0 then 1 else 0;
    Turn64(a.v0 + b.v0);
    Turn64(v64);
    Turn128(Value(a) + Value(b));
    Uint128(Wrap64(v64), v0)
  }

  /** `softfloat_sub128`. */
  function Sub128(a: Uint128, b: Uint128): (z: Uint128)
    ensures Value(z) == Wrap128(Value(a) - Value(b))
  {
    var v64 := Wrap64(a.v64 - b.v64) - if a.v0 < b.v0 then 1 else 0;
    Turn64(a.v0 - b.v0);
    Turn64(a.v64 - b.v64);
    Turn64(v64);
    Turn128(Value(a) - Value(b));
    Uint128(Wrap64(v64), Wrap64(a.v0 - b.v0))
  }

  /** They undo each other, also where both wrap around. */
  lemma AddSub(a: Uint128, b: Uint128)
    ensures Sub128(Add128(a, b), b) == a
  {
    var c := Add128(a, b);
    Turn128(Value(a) + Value(b));
    Turn128(Value(c) - Value(b));
    ValueUnique(Sub128(c, b), a);
  }

  lemma ValueUnique(x: Uint128, y: Uint128)
    requires Value(x) == Value(y)
    ensures x == y
  {
  }

  lemma ProductBound(x: nat, y: nat, m: nat, n: nat)
    requires x < m && y < n
    ensures x * y <= (m - 1) * (n - 1)
  {
    MulMonotone(x, m - 1, y);
    MulMonotone(y, n - 1, m - 1);
  }

  /** `softfloat_mul64ByShifted32To128`. */
  function Mul64ByShifted32To128(a: Word, b: nat): (z: Uint128)
    requires b < W32
    ensures Value(z) == a * b * 0x1_0000_0000
  {
    var lo, hi := a % 0x1_0000_0000, a / 0x1_0000_0000;
    var mid := lo * b;
    ProductBound(lo, b, W32, W32);
    ProductBound(hi, b, W32, W32);
    SplitProduct(a, b);
    ShiftedAtoms(mid, hi * b);
    Uint128(Wrap64(hi * b + mid / 0x1_0000_0000), Wrap64(mid * 0x1_0000_0000))
  }

  lemma ShiftedAtoms(mid: nat, top: nat)
    requires mid <= (W32 - 1) * (W32 - 1) && top <= (W32 - 1) * (W32 - 1)
    ensures Value(Uint128(Wrap64(top + mid / 0x1_0000_0000), Wrap64(mid * 0x1_0000_0000))) == (top * 0x1_0000_0000 + mid) * 0x1_0000_0000
  {
    var c, l := mid / 0x1_0000_0000, mid % 0x1_0000_0000;
    assert mid * 0x1_0000_0000 == c * 0x1_0000_0000_0000_0000 + l * 0x1_0000_0000;
    assert Wrap64(mid * 0x1_0000_0000) == l * 0x1_0000_0000;
    assert Wrap64(top + c) == top + c;
  }

  lemma SplitProduct(a: nat, b: nat)
    ensures a * b == a / 0x1_0000_0000 * b * 0x1_0000_0000 + a % 0x1_0000_0000 * b
  {
    var hi, lo := a / 0x1_0000_0000, a % 0x1_0000_0000;
    assert a == hi * 0x1_0000_0000 + lo;
    MulDist(b, hi * 0x1_0000_0000, lo);
    MulAssoc(hi, 0x1_0000_0000, b);
    MulAssoc(hi, b, 0x1_0000_0000);
  }

  /** `softfloat_mul128By32`: the carry out of the low product is recovered from 32 bits of it. */
  function Mul128By32(a: Uint128, b: nat): (z: Uint128)
    requires b < W32
    ensures Value(z) == Wrap128(Value(a) * b)
  {
    var v0 := a.v0 * b % SPACE;
    var mid := a.v0 / W32 * b;
    var carry := (v0 / W32 - mid) % W32;
    var z := Uint128((a.v64 * b + (mid + carry) / W32) % SPACE, v0);
    CarryRecovered(a.v0, b);
    By32Value(a, b, z);
    z
  }

  lemma CarryRecovered(a0: Word, b: nat)
    requires b < W32
    ensures var mid := a0 / W32 * b;
            var carry := (a0 * b % SPACE / W32 - mid) % W32;
            (mid + carry) / W32 == a0 * b / SPACE
  {
    SplitProduct(a0, b);
    ProductBound(a0 % W32, b, W32, W32);
    CarryAtoms(a0 / W32 * b, a0 % W32 * b);
  }

  /** The same with the two partial products as they are. */
  lemma CarryAtoms(mid: nat, low: nat)
    requires low < 0x1_0000_0000_0000_0000
    ensures var p := mid * 0x1_0000_0000 + low;
            var carry := (p % 0x1_0000_0000_0000_0000 / 0x1_0000_0000 - mid) % 0x1_0000_0000;
            (mid + carry) / 0x1_0000_0000 == p / 0x1_0000_0000_0000_0000
  {
    var p, c := mid * 0x1_0000_0000 + low, low / 0x1_0000_0000;
    assert p / 0x1_0000_0000 == mid + c;
    assert p % 0x1_0000_0000_0000_0000 / 0x1_0000_0000 == (mid + c) % 0x1_0000_0000;
    CarryBack(mid, c);
  }

  lemma CarryBack(mid: nat, c: nat)
    requires c < 0x1_0000_0000
    ensures ((mid + c) % 0x1_0000_0000 - mid) % 0x1_0000_0000 == c
  {
    var k := (mid + c) / 0x1_0000_0000;
    assert (mid + c) % 0x1_0000_0000 - mid == c - k * 0x1_0000_0000;
    Below32(c, k);
  }

  lemma Below32(c: nat, k: nat)
    requires c < 0x1_0000_0000
    ensures (c - k * 0x1_0000_0000) % 0x1_0000_0000 == c
  {
  }

  lemma By32Value(a: Uint128, b: nat, z: Uint128)
    requires z.v0 == a.v0 * b % SPACE && z.v64 == (a.v64 * b + a.v0 * b / SPACE) % SPACE
    ensures Value(z) == Wrap128(Value(a) * b)
  {
    var p, q := a.v64 * b, a.v0 * b;
    MulDist(b, a.v64 * 0x1_0000_0000_0000_0000, a.v0);
    MulAssoc(a.v64, 0x1_0000_0000_0000_0000, b);
    MulAssoc(a.v64, b, 0x1_0000_0000_0000_0000);
    assert Value(a) * b == p * 0x1_0000_0000_0000_0000 + q;
    By32Atoms(p, q);
  }

  lemma By32Atoms(p: nat, q: nat)
    ensures (p + q / 0x1_0000_0000_0000_0000) % 0x1_0000_0000_0000_0000 * 0x1_0000_0000_0000_0000
              + q % 0x1_0000_0000_0000_0000
            == (p * 0x1_0000_0000_0000_0000 + q) % 0x1_0000_0000_0000_0000_0000_0000_0000_0000
  {
    var x, r := p + q / 0x1_0000_0000_0000_0000, q % 0x1_0000_0000_0000_0000;
    var k, y := x / 0x1_0000_0000_0000_0000, x % 0x1_0000_0000_0000_0000;
    assert p * 0x1_0000_0000_0000_0000 + q == x * 0x1_0000_0000_0000_0000 + r;
    Below128(k, y * 0x1_0000_0000_0000_0000 + r);
  }

  lemma Below128(k: nat, r: nat)
    requires r < 0x1_0000_0000_0000_0000_0000_0000_0000_0000
    ensures (k * 0x1_0000_0000_0000_0000_0000_0000_0000_0000 + r) % 0x1_0000_0000_0000_0000_0000_0000_0000_0000 == r
  {
  }

  /** The number in an array of four words, lowest first. */
  function Value256(z: seq<Word>): nat
    requires |z| == 4
  {
    Value(Uint128(z[1], z[0])) + Value(Uint128(z[3], z[2])) * 0x1_0000_0000_0000_0000_0000_0000_0000_0000
  }

  /** The 128-bit product of two words. */
  function Product(a: Word, b: Word): nat {
    a * b
  }

  /** `softfloat_mul128To256M`: the whole product, from four products of words. */
  method Mul128To256M(a64: Word, a0: Word, b64: Word, b0: Word, z: array<Word>)
    requires z.Length == 4
    modifies z
    ensures Value256(z[..]) == Value(Uint128(a64, a0)) * Value(Uint128(b64, b0))
  {
    Products(a64, a0, b64, b0);
    var z0, z128 := Accumulate(Product(a0, b0), Product(a64, b0), Product(a0, b64), Product(a64, b64));
    StoreWords(z0, z128, z);
  }

  method StoreWords(low: nat, high: nat, z: array<Word>)
    requires z.Length == 4 && low < W128 && high < W128
    modifies z
    ensures Value256(z[..]) == low + high * 0x1_0000_0000_0000_0000_0000_0000_0000_0000
  {
    z[0], z[1], z[2], z[3] := Wrap64(low), low / 0x1_0000_0000_0000_0000, Wrap64(high), high / 0x1_0000_0000_0000_0000;
    assert z[..] == [Wrap64(low), low / 0x1_0000_0000_0000_0000, Wrap64(high), high / 0x1_0000_0000_0000_0000];
    FourWords(low, high);
  }

  lemma FourWords(low: nat, high: nat)
    requires low < W128 && high < W128
    ensures Value256([Wrap64(low), low / 0x1_0000_0000_0000_0000, Wrap64(high), high / 0x1_0000_0000_0000_0000])
      == low + high * 0x1_0000_0000_0000_0000_0000_0000_0000_0000
  {
  }

  /** The sums of the 128-bit products, with the carry out of the middle one and the carry out of the low half. */
  method Accumulate(low: nat, mid1: nat, mid2: nat, high: nat) returns (z0: nat, z128: nat)
    requires low < W128 && mid1 < W128 && mid2 < W128 && high < W128
    requires high * 0x1_0000_0000_0000_0000_0000_0000_0000_0000 + (mid1 + mid2) * 0x1_0000_0000_0000_0000 + low
      < 0x1_0000_0000_0000_0000_0000_0000_0000_0000 * 0x1_0000_0000_0000_0000_0000_0000_0000_0000
    ensures z0 < W128 && z128 < W128
    ensures z0 + z128 * 0x1_0000_0000_0000_0000_0000_0000_0000_0000
      == high * 0x1_0000_0000_0000_0000_0000_0000_0000_0000 + (mid1 + mid2) * 0x1_0000_0000_0000_0000 + low
  {
    z0, z128 := low, high;
    var mid := Wrap128(mid1 + mid2);
    Turn128(mid1 + mid2);
    ghost var carry := if mid < mid1 then 1 else 0;
    assert mid1 + mid2 == carry * 0x1_0000_0000_0000_0000_0000_0000_0000_0000 + mid;
    z128 := Wrap128(z128 + (if mid < mid1 then 0x1_0000_0000_0000_0000 else 0) + mid / 0x1_0000_0000_0000_0000);
    ghost var mh, ml := mid / 0x1_0000_0000_0000_0000, mid % 0x1_0000_0000_0000_0000;
    assert mid == mh * 0x1_0000_0000_0000_0000 + ml;
    NoOverflow(high, carry, mh, ml, low);
    assert z128 == high + carry * 0x1_0000_0000_0000_0000 + mh;
    mid := Wrap128(mid * 0x1_0000_0000_0000_0000);
    ShiftUp(mh, ml);
    z0 := Wrap128(z0 + mid);
    Turn128(low + ml * 0x1_0000_0000_0000_0000);
    ghost var last := if z0 < mid then 1 else 0;
    assert z0 + last * 0x1_0000_0000_0000_0000_0000_0000_0000_0000 == low + ml * 0x1_0000_0000_0000_0000;
    z128 := Wrap128(z128 + if z0 < mid then 1 else 0);
    Halves(low, carry, mh, ml, high, z0, last);
  }

  lemma Halves(low: nat, carry: nat, mh: nat, ml: nat, high: nat, z0: nat, last: nat)
    requires z0 + last * 0x1_0000_0000_0000_0000_0000_0000_0000_0000 == low + ml * 0x1_0000_0000_0000_0000
    ensures z0 + (high + carry * 0x1_0000_0000_0000_0000 + mh + last) * 0x1_0000_0000_0000_0000_0000_0000_0000_0000
      == high * 0x1_0000_0000_0000_0000_0000_0000_0000_0000 + (carry * 0x1_0000_0000_0000_0000_0000_0000_0000_0000 + mh * 0x1_0000_0000_0000_0000 + ml) * 0x1_0000_0000_0000_0000 + low
  {
  }

  /** The upper half of the product cannot wrap around, with or without the last carry. */
  lemma NoOverflow(high: nat, carry: nat, mh: nat, ml: nat, low: nat)
    requires high * 0x1_0000_0000_0000_0000_0000_0000_0000_0000 + (carry * 0x1_0000_0000_0000_0000_0000_0000_0000_0000 + mh * 0x1_0000_0000_0000_0000 + ml) * 0x1_0000_0000_0000_0000 + low < 0x1_0000_0000_0000_0000_0000_0000_0000_0000 * 0x1_0000_0000_0000_0000_0000_0000_0000_0000
    ensures high + carry * 0x1_0000_0000_0000_0000 + mh < 0x1_0000_0000_0000_0000_0000_0000_0000_0000
    ensures low + ml * 0x1_0000_0000_0000_0000 >= 0x1_0000_0000_0000_0000_0000_0000_0000_0000 ==> high + carry * 0x1_0000_0000_0000_0000 + mh + 1 < 0x1_0000_0000_0000_0000_0000_0000_0000_0000
  {
  }

  lemma ShiftUp(mh: nat, ml: nat)
    requires ml < 0x1_0000_0000_0000_0000
    ensures Wrap128((mh * 0x1_0000_0000_0000_0000 + ml) * 0x1_0000_0000_0000_0000) == ml * 0x1_0000_0000_0000_0000
  {
    assert (mh * 0x1_0000_0000_0000_0000 + ml) * 0x1_0000_0000_0000_0000 == mh * 0x1_0000_0000_0000_0000_0000_0000_0000_0000 + ml * 0x1_0000_0000_0000_0000;
    WrapWhole(mh, ml * 0x1_0000_0000_0000_0000);
  }

  lemma WrapWhole(q: nat, r: nat)
    requires r < 0x1_0000_0000_0000_0000_0000_0000_0000_0000
    ensures Wrap128(q * 0x1_0000_0000_0000_0000_0000_0000_0000_0000 + r) == r
  {
  }

  /** The four partial products are less than 2^128 and make up the whole one, which is less than 2^256. */
  lemma Products(a64: Word, a0: Word, b64: Word, b0: Word)
    ensures a0 * b0 < W128 && a64 * b0 < W128 && a0 * b64 < W128 && a64 * b64 < W128
    ensures Value(Uint128(a64, a0)) * Value(Uint128(b64, b0))
      == a64 * b64 * 0x1_0000_0000_0000_0000_0000_0000_0000_0000 + (a64 * b0 + a0 * b64) * 0x1_0000_0000_0000_0000 + a0 * b0
    ensures a64 * b64 * 0x1_0000_0000_0000_0000_0000_0000_0000_0000 + (a64 * b0 + a0 * b64) * 0x1_0000_0000_0000_0000 + a0 * b0 < 0x1_0000_0000_0000_0000_0000_0000_0000_0000 * 0x1_0000_0000_0000_0000_0000_0000_0000_0000
  {
    ProductBound(a0, b0, SPACE, SPACE);
    ProductBound(a64, b0, SPACE, SPACE);
    ProductBound(a0, b64, SPACE, SPACE);
    ProductBound(a64, b64, SPACE, SPACE);
    var s: nat := 0x1_0000_0000_0000_0000;
    calc {
      (a64 * s + a0) * (b64 * s + b0);
      { MulDist(b64 * s + b0, a64 * s, a0); MulDist(a64 * s, b64 * s, b0); MulDist(a0, b64 * s, b0); }
      (a64 * s) * (b64 * s) + (a64 * s) * b0 + (a0 * (b64 * s) + a0 * b0);
    }
    MulSwap(a64, b64, s);
    MulSwap(a64, b0, s);
    MulSwap(a0, b64, s);
  }

  lemma MulSwap(x: nat, y: nat, s: nat)
    ensures (x * s) * y == x * y * s && x * (y * s) == x * y * s
    ensures (x * s) * (y * s) == x * y * (s * s)
  {
  }
}
