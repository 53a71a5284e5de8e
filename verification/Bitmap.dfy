/** Bitmaps of any length (lib/sbi/sbi_bitops.c and the walks of include/sbi/sbi_bitops.h),
    against a scan bit by bit. `BITS_PER_LONG` is written out as 64. */
module Bitmap {
  import opened Arith
  import opened Blocks
  import opened Words

  type Word = w: nat | w < SPACE witness 0

  const ONES: Word := SPACE - 1

  /** Bit `i` of the bitmap: bits past its end count as clear. */
  predicate BitAt(m: seq<Word>, i: nat) {
    i / 64 < |m| && Bit(m[i / 64], i % 64)
  }

  /** No bit from `lo` up to `hi` has the value that is looked for. */
  ghost predicate Absent(m: seq<Word>, want: bool, lo: nat, hi: nat) {
    forall j: nat :: lo <= j < hi ==> BitAt(m, j) != want
  }

  /** `r` is the first position from `from` on whose bit is `want`, or `size` if there is none. */
  ghost predicate NextIs(m: seq<Word>, size: nat, from: nat, want: bool, r: nat) {
    if size <= from then r == size
    else from <= r <= size && Absent(m, want, from, r) && (r < size ==> BitAt(m, r) == want)
  }

  lemma NextAtMost(m: seq<Word>, size: nat, from: nat, want: bool, r: nat, k: nat)
    requires NextIs(m, size, from, want, r) && from <= k < size && BitAt(m, k) == want
    ensures r <= k
  {
  }

  /** There is only one such position. */
  lemma NextUnique(m: seq<Word>, size: nat, from: nat, want: bool, r: nat, s: nat)
    requires NextIs(m, size, from, want, r) && NextIs(m, size, from, want, s)
    ensures r == s
  {
    if r < s {
      NextAtMost(m, size, from, want, s, r);
    } else if s < r {
      NextAtMost(m, size, from, want, r, s);
    }
  }

  /** `u` shows, from bit `off` on and nowhere else, where word `p` of the bitmap has the wanted bits. */
  ghost predicate Shows(m: seq<Word>, p: nat, u: nat, off: nat, want: bool) {
    && p < |m|
    && forall k: nat :: k < 64 ==> (Bit(u, k) <==> off <= k && Bit(m[p], k) == want)
  }

  lemma AtWord(m: seq<Word>, p: nat, k: nat)
    requires p < |m| && k < 64
    ensures BitAt(m, 64 * p + k) <==> Bit(m[p], k)
  {
  }

  /** No wanted bit comes before the first bit of `u`. */
  lemma NoneBefore(m: seq<Word>, p: nat, u: nat, off: nat, want: bool, n: nat)
    requires Shows(m, p, u, off, want) && n <= 64
    requires forall k: nat :: k < n ==> !Bit(u, k)
    ensures Absent(m, want, 64 * p + off, 64 * p + n)
  {
    forall j: nat | 64 * p + off <= j < 64 * p + n ensures BitAt(m, j) != want {
      AtWord(m, p, j - 64 * p);
      assert !Bit(u, j - 64 * p);
    }
  }

  lemma NoneZero(m: seq<Word>, p: nat, off: nat, want: bool)
    requires Shows(m, p, 0, off, want)
    ensures Absent(m, want, 64 * p + off, 64 * p + 64)
  {
    forall k: nat | k < 64 ensures !Bit(0, k) {
      ZeroBits(k);
    }
    NoneBefore(m, p, 0, off, want, 64);
  }

  lemma NoneJoin(m: seq<Word>, want: bool, lo: nat, mid: nat, hi: nat)
    requires Absent(m, want, lo, mid) && Absent(m, want, mid, hi)
    ensures Absent(m, want, lo, hi)
  {
  }

  // ---- What the masks and complements of a word show ----

  lemma ShowsSet(m: seq<Word>, p: nat, off: nat)
    requires p < |m| && off < 64
    ensures Shows(m, p, High(m[p], off), off, true) && High(m[p], off) < SPACE
    ensures Shows(m, p, m[p], 0, true)
  {
    forall k: nat | k < 64 ensures Bit(High(m[p], off), k) <==> off <= k && Bit(m[p], k) {
      BitHigh(m[p], off, k);
    }
    FloorBounds(m[p], off);
  }

  lemma ShowsClear(m: seq<Word>, p: nat, off: nat)
    requires p < |m| && off < 64
    ensures WithLow(m[p], off) < SPACE
    ensures Shows(m, p, Not(WithLow(m[p], off), 64), off, false)
    ensures Shows(m, p, Not(m[p], 64), 0, false)
  {
    SpaceIsPow2();
    WithLowBound(m[p], off, 64);
    forall k: nat | k < 64
      ensures Bit(Not(WithLow(m[p], off), 64), k) <==> off <= k && !Bit(m[p], k)
      ensures Bit(Not(m[p], 64), k) <==> !Bit(m[p], k)
    {
      BitNot(WithLow(m[p], off), 64, k);
      BitNot(m[p], 64, k);
      BitWithLow(m[p], off, k);
    }
  }

  lemma {:induction false} WithLowBound(w: nat, n: nat, width: nat)
    requires w < Pow2(width) && n <= width
    ensures WithLow(w, n) < Pow2(width)
  {
    if n > 0 {
      WithLowBound(w / 2, n - 1, width - 1);
    }
  }

  /** Only the word of ones has a complement of zero. */
  lemma {:induction false} NotIsComplement(w: nat, n: nat)
    requires w < Pow2(n)
    ensures Not(w, n) + w == Pow2(n) - 1
  {
    if n > 0 {
      NotIsComplement(w / 2, n - 1);
    }
  }

  lemma NotZero(w: Word)
    ensures Not(w, 64) == 0 <==> w == ONES
    ensures Not(w, 64) < SPACE
  {
    SpaceIsPow2();
    NotIsComplement(w, 64);
  }

  /** `ffz`. */
  method Ffz(x: Word) returns (num: nat)
    requires x != ONES
    ensures num < 64 && FirstBit(Not(x, 64), num)
  {
    NotZero(x);
    num := Ffs(Not(x, 64));
  }

  // ---- The searches ----

  /** From `found_middle` on, when `u` shows where the wanted bits of word `p` are. */
  lemma FoundMiddle(m: seq<Word>, size: nat, from: nat, want: bool, p: nat, u: nat, off: nat, num: nat)
    requires Shows(m, p, u, off, want) && num < 64 && FirstBit(u, num)
    requires from <= 64 * p + off && 64 * p + num < size && Absent(m, want, from, 64 * p + off)
    ensures NextIs(m, size, from, want, 64 * p + num)
  {
    NoneBefore(m, p, u, off, want, num);
    AtWord(m, p, num);
    NoneJoin(m, want, from, 64 * p + off, 64 * p + num);
  }

  /** From `found_first` on: the last word of the bitmap counts only below its bit `left`. */
  lemma FoundFirst(m: seq<Word>, size: nat, from: nat, want: bool, p: nat, u: nat, off: nat, v: nat, num: nat)
    requires Shows(m, p, u, off, want) && 64 * p + off < size < 64 * p + 64
    requires from <= 64 * p + off && Absent(m, want, from, 64 * p + off)
    requires forall k: nat :: k < 64 ==> (Bit(v, k) <==> k < size - 64 * p && Bit(u, k))
    requires if v == 0 then num == size - 64 * p else num < 64 && FirstBit(v, num)
    ensures NextIs(m, size, from, want, 64 * p + num)
  {
    var left := size - 64 * p;
    if v == 0 {
      forall k: nat | k < left ensures !Bit(u, k) {
        ZeroBits(k);
      }
      NoneBefore(m, p, u, off, want, left);
      NoneJoin(m, want, from, 64 * p + off, size);
    } else {
      forall k: nat | k < num ensures !Bit(u, k) {
        assert !Bit(v, k);
      }
      FoundMiddle(m, size, from, want, p, u, off, num);
    }
  }

  /** `tmp &= (~0UL >> (BITS_PER_LONG - size))`. */
  lemma KeepLow(tmp: Word, left: nat)
    requires left < 64
    ensures Low(tmp, left) < SPACE
    ensures forall k: nat :: k < 64 ==> (Bit(Low(tmp, left), k) <==> k < left && Bit(tmp, k))
  {
    forall k: nat | k < 64 ensures Bit(Low(tmp, left), k) <==> k < left && Bit(tmp, k) {
      BitLow(tmp, left, k);
    }
    SpaceIsPow2();
    BitLow(tmp, left, 0);
    Pow2Monotone(left, 64);
  }

  /** `tmp |= ~0UL << size`. */
  lemma FillHigh(tmp: Word, left: nat)
    requires left < 64
    ensures WithHigh(tmp, left, 64) < SPACE
    ensures forall k: nat :: k < 64 ==>
      (Bit(Not(WithHigh(tmp, left, 64), 64), k) <==> k < left && Bit(Not(tmp, 64), k))
  {
    SpaceIsPow2();
    BitWithHigh(tmp, left, 64, 0);
    forall k: nat | k < 64
      ensures Bit(Not(WithHigh(tmp, left, 64), 64), k) <==> k < left && Bit(Not(tmp, 64), k)
    {
      BitWithHigh(tmp, left, 64, k);
      BitNot(WithHigh(tmp, left, 64), 64, k);
      BitNot(tmp, 64, k);
    }
  }

  /** `find_first_bit`. */
  method FindFirstBit(addr: seq<Word>, size: nat) returns (r: nat)
    requires size <= 64 * |addr|
    ensures NextIs(addr, size, 0, true, r)
  {
    var p, result, left := 0, 0, size;
    while left >= 64
      invariant result == 64 * p && result + left == size && Absent(addr, true, 0, result)
    {
      var tmp := addr[p];
      ShowsSet(addr, p, 0);
      if tmp != 0 {
        var num := Ffs(tmp);
        FoundMiddle(addr, size, 0, true, p, tmp, 0, num);
        return result + num;
      }
      NoneZero(addr, p, 0, true);
      NoneJoin(addr, true, 0, result, result + 64);
      p, result, left := p + 1, result + 64, left - 64;
    }
    if left == 0 {
      return result;
    }
    ShowsSet(addr, p, 0);
    KeepLow(addr[p], left);
    var tmp := Low(addr[p], left);
    var num := left;
    if tmp != 0 {
      num := Ffs(tmp);
    }
    FoundFirst(addr, size, 0, true, p, addr[p], 0, tmp, num);
    return result + num;
  }

  /** `find_first_zero_bit`. */
  method FindFirstZeroBit(addr: seq<Word>, size: nat) returns (r: nat)
    requires size <= 64 * |addr|
    ensures NextIs(addr, size, 0, false, r)
  {
    var p, result, left := 0, 0, size;
    while left >= 64
      invariant result == 64 * p && result + left == size && Absent(addr, false, 0, result)
    {
      var tmp := addr[p];
      ShowsClear(addr, p, 0);
      NotZero(tmp);
      if tmp != ONES {
        var num := Ffz(tmp);
        FoundMiddle(addr, size, 0, false, p, Not(tmp, 64), 0, num);
        return result + num;
      }
      NoneZero(addr, p, 0, false);
      NoneJoin(addr, false, 0, result, result + 64);
      p, result, left := p + 1, result + 64, left - 64;
    }
    if left == 0 {
      return result;
    }
    ShowsClear(addr, p, 0);
    FillHigh(addr[p], left);
    var tmp := WithHigh(addr[p], left, 64);
    NotZero(tmp);
    var num := left;
    if tmp != ONES {
      num := Ffz(tmp);
    }
    FoundFirst(addr, size, 0, false, p, Not(addr[p], 64), 0, Not(tmp, 64), num);
    return result + num;
  }

  /** `find_next_bit`. */
  method FindNextBit(addr: seq<Word>, size: nat, offset: nat) returns (r: nat)
    requires size <= 64 * |addr|
    ensures NextIs(addr, size, offset, true, r)
  {
    var p, result := offset / 64, offset / 64 * 64;
    if offset >= size {
      return size;
    }
    var left, off := size - result, offset % 64;
    if off != 0 {
      ShowsSet(addr, p, off);
      var tmp := High(addr[p], off);
      if left < 64 {
        r := LastWord(addr, size, offset, p, tmp, off);
        return;
      }
      if tmp != 0 {
        var num := Ffs(tmp);
        FoundMiddle(addr, size, offset, true, p, tmp, off, num);
        return result + num;
      }
      NoneZero(addr, p, off, true);
      p, result, left := p + 1, result + 64, left - 64;
    }
    while left >= 64
      invariant result == 64 * p && 0 <= left == size - result && offset <= result && Absent(addr, true, offset, result)
    {
      ShowsSet(addr, p, 0);
      if addr[p] != 0 {
        var num := Ffs(addr[p]);
        FoundMiddle(addr, size, offset, true, p, addr[p], 0, num);
        return result + num;
      }
      NoneZero(addr, p, 0, true);
      NoneJoin(addr, true, offset, result, result + 64);
      p, result, left := p + 1, result + 64, left - 64;
    }
    if left == 0 {
      return result;
    }
    ShowsSet(addr, p, 0);
    r := LastWord(addr, size, offset, p, addr[p], 0);
  }

  /** The part of `find_next_bit` from `found_first` on. */
  method LastWord(ghost addr: seq<Word>, size: nat, ghost from: nat, p: nat, u: Word, ghost off: nat) returns (r: nat)
    requires Shows(addr, p, u, off, true) && 64 * p + off < size < 64 * p + 64
    requires from <= 64 * p + off && Absent(addr, true, from, 64 * p + off)
    ensures NextIs(addr, size, from, true, r)
  {
    var left := size - 64 * p;
    KeepLow(u, left);
    var tmp := Low(u, left);
    var num := left;
    if tmp != 0 {
      num := Ffs(tmp);
    }
    FoundFirst(addr, size, from, true, p, u, off, tmp, num);
    r := 64 * p + num;
  }

  /** `find_next_zero_bit`. */
  method FindNextZeroBit(addr: seq<Word>, size: nat, offset: nat) returns (r: nat)
    requires size <= 64 * |addr|
    ensures NextIs(addr, size, offset, false, r)
  {
    var p, result := offset / 64, offset / 64 * 64;
    if offset >= size {
      return size;
    }
    var left, off := size - result, offset % 64;
    if off != 0 {
      ShowsClear(addr, p, off);
      var tmp := WithLow(addr[p], off);
      NotZero(tmp);
      if left < 64 {
        r := LastWordZero(addr, size, offset, p, tmp, off);
        return;
      }
      if tmp != ONES {
        var num := Ffz(tmp);
        FoundMiddle(addr, size, offset, false, p, Not(tmp, 64), off, num);
        return result + num;
      }
      NoneZero(addr, p, off, false);
      p, result, left := p + 1, result + 64, left - 64;
    }
    while left >= 64
      invariant result == 64 * p && 0 <= left == size - result && offset <= result && Absent(addr, false, offset, result)
    {
      ShowsClear(addr, p, 0);
      NotZero(addr[p]);
      if addr[p] != ONES {
        var num := Ffz(addr[p]);
        FoundMiddle(addr, size, offset, false, p, Not(addr[p], 64), 0, num);
        return result + num;
      }
      NoneZero(addr, p, 0, false);
      NoneJoin(addr, false, offset, result, result + 64);
      p, result, left := p + 1, result + 64, left - 64;
    }
    if left == 0 {
      return result;
    }
    ShowsClear(addr, p, 0);
    r := LastWordZero(addr, size, offset, p, addr[p], 0);
  }

  /** The part of `find_next_zero_bit` from `found_first` on. */
  method LastWordZero(ghost addr: seq<Word>, size: nat, ghost from: nat, p: nat, u: Word, ghost off: nat)
    returns (r: nat)
    requires Shows(addr, p, Not(u, 64), off, false) && 64 * p + off < size < 64 * p + 64
    requires from <= 64 * p + off && Absent(addr, false, from, 64 * p + off)
    ensures NextIs(addr, size, from, false, r)
  {
    hide *;
    var left := size - 64 * p;
    FillHigh(u, left);
    var tmp := WithHigh(u, left, 64);
    NotZero(tmp);
    var num := left;
    if tmp != ONES {
      num := Ffz(tmp);
    }
    FoundFirst(addr, size, from, false, p, Not(u, 64), off, Not(tmp, 64), num);
    r := 64 * p + num;
  }

  /** `find_last_bit`. */
  method FindLastBit(addr: seq<Word>, size: nat) returns (r: nat)
    requires size <= 64 * |addr|
    ensures r <= size && Absent(addr, true, if r < size then r + 1 else 0, size)
    ensures r < size ==> BitAt(addr, r)
  {
    var words, left := size / 64, size % 64;
    if left != 0 {
      ShowsSet(addr, words, 0);
      KeepLow(addr[words], left);
      var tmp := Low(addr[words], left);
      if tmp != 0 {
        var num := Fls(tmp);
        NoneAfter(addr, words, tmp, num, left);
        return words * 64 + num;
      }
      forall j: nat | 64 * words <= j < size ensures !BitAt(addr, j) {
        AtWord(addr, words, j - 64 * words);
        ZeroBits(j - 64 * words);
      }
    }
    while words > 0
      invariant 0 <= 64 * words <= size && Absent(addr, true, 64 * words, size)
    {
      words := words - 1;
      ShowsSet(addr, words, 0);
      if addr[words] != 0 {
        var num := Fls(addr[words]);
        NoneAfter(addr, words, addr[words], num, 64);
        NoneJoin(addr, true, 64 * words + num + 1, 64 * words + 64, size);
        return words * 64 + num;
      }
      NoneZero(addr, words, 0, true);
      NoneJoin(addr, true, 64 * words, 64 * words + 64, size);
    }
    return size;
  }

  lemma NoneAfter(m: seq<Word>, p: nat, u: nat, num: nat, left: nat)
    requires p < |m| && left <= 64 && LastBit(u, num)
    requires forall k: nat :: k < 64 ==> (Bit(u, k) <==> k < left && Bit(m[p], k))
    ensures num < left && Absent(m, true, 64 * p + num + 1, 64 * p + left) && BitAt(m, 64 * p + num)
  {
    AtWord(m, p, num);
    forall j: nat | 64 * p + num + 1 <= j < 64 * p + left ensures !BitAt(m, j) {
      AtWord(m, p, j - 64 * p);
      assert !Bit(u, j - 64 * p);
    }
  }

  /** `for_each_set_bit`, with the bits on which its body runs: every set bit once, in increasing order. */
  method ForEachSetBit(addr: seq<Word>, size: nat) returns (visited: seq<nat>)
    requires size <= 64 * |addr|
    ensures forall i, k :: 0 <= i < k < |visited| ==> visited[i] < visited[k]
    ensures forall j: nat :: j in visited <==> j < size && BitAt(addr, j)
  {
    visited := [];
    var bit: nat := FindFirstBit(addr, size);
    ghost var from: nat := 0;
    while bit < size
      invariant NextIs(addr, size, from, true, bit) && from <= size
      invariant forall i, k :: 0 <= i < k < |visited| ==> visited[i] < visited[k]
      invariant forall i :: 0 <= i < |visited| ==> visited[i] < from
      invariant forall j: nat :: j in visited <==> j < from && BitAt(addr, j)
      decreases size - from
    {
      visited := visited + [bit];
      from := bit + 1;
      bit := FindNextBit(addr, size, bit + 1);
    }
  }

  // ---- Setting and clearing a bit ----

  /** A word with bit `i` set to `v`: `w | mask` or `w & ~mask`. */
  function PutBit(w: nat, i: nat, v: bool): nat {
    if i == 0 then w / 2 * 2 + (if v then 1 else 0) else w % 2 + 2 * PutBit(w / 2, i - 1, v)
  }

  lemma {:induction false} PutBitBits(w: nat, i: nat, v: bool, j: nat)
    ensures Bit(PutBit(w, i, v), j) <==> if j == i then v else Bit(w, j)
  {
    if i > 0 && j > 0 {
      PutBitBits(w / 2, i - 1, v, j - 1);
      assert PutBit(w, i, v) / 2 == PutBit(w / 2, i - 1, v);
    }
  }

  lemma {:induction false} PutBitBound(w: nat, i: nat, v: bool, n: nat)
    requires w < Pow2(n) && i < n
    ensures PutBit(w, i, v) < Pow2(n)
  {
    if i > 0 {
      PutBitBound(w / 2, i - 1, v, n - 1);
    }
  }

  /** `__set_bit` and `__clear_bit`. */
  function PutBitAt(m: seq<Word>, nr: nat, v: bool): (r: seq<Word>)
    requires nr < 64 * |m|
    ensures |r| == |m|
    ensures forall j: nat :: (BitAt(r, j) <==> if j == nr then v else BitAt(m, j))
  {
    SpaceIsPow2();
    PutBitBound(m[nr / 64], nr % 64, v, 64);
    PutBitAtBits(m, nr, v);
    m[nr / 64 := PutBit(m[nr / 64], nr % 64, v)]
  }

  lemma PutBitAtBits(m: seq<Word>, nr: nat, v: bool)
    requires nr < 64 * |m| && PutBit(m[nr / 64], nr % 64, v) < SPACE
    ensures forall j: nat ::
      (BitAt(m[nr / 64 := PutBit(m[nr / 64], nr % 64, v)], j) <==> if j == nr then v else BitAt(m, j))
  {
    forall j: nat
      ensures BitAt(m[nr / 64 := PutBit(m[nr / 64], nr % 64, v)], j) <==> if j == nr then v else BitAt(m, j)
    {
      PutBitBits(m[nr / 64], nr % 64, v, j % 64);
    }
  }
}
