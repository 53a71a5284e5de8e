/**
 Multiprecision division, lib/utils/libquad/qdivrem.c: Knuth's Algorithm D (The Art of Computer
 Programming, volume 2, section 4.3.1) on at most four digits in base B == 2^h, where h is half the
 width of a long.  Digits are naturals below B; `u_long` values are naturals below B * B, and the
 source's wrap-around is written out with `% (B * B)` where it happens.
 */
module Qdivrem {
  import opened Arith

  /** Bitwise OR of two words with no set bit in common, below and above bit `k`. */
  function OrDisjoint(hi: nat, lo: nat, k: nat): (r: nat)
    requires Mod(hi, Pow2(k)) == 0 && lo < Pow2(k)
  {
    hi + lo
  }

  /** `now` is `was` with the digits `d` in place of those from position `a` on. */
  ghost predicate Replaced(now: seq<nat>, was: seq<nat>, a: nat, d: seq<nat>) {
    && |now| == |was| >= a + |d|
    && (forall k :: 0 <= k < |d| ==> now[a + k] == d[k])
    && (forall k :: 0 <= k < |was| && !(a <= k < a + |d|) ==> now[k] == was[k])
  }

  // ---- shl ----

  /** The part of a shifted digit that leaves to the left, and the part that stays. */
  function ShiftOut(x: nat, sh: nat, h: nat): nat
    requires sh <= h
  {
    Div(x, Pow2(h - sh))
  }

  function ShiftKeep(x: nat, sh: nat, h: nat): nat {
    Mod(x * Pow2(sh), Pow2(h))
  }

  /** One digit of a left shift: what leaves the digit and what stays add up to the shifted digit. */
  lemma ShiftDigit(x: nat, h: nat, sh: nat)
    requires 0 < sh < h && x < Pow2(h)
    ensures ShiftOut(x, sh, h) < Pow2(sh)
    ensures x * Pow2(sh) == ShiftOut(x, sh, h) * Pow2(h) + ShiftKeep(x, sh, h)
    ensures Mod(ShiftKeep(x, sh, h), Pow2(sh)) == 0
  {
    Pow2Add(h - sh, sh);
    ShiftDigitAlgebra(x, Pow2(h), Pow2(sh), Pow2(h - sh));
  }

  lemma ShiftDigitAlgebra(x: nat, B: nat, s: nat, k: nat)
    requires s > 0 && k > 0 && B == k * s && x < B
    ensures Div(x, k) < s
    ensures x * s == Div(x, k) * B + Mod(x * s, B)
    ensures Mod(Mod(x * s, B), s) == 0
  {
    var q, r := Div(x, k), Mod(x, k);
    DivBounds(x, k);
    if q >= s {
      MulMonotone(s, q, k);
      assert false;
    }
    assert x * s == q * B + r * s by {
      MulDist(s, q * k, r);
      MulAssoc(q, k, s);
    }
    MulMonotone(r, k - 1, s);
    MulDist(s, k, 1);
    MulMonotone(0, r, s);
    DivModUnique(x * s, B, q, r * s);
    DivModUnique(r * s, s, r, 0);
  }

  /** The digits of `s` shifted left by `sh` bits, without what falls out on the left. */
  function ShlDigits(s: seq<nat>, sh: nat, h: nat): (r: seq<nat>)
    requires sh <= h
    ensures |r| == |s|
  {
    seq(|s|, k requires 0 <= k < |s| =>
      ShiftKeep(s[k], sh, h) + (if k + 1 < |s| then ShiftOut(s[k + 1], sh, h) else 0))
  }

  lemma ShlAt(s: seq<nat>, sh: nat, h: nat, k: nat)
    requires sh <= h && k < |s|
    ensures ShlDigits(s, sh, h)[k] == ShiftKeep(s[k], sh, h) + (if k + 1 < |s| then ShiftOut(s[k + 1], sh, h) else 0)
  {
  }

  /** One digit of the loop. */
  method ShlDigit(x: nat, y: nat, sh: nat, h: nat) returns (r: nat)
    requires 0 < sh < h && x < Pow2(h) && y < Pow2(h)
    ensures r == ShiftKeep(x, sh, h) + ShiftOut(y, sh, h)
  {
    hide Pow2, ShiftKeep, ShiftOut, Mod;
    ShiftDigitFits(x, y, h, sh);
    r := OrDisjoint(ShiftKeep(x, sh, h), ShiftOut(y, sh, h), sh);
  }

  lemma ReplacedNone(was: seq<nat>, a: nat, d: seq<nat>)
    requires a <= |was|
    ensures Replaced(was, was, a, d[..0])
  {
  }

  lemma ReplacedMore(now: seq<nat>, was: seq<nat>, a: nat, d: seq<nat>, i: nat)
    requires i < |d| && a + |d| <= |was| && Replaced(now, was, a, d[..i])
    ensures a + i < |now| && Replaced(now[a + i := d[i]], was, a, d[..i + 1])
    ensures now[a + i] == was[a + i] && (i + 1 < |d| ==> now[a + i + 1] == was[a + i + 1])
  {
  }

  /** Shifts p[a..a+len] left by `sh` bits in place. */
  method Shl(p: array<nat>, a: nat, len: nat, sh: nat, h: nat)
    requires a + len < p.Length && 0 < sh < h
    requires Digits(p[a..a + len + 1], Pow2(h))
    modifies p
    ensures Replaced(p[..], old(p[..]), a, ShlDigits(old(p[a..a + len + 1]), sh, h))
  {
    hide *;
    ghost var all := p[..];
    ghost var was := all[a..a + len + 1];
    assert was == p[a..a + len + 1];
    ghost var r := ShlDigits(was, sh, h);
    ReplacedNone(all, a, r);
    var i := 0;
    while i < len
      invariant 0 <= i <= len
      invariant Replaced(p[..], all, a, r[..i])
    {
      ReplacedMore(p[..], all, a, r, i);
      DigitAt(was, h, i);
      DigitAt(was, h, i + 1);
      assert p[a + i] == was[i] && p[a + i + 1] == was[i + 1];
      ShlAt(was, sh, h, i);
      var digit := ShlDigit(p[a + i], p[a + i + 1], sh, h);
      SetDigit(p, a + i, digit);
      i := i + 1;
    }
    ReplacedMore(p[..], all, a, r, i);
    assert p[a + i] == was[i];
    ShlAt(was, sh, h, i);
    SetDigit(p, a + i, ShiftKeep(p[a + i], sh, h));
    assert r[..i + 1] == r;
  }

  lemma DigitAt(s: seq<nat>, h: nat, k: nat)
    requires Digits(s, Pow2(h)) && k < |s|
    ensures s[k] < Pow2(h)
  {
  }

  method SetDigit(p: array<nat>, k: nat, x: nat)
    requires k < p.Length
    modifies p
    ensures p[..] == old(p[..])[k := x]
  {
    p[k] := x;
  }

  /** When nothing falls out of the leading digit, `shl` multiplies the number by 2^sh. */
  lemma ShlMeaning(s: seq<nat>, sh: nat, h: nat)
    requires s != [] && 0 < sh < h && Digits(s, Pow2(h))
    requires s[0] * Pow2(sh) < Pow2(h)
    ensures Num(ShlDigits(s, sh, h), Pow2(h)) == Num(s, Pow2(h)) * Pow2(sh)
    ensures Digits(ShlDigits(s, sh, h), Pow2(h))
  {
    forall k | 0 <= k < |s| ensures ShlDigits(s, sh, h)[k] < Pow2(h) {
      ShiftDigitFits(s[k], if k + 1 < |s| then s[k + 1] else 0, h, sh);
    }
    var n := |s| - 1;
    ShlPrefix(s, n, sh, h);
    var r := ShlDigits(s, sh, h);
    assert r == r[..n] + [ShiftKeep(s[n], sh, h)];
    NumSnoc(r[..n], ShiftKeep(s[n], sh, h), Pow2(h));
    assert s == s[..n + 1];
  }

  lemma {:induction false} ShlPrefix(s: seq<nat>, i: nat, sh: nat, h: nat)
    requires i < |s| && 0 < sh < h && Digits(s, Pow2(h))
    requires s[0] * Pow2(sh) < Pow2(h)
    ensures Num(ShlDigits(s, sh, h)[..i], Pow2(h)) * Pow2(h) + ShiftKeep(s[i], sh, h)
         == Num(s[..i + 1], Pow2(h)) * Pow2(sh)
  {
    var B, r := Pow2(h), ShlDigits(s, sh, h);
    if i == 0 {
      assert r[..0] == [] && s[..1] == [s[0]];
      NumSingle(s[0], B);
      ModSmall(s[0] * Pow2(sh), B);
    } else {
      ShlPrefix(s, i - 1, sh, h);
      ShiftDigit(s[i], h, sh);
      assert s[..i + 1] == s[..i] + [s[i]] && r[..i] == r[..i - 1] + [r[i - 1]];
      NumSnoc(s[..i], s[i], B);
      NumSnoc(r[..i - 1], r[i - 1], B);
      ShiftAlgebra(Num(r[..i - 1], B), ShiftKeep(s[i - 1], sh, h), ShiftOut(s[i], sh, h), ShiftKeep(s[i], sh, h),
                   s[i], Num(s[..i], B), B, Pow2(sh));
    }
  }

  lemma ShiftDigitFits(x: nat, y: nat, h: nat, sh: nat)
    requires 0 < sh < h && x < Pow2(h) && y < Pow2(h)
    ensures Mod(ShiftKeep(x, sh, h), Pow2(sh)) == 0 && ShiftOut(y, sh, h) < Pow2(sh)
    ensures ShiftKeep(x, sh, h) + ShiftOut(y, sh, h) < Pow2(h)
    ensures ShiftKeep(x, sh, h) < Pow2(h)
  {
    hide Pow2;
    assert ShiftKeep(x, sh, h) < Pow2(h);
    hide *;
    ShiftDigit(x, h, sh);
    ShiftDigit(y, h, sh);
    Pow2Add(h - sh, sh);
    MultipleBelow(ShiftKeep(x, sh, h), Pow2(sh), Pow2(h - sh));
  }

  /** A multiple of `s` below k * s leaves room for anything below `s`. */
  lemma MultipleBelow(r: nat, s: nat, k: nat)
    requires s > 0 && k > 0 && Mod(r, s) == 0 && r < k * s
    ensures r + s <= k * s
  {
    DivBounds(r, s);
    if Div(r, s) >= k {
      MulMonotone(k, Div(r, s), s);
    } else {
      MulMonotone(Div(r, s) + 1, k, s);
      MulDist(s, Div(r, s), 1);
    }
  }

  lemma ShiftAlgebra(n: nat, lead: nat, carry: nat, low: nat, next: nat, w: nat, B: nat, s: nat)
    requires n * B + lead == w * s
    requires next * s == carry * B + low
    ensures (n * B + (lead + carry)) * B + low == (w * B + next) * s
  {
    calc {
      (n * B + (lead + carry)) * B + low;
      (w * s + carry) * B + low;
      { MulDist(B, w * s, carry); }
      w * s * B + next * s;
      { MulAssoc(w, s, B); MulAssoc(w, B, s); assert s * B == B * s; }
      w * B * s + next * s;
      { MulDist(s, w * B, next); }
      (w * B + next) * s;
    }
  }

  // ---- D3: estimating a quotient digit ----

  function Min(a: int, b: int): int { if a <= b then a else b }

  /** What the loop of step D3 keeps: `n` is the two leading digits of the dividend, `U3` the three
      leading ones, `V2` the two leading digits of the divisor. */
  ghost predicate Estimating(qhat: nat, rhat: nat, n: nat, v1: nat, U3: nat, V2: nat, B: nat) {
    && qhat * v1 + rhat == n
    && (qhat < B - 1 ==> (qhat + 1) * V2 > U3)
  }

  /** Step D3: the quotient of the three leading digits of the dividend by the two leading digits
      of the divisor, cut off at B - 1. */
  method EstimateDigit(uj0: nat, uj1: nat, uj2: nat, v1: nat, v2: nat, ghost U3: nat, ghost V2: nat, B: nat)
    returns (qhat: nat)
    requires uj0 <= v1 < B && uj1 < B && uj2 < B && v2 < B && 0 < v1
    requires U3 == Num([uj0, uj1, uj2], B) && V2 == Num([v1, v2], B)
    ensures V2 > 0
    ensures qhat < B && qhat == Min(Div(U3, V2), B - 1)
  {
    NumOfTwo(v1, v2, B);
    NumOfThree(uj0, uj1, uj2, B);
    MulMonotone(1, v1, B);
    var n := uj0 * B + uj1;
    var rhat: nat;
    var tooBig := uj0 == v1;
    if tooBig {
      qhat, rhat := B, uj1;
    } else {
      qhat, rhat := Div(n, v1), Mod(n, v1);
      FirstEstimate(n, uj0, uj1, uj2, v1, v2, B);
    }
    while tooBig || v2 * qhat > rhat * B + uj2
      invariant if tooBig then qhat == B else qhat < B && rhat < B
      invariant Estimating(qhat, rhat, n, v1, U3, V2, B)
      decreases qhat
    {
      NextEstimate(qhat, rhat, tooBig, n, uj2, v1, v2, U3, V2, B);
      qhat, rhat, tooBig := qhat - 1, rhat + v1, false;
      if rhat >= B {
        break;
      }
    }
    EstimateFits(qhat, rhat, n, uj2, v1, v2, U3, V2, B);
    EstimateIsQuotient(qhat, U3, V2, B);
  }

  lemma NumOfTwo(x: nat, y: nat, B: nat)
    ensures Num([x, y], B) == x * B + y
  {
    assert [x, y] == [x] + [y];
    NumSingle(x, B);
    NumSnoc([x], y, B);
  }

  lemma NumOfThree(x: nat, y: nat, z: nat, B: nat)
    ensures Num([x, y, z], B) == (x * B + y) * B + z
  {
    assert [x, y, z] == [x, y] + [z];
    NumOfTwo(x, y, B);
    NumSnoc([x, y], z, B);
  }

  lemma NextEstimate(qhat: nat, rhat: nat, tooBig: bool, n: nat, uj2: nat, v1: nat, v2: nat, U3: nat, V2: nat, B: nat)
    requires Estimating(qhat, rhat, n, v1, U3, V2, B) && B > 0
    requires U3 == n * B + uj2 && V2 == v1 * B + v2
    requires if tooBig then qhat == B else v2 * qhat > rhat * B + uj2
    ensures 0 < qhat
    ensures Estimating(qhat - 1, rhat + v1, n, v1, U3, V2, B)
  {
    MulDist(v1, qhat, 1);
    if !tooBig {
      TestRejects(qhat, rhat, n, uj2, v1, v2, B);
      if qhat == 0 {
        MulMonotone(0, rhat, B);
      }
    }
  }

  lemma FirstEstimate(n: nat, uj0: nat, uj1: nat, uj2: nat, v1: nat, v2: nat, B: nat)
    requires uj0 < v1 < B && uj1 < B && uj2 < B
    requires n == uj0 * B + uj1
    ensures Div(n, v1) < B
    ensures Div(n, v1) * v1 + Mod(n, v1) == n
    ensures (Div(n, v1) + 1) * (v1 * B + v2) > n * B + uj2
  {
    var q := Div(n, v1);
    DivBounds(n, v1);
    assert n < B * v1 by {
      MulMonotone(uj0 + 1, v1, B);
      MulDist(B, uj0, 1);
    }
    if q >= B {
      MulMonotone(B, q, v1);
      assert false;
    }
    assert (q + 1) * v1 >= n + 1 by {
      MulDist(v1, q, 1);
    }
    RejectBound(q + 1, n, uj2, v1, v2, B);
  }

  lemma RejectBound(q: nat, n: nat, uj2: nat, v1: nat, v2: nat, B: nat)
    requires q * v1 >= n + 1 && uj2 < B
    ensures q * (v1 * B + v2) > n * B + uj2
  {
    MulMonotone(n + 1, q * v1, B);
    MulDist(B, n, 1);
    MulAssoc(q, v1, B);
    MulDist(q, v1 * B, v2);
    MulMonotone(0, q, v2);
  }

  /** The loop test holds exactly when the candidate is above the two-digit quotient. */
  lemma TestRejects(qhat: nat, rhat: nat, n: nat, uj2: nat, v1: nat, v2: nat, B: nat)
    requires qhat * v1 + rhat == n
    ensures v2 * qhat > rhat * B + uj2 <==> qhat * (v1 * B + v2) > n * B + uj2
  {
    MulDist(B, qhat * v1, rhat);
    MulAssoc(qhat, v1, B);
    MulDist(qhat, v1 * B, v2);
    assert qhat * v2 == v2 * qhat;
  }

  lemma EstimateFits(qhat: nat, rhat: nat, n: nat, uj2: nat, v1: nat, v2: nat, U3: nat, V2: nat, B: nat)
    requires qhat < B && v2 < B
    requires U3 == n * B + uj2 && V2 == v1 * B + v2
    requires qhat * v1 + rhat == n
    requires rhat >= B || v2 * qhat <= rhat * B + uj2
    ensures qhat * V2 <= U3
  {
    TestRejects(qhat, rhat, n, uj2, v1, v2, B);
    if rhat >= B {
      MulMonotone(v2, B, qhat);
      MulMonotone(qhat, B, B);
      MulMonotone(B, rhat, B);
    }
  }

  lemma EstimateIsQuotient(qhat: nat, U3: nat, V2: nat, B: nat)
    requires V2 > 0 && qhat < B && qhat * V2 <= U3
    requires qhat < B - 1 ==> (qhat + 1) * V2 > U3
    ensures qhat == Min(Div(U3, V2), B - 1)
  {
    DivBounds(U3, V2);
    if Div(U3, V2) < qhat {
      MulMonotone(Div(U3, V2) + 1, qhat, V2);
      MulDist(V2, Div(U3, V2), 1);
    }
    if qhat < B - 1 && Div(U3, V2) > qhat {
      MulMonotone(qhat + 1, Div(U3, V2), V2);
    }
  }

  /** Knuth's theorem: for a normalised divisor the estimate from the leading digits is the true
      quotient digit or one more. `w` is the weight of the digits that the estimate ignores. */
  lemma EstimateWithinOne(U: nat, V: nat, w: nat, B: nat)
    requires w > 0 && B > 0 && U < B * V
    requires V >= B * w                  // implied by a leading divisor digit of at least B / 2
    ensures V > 0 && Div(V, w) > 0
    ensures Div(U, V) <= Min(Div(Div(U, w), Div(V, w)), B - 1) <= Div(U, V) + 1
  {
    MulMonotone(1, B, w);
    var q, U3, V2 := Div(U, V), Div(U, w), Div(V, w);
    DivBounds(U, V);
    DivBounds(U, w);
    DivBounds(V, w);
    if q >= B {
      MulMonotone(B, q, V);
      assert false;
    }
    if V2 < B {
      MulMonotone(V2 + 1, B, w);
      MulDist(w, V2, 1);
      assert false;
    }
    DivBounds(U3, V2);
    var e := Div(U3, V2);
    // not too small: e + 1 times V2 exceeds U3, so e + 1 times V exceeds U
    if e < q {
      MulMonotone(e + 1, q, V2);
      MulDist(V2, e, 1);
      assert q * V2 >= U3 + 1;
      MulMonotone(V2 * w, V, q);
      MulAssoc(q, V2, w);
      MulMonotone(U3 + 1, q * V2, w);
      MulDist(w, U3, 1);
      assert false;
    }
    // not too big
    var m := Min(e, B - 1);
    if m >= q + 2 {
      MulMonotone(m, e, V2);
      assert m * V2 <= U3;
      MulMonotone(m * V2, U3, w);
      MulAssoc(m, V2, w);
      assert m * (V2 * w) <= U;
      MulDist(m, V2 * w, w);
      MulMonotone(V + 1, V2 * w + w, m);
      MulDist(m, V, 1);
      assert m * V + m <= U + m * w;
      MulDist(V, q, 1);
      MulMonotone(q + 2, m, V);
      MulDist(V, q, 2);
      MulMonotone(m, B - 1, w);
      MulDist(w, B, 1);
      assert false;
    }
  }

  // ---- D4 to D6: multiply and subtract, add back ----

  /** A difference of one digit position, held in a `u_long`. */
  function Difference(x: nat, y: nat, qhat: nat, t: nat, B: nat): (r: nat)
    requires B > 1
  {
    Long(x - y * qhat - t, B)
  }

  function Long(x: int, B: nat): nat
    requires B > 1
  {
    MulMonotone(1, B, B);
    x % (B * B)
  }

  /** `(B - HHALF(t)) & (B - 1)`. */
  function Borrow(t: nat, B: nat): (r: nat)
    requires B > 1
  {
    Mod(B + B - Div(t, B) % B, B)
  }

  /** One step of D4 in wrap-around arithmetic: the digit and the borrow of the true difference. */
  lemma BorrowStep(x: int, B: nat)
    requires B > 1 && -((B - 1) * B) <= x < B
    ensures var t := Long(x, B);
            && x == Mod(t, B) - Borrow(t, B) * B
            && (Div(t, B) != 0 <==> x < 0)
  {
    MulMonotone(1, B, B);
    MulDist(B, B, 1);
    if x >= 0 {
      Small(x, B * B);
      ModSmall(x, B);
      DivModUnique(2 * B, B, 2, 0);
      Small(0, B);
    } else {
      Wrapped(x, B * B);
      var t: nat := x + B * B;
      var q, r := Div(t, B), Mod(t, B);
      DivBounds(t, B);
      if q >= B {
        MulMonotone(B, q, B);
        assert false;
      }
      if q == 0 {
        assert false;
      }
      Small(q, B);
      DivModUnique(B + B - q, B, 1, B - q);
      MulDist(B, B, q);
    }
  }

  lemma Small(x: nat, m: nat)
    requires x < m
    ensures x % m == x
  {
  }

  lemma Wrapped(x: int, m: nat)
    requires m > 0 && -(m as int) <= x < 0
    ensures x % m == x + m
  {
    assert x % m == (x + m) % m by {
      var q := x / m;
      assert x == q * m + x % m;
      if q < -1 {
        MulMonotone(q, -2, m);
      } else if q > -1 {
        MulMonotone(0, q, m);
      }
      assert q == -1;
    }
  }

  /** The digits of u[i..] minus qhat times v[i..], and the final borrow. */
  function SubDigits(u: seq<nat>, v: seq<nat>, i: nat, qhat: nat, B: nat): (r: (seq<nat>, nat))
    requires i <= |u| == |v| && B > 1
    ensures |r.0| == |u| - i && Digits(r.0, B) && r.1 < B
    decreases |u| - i
  {
    if i == |u| then ([], 0)
    else
      var (rest, t) := SubDigits(u, v, i + 1, qhat, B);
      var D := Difference(u[i], v[i], qhat, t, B);
      ([Mod(D, B)] + rest, Borrow(D, B))
  }

  /** D4: subtracts qhat times v[c+1..c+n] from u[a..a+n]. The last difference is returned: a borrow
      shows in its high half. */
  method MultiplySubtract(u: array<nat>, a: nat, v: array<nat>, c: nat, n: nat, qhat: nat, B: nat)
    returns (t: nat)
    requires u != v && a + n < u.Length && c + n < v.Length && B > 1
    modifies u
    ensures var (rest, borrow) := SubDigits(old(u[a + 1..a + n + 1]), v[c + 1..c + n + 1], 0, qhat, B);
            && t == Difference(old(u[a]), 0, qhat, borrow, B)
            && Replaced(u[..], old(u[..]), a, [Mod(t, B)] + rest)
  {
    hide Difference, Borrow, Mod;
    ghost var was, vv := u[..], v[c + 1..c + n + 1];
    ghost var uu := u[a + 1..a + n + 1];
    ghost var rest: seq<nat> := [];
    t := 0;
    var i := n;
    while i > 0
      invariant 0 <= i <= n
      invariant (rest, t) == SubDigits(uu, vv, i, qhat, B)
      invariant Replaced(u[..], was, a + i + 1, rest)
    {
      t := Difference(u[a + i], v[c + i], qhat, t, B);
      rest := [Mod(t, B)] + rest;
      u[a + i] := Mod(t, B);
      t := Borrow(t, B);
      i := i - 1;
    }
    t := Difference(u[a], 0, qhat, t, B);
    u[a] := Mod(t, B);
  }

  /** D4 computes the difference, up to the borrow. */
  lemma {:induction false} SubDigitsMeaning(u: seq<nat>, v: seq<nat>, i: nat, qhat: nat, B: nat)
    requires i <= |u| == |v| && B > 1 && Digits(u, B) && Digits(v, B) && qhat < B
    ensures var (r, t) := SubDigits(u, v, i, qhat, B);
            Num(r, B) == Num(u[i..], B) - qhat * Num(v[i..], B) + t * Pow(B, |u| - i)
    decreases |u| - i
  {
    if i < |u| {
      hide Num, Pow;
      SubDigitsMeaning(u, v, i + 1, qhat, B);
      var (rest, t) := SubDigits(u, v, i + 1, qhat, B);
      var D := Difference(u[i], v[i], qhat, t, B);
      DifferenceRange(u[i], v[i], qhat, t, B);
      BorrowStep(u[i] - v[i] * qhat - t, B);
      SubtractDigit(Mod(D, B), rest, u[i], u[i + 1..], v[i], v[i + 1..], qhat, t, Borrow(D, B), B);
      assert u[i..] == [u[i]] + u[i + 1..] && v[i..] == [v[i]] + v[i + 1..];
    }
  }

  lemma SubtractDigit(d: nat, now: seq<nat>, x: nat, was: seq<nat>, y: nat, v: seq<nat>,
                      qhat: nat, t: nat, t': nat, B: nat)
    requires |now| == |was| == |v|
    requires Num(now, B) == Num(was, B) - qhat * Num(v, B) + t * Pow(B, |was|)
    requires x - y * qhat - t == d - t' * B
    ensures Num([d] + now, B) == Num([x] + was, B) - qhat * Num([y] + v, B) + t' * Pow(B, |was| + 1)
  {
    var P := Pow(B, |now|);
    assert Pow(B, |was| + 1) == B * P;
    hide Num, Pow;
    NumCons(d, now, B);
    NumCons(x, was, B);
    NumCons(y, v, B);
    SubtractAlgebra(d, x, y, qhat, t, t', B, P, Num(v, B));
  }

  lemma SubtractAlgebra(d: nat, x: nat, y: nat, qhat: nat, t: nat, t': nat, B: nat, P: nat, w: nat)
    requires x - y * qhat - t == d - t' * B
    ensures d * P - qhat * w + t * P == x * P - qhat * (y * P + w) + t' * (B * P)
  {
    var yq, tb := y * qhat, t' * B;
    assert d == x - yq - t + tb;
    assert d * P == x * P - yq * P - t * P + tb * P by {
      MulDist(P, x, yq);
      MulDist(P, x - yq, t);
      MulDist(P, x - yq - t, tb);
    }
    MulAssoc(t', B, P);
    MulAssoc(qhat, y, P);
    MulDist(qhat, y * P, w);
  }

  lemma DifferenceRange(x: nat, y: nat, qhat: nat, t: nat, B: nat)
    requires x < B && y < B && qhat < B && t < B
    ensures -((B - 1) * B) <= x - y * qhat - t < B
  {
    MulMonotone(y, B - 1, qhat);
    MulMonotone(qhat, B - 1, B - 1);
    MulDist(B - 1, B, 1);
  }

  /** D5's test on the last difference tells exactly when qhat was too large; the digits then hold the
      difference modulo one more digit than the divisor has. */
  lemma LeadingBorrow(x: nat, u: seq<nat>, v: seq<nat>, qhat: nat, B: nat)
    requires B > 1 && x < B && qhat < B && |u| == |v| && Digits(u, B) && Digits(v, B)
    ensures var (rest, borrow) := SubDigits(u, v, 0, qhat, B);
            var D := Difference(x, 0, qhat, borrow, B);
            var U, QV := Num([x] + u, B), qhat * Num(v, B);
            && (Div(D, B) != 0 <==> U < QV)
            && Num([Mod(D, B)] + rest, B) == if U < QV then U - QV + Pow(B, |v| + 1) else U - QV
  {
    var P := Pow(B, |v|);
    var (now, t) := SubDigits(u, v, 0, qhat, B);
    var D := Difference(x, 0, qhat, t, B);
    var d := Mod(D, B);
    SubDigitsMeaning(u, v, 0, qhat, B);
    assert u[0..] == u && v[0..] == v;
    DifferenceRange(x, 0, qhat, t, B);
    BorrowStep(x - t, B);
    LeadingDigit(x, t, d, Borrow(D, B), B);
    NumBound(now, B);
    NumCons(d, now, B);
    NumCons(x, u, B);
    MulDist(P, x, t);
    MulDist(P, x - t, B);
    assert Num([x] + u, B) - qhat * Num(v, B) == (x - t) * P + Num(now, B);
    if x < t {
      MulMonotone(x - t, -1, P);
    } else {
      MulMonotone(0, x - t, P);
    }
  }

  lemma LeadingDigit(x: nat, t: nat, d: nat, borrow: nat, B: nat)
    requires B > 1 && x < B && t < B && d < B
    requires x - t == d - borrow * B
    ensures d == if x < t then x - t + B else x - t
  {
    if borrow >= 2 {
      MulMonotone(2, borrow, B);
    }
  }

  /** The digits of u[i..] plus v[i..], and the final carry. */
  function AddDigits(u: seq<nat>, v: seq<nat>, i: nat, B: nat): (r: (seq<nat>, nat))
    requires i <= |u| == |v| && B > 0
    ensures |r.0| == |u| - i && Digits(r.0, B)
    decreases |u| - i
  {
    if i == |u| then ([], 0)
    else
      var (rest, t) := AddDigits(u, v, i + 1, B);
      ([Mod(t + (u[i] + v[i]), B)] + rest, Div(t + (u[i] + v[i]), B))
  }

  /** D6: adds v[c+1..c+n] back to u[a..a+n], dropping the carry out of the leading digit. */
  method AddBack(u: array<nat>, a: nat, v: array<nat>, c: nat, n: nat, B: nat)
    requires u != v && a + n < u.Length && c + n < v.Length && B > 1
    modifies u
    ensures var (rest, carry) := AddDigits(old(u[a + 1..a + n + 1]), v[c + 1..c + n + 1], 0, B);
            Replaced(u[..], old(u[..]), a, [Mod(old(u[a]) + carry, B)] + rest)
  {
    hide Div, Mod;
    ghost var was, vv := u[..], v[c + 1..c + n + 1];
    ghost var uu := u[a + 1..a + n + 1];
    ghost var rest: seq<nat> := [];
    var t := 0;
    var i := n;
    while i > 0
      invariant 0 <= i <= n
      invariant (rest, t) == AddDigits(uu, vv, i, B)
      invariant Replaced(u[..], was, a + i + 1, rest)
    {
      t := t + (u[a + i] + v[c + i]);
      rest := [Mod(t, B)] + rest;
      u[a + i] := Mod(t, B);
      t := Div(t, B);
      i := i - 1;
    }
    u[a] := Mod(u[a] + t, B);
  }

  /** D6 computes the sum, up to the carry. */
  lemma {:induction false} AddDigitsMeaning(u: seq<nat>, v: seq<nat>, i: nat, B: nat)
    requires i <= |u| == |v| && B > 1 && Digits(u, B) && Digits(v, B)
    ensures var (r, t) := AddDigits(u, v, i, B);
            t <= 1 && Num(r, B) + t * Pow(B, |u| - i) == Num(u[i..], B) + Num(v[i..], B)
    decreases |u| - i
  {
    if i < |u| {
      assert u[i] < B && v[i] < B;
      hide Num, Pow, Mod, Div, Digits;
      AddDigitsMeaning(u, v, i + 1, B);
      var (rest, t) := AddDigits(u, v, i + 1, B);
      var sum := t + (u[i] + v[i]);
      CarryStep(sum, B);
      AddDigit(Mod(sum, B), rest, u[i], u[i + 1..], v[i], v[i + 1..], t, Div(sum, B), B);
      assert u[i..] == [u[i]] + u[i + 1..] && v[i..] == [v[i]] + v[i + 1..];
    }
  }

  lemma AddDigit(d: nat, now: seq<nat>, x: nat, was: seq<nat>, y: nat, v: seq<nat>, t: nat, t': nat, B: nat)
    requires |now| == |was| == |v|
    requires Num(now, B) + t * Pow(B, |was|) == Num(was, B) + Num(v, B)
    requires x + y + t == d + t' * B
    ensures Num([d] + now, B) + t' * Pow(B, |was| + 1) == Num([x] + was, B) + Num([y] + v, B)
  {
    var P := Pow(B, |now|);
    assert Pow(B, |was| + 1) == B * P;
    hide Num, Pow;
    NumCons(d, now, B);
    NumCons(x, was, B);
    NumCons(y, v, B);
    CarryAlgebra(d, x, y, t, t', B, P);
  }

  lemma CarryAlgebra(d: nat, x: nat, y: nat, t: nat, t': nat, B: nat, P: nat)
    requires x + y + t == d + t' * B
    ensures x * P + y * P + t * P == d * P + t' * (B * P)
  {
    var tb := t' * B;
    MulDist(P, x, y);
    MulDist(P, x + y, t);
    MulDist(P, d, tb);
    MulAssoc(t', B, P);
  }

  lemma CarryStep(x: nat, B: nat)
    requires B > 1 && x < 2 * B
    ensures Div(x, B) <= 1 && x == Mod(x, B) + Div(x, B) * B
  {
    if x < B {
      ModSmall(x, B);
    } else {
      DivModUnique(x, B, 1, x - B);
    }
  }

  /** D6 undoes one subtraction of the divisor when D4 went below zero. */
  lemma LeadingCarry(x: nat, u: seq<nat>, v: seq<nat>, B: nat)
    requires B > 1 && x < B && |u| == |v| && Digits(u, B) && Digits(v, B)
    requires Num([x] + u, B) + Num(v, B) >= Pow(B, |v| + 1)
    ensures var (rest, carry) := AddDigits(u, v, 0, B);
            Num([Mod(x + carry, B)] + rest, B) == Num([x] + u, B) + Num(v, B) - Pow(B, |v| + 1)
  {
    var (now, t) := AddDigits(u, v, 0, B);
    AddDigitsMeaning(u, v, 0, B);
    assert u[0..] == u && v[0..] == v;
    CarryStep(x + t, B);
    DroppedCarry(x, u, v, now, t, Mod(x + t, B), Div(x + t, B), B, Pow(B, |v|));
  }

  lemma DroppedCarry(x: nat, u: seq<nat>, v: seq<nat>, now: seq<nat>, t: nat, d: nat, carry: nat, B: nat, P: nat)
    requires x < B && |u| == |v| == |now| && Digits(now, B) && Digits(u, B)
    requires carry <= 1 && d < B && x + t == d + carry * B
    requires P == Pow(B, |v|)
    requires Num(now, B) + t * P == Num(u, B) + Num(v, B)
    requires Num([x] + u, B) + Num(v, B) >= B * P
    ensures Num([d] + now, B) == Num([x] + u, B) + Num(v, B) - B * P
  {
    LeadingValue(d, now, B, P);
    LeadingValue(x, u, B, P);
    CarryIsOne(d, x, t, carry, B, P, Num(now, B), Num(u, B), Num(v, B), Num([d] + now, B), Num([x] + u, B));
  }

  lemma LeadingValue(d: nat, now: seq<nat>, B: nat, P: nat)
    requires d < B && Digits(now, B) && P == Pow(B, |now|)
    ensures Num([d] + now, B) == d * P + Num(now, B) < B * P
  {
    NumCons(d, now, B);
    NumBound([d] + now, B);
    assert |[d] + now| == |now| + 1;
  }

  lemma CarryIsOne(d: nat, x: nat, t: nat, carry: nat, B: nat, P: nat, now: nat, u: nat, v: nat, n1: nat, n0: nat)
    requires carry <= 1 && x + t == d + carry * B
    requires now + t * P == u + v
    requires n1 == d * P + now && n0 == x * P + u
    requires n1 < B * P <= n0 + v
    ensures n1 == n0 + v - B * P
  {
    CarryAlgebra(d, x, 0, t, carry, B, P);
    assert 0 * P == 0;
  }

  // ---- D3 to D6 together: one digit of the quotient ----

  /** The leading digits of a number are its quotient by the weight of the others. */
  lemma LeadingDigits(u: seq<nat>, k: nat, B: nat)
    requires k <= |u| && Digits(u, B)
    ensures Pow(B, |u| - k) > 0
    ensures Div(Num(u, B), Pow(B, |u| - k)) == Num(u[..k], B)
  {
    assert u == u[..k] + u[k..];
    NumAppend(u[..k], u[k..], B);
    NumBound(u[k..], B);
    DivModUnique(Num(u, B), Pow(B, |u| - k), Num(u[..k], B), Num(u[k..], B));
  }

  /** `u` is a remainder below the divisor `v` with one more digit brought down. */
  ghost predicate Dividable(u: seq<nat>, v: seq<nat>, B: nat) {
    && |v| >= 2 && |u| == |v| + 1 && B > 1 && Digits(u, B) && Digits(v, B)
    && v[0] > 0
    && Num(u[..|v|], B) < Num(v, B)
  }

  lemma DividendBelow(u: seq<nat>, v: seq<nat>, B: nat)
    requires Dividable(u, v, B)
    ensures Num(u, B) < B * Num(v, B)
    ensures u[0] <= v[0]
    ensures Num(v, B) >= B * Pow(B, |v| - 2)
  {
    var n := |v|;
    hide Num, Pow;
    assert u == u[..n] + [u[n]];
    NumSnoc(u[..n], u[n], B);
    BroughtDown(Num(u[..n], B), u[n], Num(v, B), B);
    LeadingPair(u[..n], v, B);
  }

  lemma BroughtDown(N: nat, x: nat, V: nat, B: nat)
    requires N < V && x < B
    ensures N * B + x < B * V
  {
    MulMonotone(N + 1, V, B);
    MulDist(B, N, 1);
  }

  /** Of two numbers of `n` digits, the smaller has no larger leading digit. */
  lemma LeadingPair(u: seq<nat>, v: seq<nat>, B: nat)
    requires |u| == |v| >= 2 && Digits(u, B) && Digits(v, B) && v[0] > 0 && Num(u, B) < Num(v, B)
    ensures u[0] <= v[0] && Num(v, B) >= B * Pow(B, |v| - 2)
  {
    var P := Pow(B, |v| - 1);
    assert P == B * Pow(B, |v| - 2);
    hide Num, Pow;
    assert v == [v[0]] + v[1..] && u == [u[0]] + u[1..];
    NumCons(v[0], v[1..], B);
    NumCons(u[0], u[1..], B);
    LeadingDigitBelow(u[0], v[0], v[1..], B);
    MulMonotone(1, v[0], P);
  }

  lemma LeadingDigitBelow(x: nat, y: nat, rest: seq<nat>, B: nat)
    requires Digits(rest, B)
    requires x * Pow(B, |rest|) < y * Pow(B, |rest|) + Num(rest, B)
    ensures x <= y
  {
    NumBound(rest, B);
    if x > y {
      MulMonotone(y + 1, x, Pow(B, |rest|));
      MulDist(Pow(B, |rest|), y, 1);
    }
  }

  /** The estimate of D3 for a dividable pair: the true digit or one more. */
  lemma EstimateMeaning(u: seq<nat>, v: seq<nat>, qhat: nat, B: nat)
    requires Dividable(u, v, B)
    requires Num(v[..2], B) > 0
    requires qhat == Min(Div(Num(u[..3], B), Num(v[..2], B)), B - 1)
    ensures Num(v, B) > 0
    ensures Div(Num(u, B), Num(v, B)) <= qhat <= Div(Num(u, B), Num(v, B)) + 1
  {
    LeadingDigits(v, 2, B);
    LeadingDigits(u, 3, B);
    DividendBelow(u, v, B);
    EstimateWithinOne(Num(u, B), Num(v, B), Pow(B, |v| - 2), B);
  }

  /** With the digit one too large the difference is negative, and one divisor brings it back. */
  lemma DigitChoice(U: nat, V: nat, qhat: nat)
    requires V > 0 && Div(U, V) <= qhat <= Div(U, V) + 1
    ensures U < Times(qhat, V) <==> qhat == Div(U, V) + 1
    ensures Mod(U, V) == if U < Times(qhat, V) then U - Times(qhat, V) + V else U - Times(qhat, V)
    ensures Mod(U, V) < V
  {
    DivBounds(U, V);
    TimesIsProduct(qhat, V);
    if qhat == Div(U, V) + 1 {
      MulDist(V, Div(U, V), 1);
    }
  }

  /** D4 with its meaning: the digits hold the difference, and D5's test says whether it is negative. */
  method TakeMultiple(u: array<nat>, a: nat, v: array<nat>, c: nat, n: nat, qhat: nat, B: nat)
    returns (t: nat)
    requires u != v && a + n < u.Length && c + n < v.Length && B > 1 && qhat < B
    requires Digits(u[a..a + n + 1], B) && Digits(v[c + 1..c + n + 1], B)
    modifies u
    ensures forall k :: 0 <= k < u.Length && !(a <= k <= a + n) ==> u[k] == old(u[k])
    ensures Digits(u[a..a + n + 1], B)
    ensures var U, QV := old(Num(u[a..a + n + 1], B)), Times(qhat, Num(v[c + 1..c + n + 1], B));
            && (Div(t, B) != 0 <==> U < QV)
            && Num(u[a..a + n + 1], B) == if U < QV then U - QV + Pow(B, n + 1) else U - QV
  {
    ghost var low, vv := u[a + 1..a + n + 1], v[c + 1..c + n + 1];
    assert u[a..a + n + 1] == [u[a]] + low;
    LeadingBorrow(u[a], low, vv, qhat, B);
    TimesIsProduct(qhat, Num(vv, B));
    t := MultiplySubtract(u, a, v, c, n, qhat, B);
    assert u[a..a + n + 1] == [Mod(t, B)] + SubDigits(low, vv, 0, qhat, B).0;
  }

  /** D6 with its meaning. */
  method GiveBack(u: array<nat>, a: nat, v: array<nat>, c: nat, n: nat, B: nat)
    requires u != v && a + n < u.Length && c + n < v.Length && B > 1
    requires Digits(u[a..a + n + 1], B) && Digits(v[c + 1..c + n + 1], B)
    requires Num(u[a..a + n + 1], B) + Num(v[c + 1..c + n + 1], B) >= Pow(B, n + 1)
    modifies u
    ensures forall k :: 0 <= k < u.Length && !(a <= k <= a + n) ==> u[k] == old(u[k])
    ensures Digits(u[a..a + n + 1], B)
    ensures Num(u[a..a + n + 1], B)
         == old(Num(u[a..a + n + 1], B)) + Num(v[c + 1..c + n + 1], B) - Pow(B, n + 1)
  {
    ghost var low, vv := u[a + 1..a + n + 1], v[c + 1..c + n + 1];
    assert u[a..a + n + 1] == [u[a]] + low;
    LeadingCarry(u[a], low, vv, B);
    ghost var (rest, carry) := AddDigits(low, vv, 0, B);
    ghost var sum := [Mod(u[a] + carry, B)] + rest;
    assert Num(sum, B) == Num(u[a..a + n + 1], B) + Num(vv, B) - Pow(B, n + 1);
    AddBack(u, a, v, c, n, B);
    assert u[a..a + n + 1] == sum;
  }

  /** Steps D3 to D6 for one position: divides u[a..a+n] by v[c+1..c+n], leaving the remainder there. */
  method QuotientDigit(u: array<nat>, a: nat, v: array<nat>, c: nat, n: nat, B: nat) returns (qhat: nat)
    requires u != v && a + n < u.Length && c + n < v.Length && n >= 2
    requires Dividable(u[a..a + n + 1], v[c + 1..c + n + 1], B)
    modifies u
    ensures forall k :: 0 <= k < u.Length && !(a <= k <= a + n) ==> u[k] == old(u[k])
    ensures Digits(u[a..a + n + 1], B) && qhat < B
    ensures var U, V := old(Num(u[a..a + n + 1], B)), Num(v[c + 1..c + n + 1], B);
            V > 0 && qhat == Div(U, V) && Num(u[a..a + n + 1], B) == Mod(U, V)
  {
    ghost var uu, vv := u[a..a + n + 1], v[c + 1..c + n + 1];
    ghost var U, V := Num(uu, B), Num(vv, B);
    assert uu[..3] == [u[a], u[a + 1], u[a + 2]] && vv[..2] == [v[c + 1], v[c + 2]];
    DividendBelow(uu, vv, B);
    qhat := EstimateDigit(u[a], u[a + 1], u[a + 2], v[c + 1], v[c + 2], Num(uu[..3], B), Num(vv[..2], B), B);
    EstimateMeaning(uu, vv, qhat, B);
    DigitChoice(U, V, qhat);
    var t := TakeMultiple(u, a, v, c, n, qhat, B);
    assert v[c + 1..c + n + 1] == vv;
    if Div(t, B) != 0 {
      qhat := qhat - 1;
      GiveBack(u, a, v, c, n, B);
    }
  }

  // ---- D7: the loop over the quotient digits ----

  /** The dividend `U0` is what the digits `q` found so far account for, plus what is left in `u`,
      whose last `k` digits have not been brought down yet. */
  ghost predicate Accounted(U0: nat, q: seq<nat>, V: nat, u: seq<nat>, k: nat, B: nat) {
    U0 == Times(Times(Num(q, B), V), Pow(B, k)) + Num(u, B)
  }

  /** `u` splits into a head of n + 1 digits and `k` more; the head is divided. */
  lemma DigitStep(U0: nat, q: seq<nat>, qhat: nat, V: nat, head: seq<nat>, head': seq<nat>, tail: seq<nat>, B: nat)
    requires V > 0 && B > 0
    requires Accounted(U0, q, V, head + tail, |tail| + 1, B)
    requires qhat == Div(Num(head, B), V) && Num(head', B) == Mod(Num(head, B), V)
    ensures Accounted(U0, q + [qhat], V, head' + tail, |tail|, B)
  {
    var P, Q := Pow(B, |tail|), Num(q, B);
    NumAppend(head, tail, B);
    NumAppend(head', tail, B);
    NumSnoc(q, qhat, B);
    DivBounds(Num(head, B), V);
    TimesIsProduct(Q, V);
    TimesIsProduct(Times(Q, V), Pow(B, |tail| + 1));
    TimesIsProduct(Q * B + qhat, V);
    TimesIsProduct(Times(Q * B + qhat, V), P);
    assert Pow(B, |tail| + 1) == B * P;
    DigitAlgebra(Q, V, B, P, qhat, Num(head, B), Num(head', B));
  }

  lemma DigitAlgebra(Q: nat, V: nat, B: nat, P: nat, qhat: nat, x: nat, r: nat)
    requires x == qhat * V + r
    ensures Q * V * (B * P) + x * P == (Q * B + qhat) * V * P + r * P
  {
    MulDist(P, qhat * V, r);
    MulDist(V, Q * B, qhat);
    MulDist(P, Q * B * V, qhat * V);
    assert Q * V * (B * P) == Q * B * V * P by {
      MulAssoc(Q, B, V);
      MulAssoc(Q, B * V, P);
      MulAssoc(Q, V, B * P);
      MulAssoc(V, B, P);
      assert V * B == B * V;
    }
  }

  /** A number below B^n in n + 1 digits starts with a zero. */
  lemma LeadingZero(u: seq<nat>, V: nat, v: seq<nat>, B: nat)
    requires u != [] && |v| == |u| - 1 && Digits(v, B) && Digits(u, B)
    requires V == Num(v, B) && Num(u, B) < V
    ensures u[0] == 0 && Num(u[1..], B) == Num(u, B)
  {
    assert u == [u[0]] + u[1..];
    NumCons(u[0], u[1..], B);
    NumBound(v, B);
    var P := Pow(B, |v|);
    if u[0] > 0 {
      MulMonotone(1, u[0], P);
    }
    assert 0 * P == 0;
  }

  /** What holds at the head of the loop: digits 0..j of the quotient are known, and the n digits of the
      dividend that start at position `a` are a remainder below the divisor. */
  ghost predicate LoopState(u: seq<nat>, a: nat, v: seq<nat>, q: seq<nat>, U0: nat, B: nat) {
    && B > 1 && |v| >= 2 && v[0] > 0 && Digits(v, B) && Digits(u, B) && Digits(q, B)
    && a + |v| <= |u|
    && (forall k :: 0 <= k < a ==> u[k] == 0)
    && Num(u[a..a + |v|], B) < Num(v, B)
    && Accounted(U0, q, Num(v, B), u[a..], |u| - |v| - a, B)
  }

  lemma NextLoopState(u: seq<nat>, u': seq<nat>, a: nat, v: seq<nat>, q: seq<nat>, qhat: nat, U0: nat, B: nat)
    requires LoopState(u, a, v, q, U0, B) && a + |v| < |u|
    requires |u'| == |u| && (forall k :: 0 <= k < |u| && !(a <= k <= a + |v|) ==> u'[k] == u[k])
    requires Digits(u'[a..a + |v| + 1], B) && qhat < B && Num(v, B) > 0
    requires qhat == Div(Num(u[a..a + |v| + 1], B), Num(v, B))
    requires Num(u'[a..a + |v| + 1], B) == Mod(Num(u[a..a + |v| + 1], B), Num(v, B))
    ensures LoopState(u', a + 1, v, q + [qhat], U0, B)
  {
    var n := |v|;
    hide Num, Pow, Times, Div, Mod;
    var head, head', tail := u[a..a + n + 1], u'[a..a + n + 1], u[a + n + 1..];
    assert u[a..] == head + tail && u'[a..] == head' + tail;
    DigitStep(U0, q, qhat, Num(v, B), head, head', tail, B);
    LeadingZero(head', Num(v, B), v, B);
    assert head'[1..] == u'[a + 1..a + 1 + n];
    assert u'[a..] == [u'[a]] + u'[a + 1..];
    NumCons(0, u'[a + 1..], B);
    assert 0 * Pow(B, |u'[a + 1..]|) == 0;
    forall k | 0 <= k < |u'| ensures u'[k] < B {
      if a <= k <= a + n {
        assert u'[k] == head'[k - a];
      }
    }
  }

  lemma LoopDividable(u: seq<nat>, a: nat, v: seq<nat>, q: seq<nat>, U0: nat, B: nat)
    requires LoopState(u, a, v, q, U0, B) && a + |v| < |u|
    ensures Dividable(u[a..a + |v| + 1], v, B)
  {
    assert u[a..a + |v| + 1][..|v|] == u[a..a + |v|];
  }

  /** One round of the loop, at position `a` of the dividend. */
  method DivideStep(u: array<nat>, a: nat, v: array<nat>, vo: nat, n: nat, ghost digits: seq<nat>, ghost U0: nat, B: nat)
    returns (qhat: nat)
    requires u != v && u.Length == v.Length == 5
    requires n >= 2 && vo + n == 4 && a + n < 5
    requires LoopState(u[..], a, v[vo + 1..5], digits, U0, B)
    modifies u
    ensures LoopState(u[..], a + 1, v[vo + 1..5], digits + [qhat], U0, B)
  {
    ghost var was, vv := u[..], v[vo + 1..5];
    LoopDividable(was, a, vv, digits, U0, B);
    assert u[a..a + n + 1] == was[a..a + n + 1];
    assert v[vo + 1..vo + n + 1] == vv;
    qhat := QuotientDigit(u, a, v, vo, n, B);
    assert u[a..a + n + 1] == u[..][a..a + n + 1];
    NextLoopState(was, u[..], a, vv, digits, qhat, U0, B);
  }

  /** Steps D2 to D7 on u[uo..5) by v[vo+1..5), n = 4 - vo digits; quotient digits go to q[qo..5). */
  method DivideDigits(u: array<nat>, uo: nat, v: array<nat>, vo: nat, q: array<nat>, qo: nat, m: nat, n: nat,
                      ghost U0: nat, B: nat)
    requires u != v && u != q && v != q && u.Length == v.Length == q.Length == 5
    requires n >= 2 && uo + m + n == 4 && vo + n == 4 && qo + m == 4
    requires LoopState(u[..], uo, v[vo + 1..5], [], U0, B)
    modifies u, q
    ensures forall k :: 0 <= k < qo ==> q[k] == old(q[k])
    ensures LoopState(u[..], uo + m + 1, v[vo + 1..5], q[qo..5], U0, B)
  {
    hide LoopState;
    var j := 0;
    ghost var digits: seq<nat>, vv := [], v[vo + 1..5];
    while j <= m
      invariant 0 <= j <= m + 1
      invariant forall k :: 0 <= k < qo ==> q[k] == old(q[k])
      invariant |digits| == j && forall k :: 0 <= k < j ==> q[qo + k] == digits[k]
      invariant v[vo + 1..5] == vv && LoopState(u[..], uo + j, vv, digits, U0, B)
    {
      var qhat := DivideStep(u, uo + j, v, vo, n, digits, U0, B);
      ghost var now := u[..];
      q[qo + j] := qhat;
      assert u[..] == now;
      digits := digits + [qhat];
      j := j + 1;
    }
    assert q[qo..5] == digits;
  }

  // ---- The digits of a quad, and the remainder's shift back ----

  /** A quad as its four digits. */
  method SplitQuad(x: nat, B: nat) returns (d1: nat, d2: nat, d3: nat, d4: nat)
    requires B > 1 && x < Pow(B, 4)
    ensures Digits([d1, d2, d3, d4], B)
    ensures Num([d1, d2, d3, d4], B) == x
  {
    MulMonotone(1, B, B);
    var high, low := Div(x, B * B), Mod(x, B * B);
    d1, d2, d3, d4 := Div(high, B), Mod(high, B), Div(low, B), Mod(low, B);
    DivBounds(x, B * B);
    DivBounds(high, B);
    DivBounds(low, B);
    QuadDigits(x, high, low, d1, d2, d3, d4, B);
  }

  lemma QuadDigits(x: nat, high: nat, low: nat, d1: nat, d2: nat, d3: nat, d4: nat, B: nat)
    requires B > 1 && x < Pow(B, 4)
    requires x == high * (B * B) + low && low < B * B
    requires high == d1 * B + d2 && low == d3 * B + d4 && d2 < B && d4 < B
    ensures d1 < B && d3 < B
    ensures Num([d1, d2, d3, d4], B) == x
  {
    PowOfFour(B);
    if high >= B * B {
      MulMonotone(B * B, high, B * B);
      assert false;
    }
    if d1 >= B {
      MulMonotone(B, d1, B);
      assert false;
    }
    if d3 >= B {
      MulMonotone(B, d3, B);
      assert false;
    }
    assert [d1, d2, d3, d4] == [d1, d2] + [d3, d4];
    NumAppend([d1, d2], [d3, d4], B);
    NumOfTwo(d1, d2, B);
    NumOfTwo(d3, d4, B);
    assert Pow(B, 2) == B * B by {
      assert Pow(B, 2) == B * Pow(B, 1) && Pow(B, 1) == B * Pow(B, 0);
    }
  }

  lemma PowOfFour(B: nat)
    ensures Pow(B, 4) == B * B * (B * B)
  {
    assert Pow(B, 1) == B * Pow(B, 0) && Pow(B, 2) == B * Pow(B, 1);
    PowAdd(B, 2, 2);
  }

  /** One digit of a right shift, with what comes in from the digit to the left. */
  function ShrDigit(x: nat, left: nat, d: nat, h: nat): nat
    requires d <= h
  {
    Div(x, Pow2(d)) + ShiftKeep(left, h - d, h)
  }

  function ShrDigits(s: seq<nat>, d: nat, h: nat): (r: seq<nat>)
    requires d <= h
    ensures |r| == |s|
  {
    seq(|s|, k requires 0 <= k < |s| => ShrDigit(s[k], if k == 0 then 0 else s[k - 1], d, h))
  }

  /** What a digit loses to the right is what the next digit gets on its left. */
  lemma ShiftKeepIsLow(x: nat, d: nat, h: nat)
    requires 0 < d < h && x < Pow2(h)
    ensures ShiftKeep(x, h - d, h) == Mod(x, Pow2(d)) * Pow2(h - d)
    ensures ShiftKeep(x, h - d, h) * Pow2(d) == Mod(x, Pow2(d)) * Pow2(h)
  {
    ShiftDigit(x, h, h - d);
    var s, k, q, r := Pow2(d), Pow2(h - d), Div(x, Pow2(d)), Mod(x, Pow2(d));
    DivBounds(x, s);
    Pow2Add(d, h - d);
    MulDist(k, q * s, r);
    MulAssoc(q, s, k);
    MulAssoc(r, k, s);
    assert k * s == Pow2(h);
  }

  lemma {:induction false} ShrPrefix(s: seq<nat>, i: nat, d: nat, h: nat)
    requires i < |s| && 0 < d < h && Digits(s, Pow2(h))
    ensures Num(ShrDigits(s, d, h)[..i + 1], Pow2(h)) * Pow2(d) + Mod(s[i], Pow2(d)) == Num(s[..i + 1], Pow2(h))
  {
    hide Num, Pow2, Mod, Div, ShiftKeep, ShrDigits;
    var B, p, r := Pow2(h), Pow2(d), ShrDigits(s, d, h);
    PrefixSnoc(r, i, B);
    PrefixSnoc(s, i, B);
    DivBounds(s[i], p);
    ShrAt(s, d, h, i);
    if i == 0 {
      NothingLeft(r, s, d, h);
    } else {
      ShrPrefix(s, i - 1, d, h);
      ShiftKeepIsLow(s[i - 1], d, h);
      ShrAlgebra(Num(r[..i], B), Num(s[..i], B), Mod(s[i - 1], p), ShiftKeep(s[i - 1], h - d, h),
                 Div(s[i], p), Mod(s[i], p), s[i], B, p);
    }
  }

  lemma PrefixSnoc(s: seq<nat>, i: nat, B: nat)
    requires i < |s|
    ensures Num(s[..i + 1], B) == Num(s[..i], B) * B + s[i]
  {
    assert s[..i + 1] == s[..i] + [s[i]];
    NumSnoc(s[..i], s[i], B);
  }

  lemma NothingLeft(r: seq<nat>, s: seq<nat>, d: nat, h: nat)
    requires d <= h
    ensures Num(r[..0], Pow2(h)) * Pow2(h) == 0 && Num(s[..0], Pow2(h)) * Pow2(h) == 0 && ShiftKeep(0, h - d, h) == 0
  {
    ModSmall(0, Pow2(h));
  }

  lemma ShrAlgebra(n: nat, w: nat, low: nat, carry: nat, q: nat, r: nat, x: nat, B: nat, p: nat)
    requires n * p + low == w && carry * p == low * B && x == q * p + r
    ensures (n * B + (q + carry)) * p + r == w * B + x
  {
    MulDist(p, n * B, q + carry);
    MulDist(p, q, carry);
    MulDist(B, n * p, low);
    assert n * B * p == n * p * B by {
      MulAssoc(n, B, p);
      MulAssoc(n, p, B);
      assert B * p == p * B;
    }
  }

  lemma ShrAt(s: seq<nat>, d: nat, h: nat, k: nat)
    requires d <= h && k < |s|
    ensures ShrDigits(s, d, h)[k] == ShrDigit(s[k], if k == 0 then 0 else s[k - 1], d, h)
  {
  }

  /** One digit of the tail loop. */
  method UnshiftDigit(left: nat, x: nat, d: nat, h: nat) returns (r: nat)
    requires 0 < d < h && left < Pow2(h) && x < Pow2(h)
    ensures r == ShrDigit(x, left, d, h)
  {
    hide Pow2, ShiftKeep, Mod, Div;
    ShiftDigit(left, h, h - d);
    ShiftDigit(x, h, h - d);
    r := OrDisjoint(ShiftKeep(left, h - d, h), Div(x, Pow2(d)), h - d);
  }

  /** The tail loop: u[m..5) shifted right by `d` bits, its leading digit being zero. */
  method Unshift(u: array<nat>, a: nat, d: nat, h: nat)
    requires u.Length == 5 && a < 5 && 0 < d < h
    requires Digits(u[..], Pow2(h)) && u[a] == 0
    modifies u
    ensures forall k :: 0 <= k <= a ==> u[k] == old(u[k])
    ensures u[a + 1..5] == ShrDigits(old(u[a + 1..5]), d, h)
  {
    ghost var was := u[a + 1..5];
    assert forall k :: 0 <= k < 5 ==> u[k] == u[..][k] && u[k] < Pow2(h);
    hide Digits, Pow2, ShrDigits, ShrDigit;
    ghost var r := ShrDigits(was, d, h);
    var i := 4;
    while i > a
      invariant a <= i <= 4
      invariant forall k :: 0 <= k <= i ==> u[k] == old(u[k])
      invariant forall k :: i < k < 5 ==> u[k] == r[k - a - 1]
    {
      ShrAt(was, d, h, i - a - 1);
      u[i] := UnshiftDigit(u[i - 1], u[i], d, h);
      i := i - 1;
    }
    u[a] := 0;
  }

  // ---- __qdivrem ----

  datatype Quotient = DivideByZero | Quotient(value: nat)

  lemma {:induction false} LeadingZeros(s: seq<nat>, k: nat, B: nat)
    requires k <= |s| && (forall i :: 0 <= i < k ==> s[i] == 0)
    ensures Num(s, B) == Num(s[k..], B)
  {
    if k == 0 {
      assert s[0..] == s;
    } else {
      LeadingZeros(s, k - 1, B);
      assert s[k - 1..] == [0] + s[k..];
      NumCons(0, s[k..], B);
      assert 0 * Pow(B, |s[k..]|) == 0;
    }
  }

  lemma LeadingNonZero(s: seq<nat>, B: nat)
    requires s != [] && s[0] > 0
    ensures Num(s, B) >= Pow(B, |s| - 1)
  {
    assert s == [s[0]] + s[1..];
    NumCons(s[0], s[1..], B);
    MulMonotone(1, s[0], Pow(B, |s| - 1));
  }

  /** Two digits, or two longs, as one number. */
  function Combine(a: nat, b: nat, B: nat): nat
    requires b < B
  {
    a * B + b
  }

  /** Four digits as a quad. */
  method JoinQuad(d1: nat, d2: nat, d3: nat, d4: nat, B: nat) returns (x: nat)
    requires B > 1 && Digits([d1, d2, d3, d4], B)
    ensures x == Num([d1, d2, d3, d4], B)
  {
    var d := [d1, d2, d3, d4];
    assert d1 == d[0] && d2 == d[1] && d3 == d[2] && d4 == d[3];
    assert [d1, d2, d3, d4] == [d1, d2] + [d3, d4];
    NumAppend([d1, d2], [d3, d4], B);
    NumOfTwo(d1, d2, B);
    NumOfTwo(d3, d4, B);
    NumBound([d3, d4], B);
    assert Pow(B, 2) == B * B by {
      assert Pow(B, 2) == B * Pow(B, 1) && Pow(B, 1) == B * Pow(B, 0);
    }
    x := Combine(Combine(d1, d2, B), Combine(d3, d4, B), B * B);
  }

  /** The four digits of a quad behind the first place of an array. */
  method StoreQuad(a: array<nat>, x: nat, B: nat)
    requires a.Length == 5 && B > 1 && x < Pow(B, 4)
    modifies a
    ensures a[0] == old(a[0]) && Digits(a[1..5], B) && Num(a[1..5], B) == x
  {
    hide *;
    var d1, d2, d3, d4 := SplitQuad(x, B);
    a[1], a[2], a[3], a[4] := d1, d2, d3, d4;
    assert a[1..5] == [d1, d2, d3, d4];
  }

  /** Exercise 16 of Knuth's section: division by a single digit `t`. The source unrolls this loop. */
  method ShortDivide(u1: nat, u2: nat, u3: nat, u4: nat, t: nat, B: nat) returns (quot: nat, rem: nat)
    requires B > 1 && 0 < t < B && Digits([u1, u2, u3, u4], B)
    ensures Num([u1, u2, u3, u4], B) == Times(quot, t) + rem && rem < t
  {
    var s := [u1, u2, u3, u4];
    var q: seq<nat>, j := [], 0;
    rem := 0;
    while j < 4
      invariant 0 <= j <= 4 && |q| == j && Digits(q, B) && rem < t
      invariant Num(s[..j], B) == Times(Num(q, B), t) + rem
    {
      var qj;
      qj, rem := ShortStep(s[..j], q, s[j], rem, t, B);
      assert s[..j + 1] == s[..j] + [s[j]];
      q, j := q + [qj], j + 1;
    }
    assert s[..4] == s && q == [q[0], q[1], q[2], q[3]];
    quot := JoinQuad(q[0], q[1], q[2], q[3], B);
  }

  /** One digit of it; `us` and `qs` are the digits already divided and their quotient. */
  method ShortStep(ghost us: seq<nat>, ghost qs: seq<nat>, d: nat, r: nat, t: nat, B: nat) returns (q: nat, rem: nat)
    requires B > 1 && 0 < t < B && d < B && r < t && Digits(qs, B)
    requires Num(us, B) == Times(Num(qs, B), t) + r
    ensures q < B && rem < t && Digits(qs + [q], B)
    ensures Num(us + [d], B) == Times(Num(qs + [q], B), t) + rem
  {
    hide Num, Times, Div, Mod;
    var rbj := Combine(r, d, B);
    q, rem := Div(rbj, t), Mod(rbj, t);
    DivBounds(rbj, t);
    if q >= B {
      MulMonotone(B, q, t);
      MulMonotone(r + 1, t, B);
      MulDist(B, r, 1);
      assert false;
    }
    NumSnoc(us, d, B);
    NumSnoc(qs, q, B);
    TimesIsProduct(Num(qs, B), t);
    TimesIsProduct(Num(qs, B) * B + q, t);
    ShortAlgebra(Num(qs, B), r, Num(us, B), d, q, rem, t, B);
  }

  lemma ShortAlgebra(Q: nat, r: nat, u: nat, d: nat, q: nat, rem: nat, t: nat, B: nat)
    requires u == Q * t + r && r * B + d == q * t + rem
    ensures u * B + d == (Q * B + q) * t + rem
  {
    MulDist(B, Q * t, r);
    MulDist(t, Q * B, q);
    assert Q * t * B == Q * B * t by {
      MulAssoc(Q, t, B);
      MulAssoc(Q, B, t);
      assert t * B == B * t;
    }
  }

  /** D1 makes the leading digit of the divisor at least B / 2. */
  method NormalisingShift(v1: nat, h: nat) returns (d: nat)
    requires 0 < v1 < Pow2(h) && h > 0
    ensures d < h && v1 * Pow2(d) < Pow2(h) <= v1 * Pow2(d) * 2
  {
    d := 0;
    var t := v1;
    var half := Pow2(h - 1);
    assert Pow2(h) == 2 * half;
    while t < half
      invariant t == v1 * Pow2(d) < Pow2(h)
      decreases Pow2(h) - t
    {
      MulMonotone(1, v1, Pow2(d));
      assert v1 * Pow2(d + 1) == 2 * t by {
        MulAssoc(2, Pow2(d), v1);
        assert v1 * Pow2(d) == Pow2(d) * v1;
        assert v1 * Pow2(d + 1) == Pow2(d + 1) * v1;
      }
      t := 2 * t;
      d := d + 1;
    }
    MulMonotone(1, v1, Pow2(d));
    if d >= h {
      Pow2Monotone(h, d);
    }
  }

  /** Dividend and divisor shifted alike satisfy the loop's precondition. */
  lemma InitialLoopState(u: seq<nat>, uo: nat, v: seq<nat>, U: nat, V: nat, s: nat, B: nat)
    requires B > 1 && s > 0 && |v| >= 2 && v[0] > 0 && Digits(v, B) && Digits(u, B)
    requires uo + |v| < |u| && (forall k :: 0 <= k < uo ==> u[k] == 0)
    requires Num(u[uo..], B) == U * s && Num(v, B) == V * s
    requires U < Pow(B, |u| - uo - 1) && V >= Pow(B, |v| - 1)
    ensures LoopState(u, uo, v, [], U * s, B)
  {
    ShiftedHead(u, uo, v, U, V, s, B);
    NothingFound(Num(v, B), |u| - uo - |v|, B);
  }

  /** No digit found yet accounts for nothing. */
  lemma NothingFound(V: nat, k: nat, B: nat)
    ensures Times(Times(Num([], B), V), Pow(B, k)) == 0
  {
    assert Num([], B) == 0;
    assert Times(0, V) == 0 && Times(0, Pow(B, k)) == 0;
  }

  lemma ShiftedHead(u: seq<nat>, uo: nat, v: seq<nat>, U: nat, V: nat, s: nat, B: nat)
    requires s > 0 && |v| >= 2 && uo + |v| < |u|
    requires Num(u[uo..], B) == U * s && Num(v, B) == V * s
    requires U < Pow(B, |u| - uo - 1) && V >= Pow(B, |v| - 1)
    ensures Num(u[uo..uo + |v|], B) < Num(v, B)
  {
    hide Num, Pow;
    var head, tail := u[uo..uo + |v|], u[uo + |v|..];
    assert u[uo..] == head + tail;
    NumAppend(head, tail, B);
    InitialHead(U, V, s, Num(head, B), Num(tail, B), |v| - 1, |tail|, B);
  }

  lemma InitialHead(U: nat, V: nat, s: nat, head: nat, tail: nat, n: nat, m: nat, B: nat)
    requires s > 0 && U < Pow(B, n + m) && V >= Pow(B, n) && U * s == head * Pow(B, m) + tail
    ensures head < V * s
  {
    PowAdd(B, n, m);
    MulMonotone(Pow(B, n), V, Pow(B, m));
    HeadBelow(U, V, s, Pow(B, m), head, tail);
  }

  lemma HeadBelow(U: nat, V: nat, s: nat, P: nat, head: nat, tail: nat)
    requires s > 0 && U < V * P && U * s == head * P + tail
    ensures head < V * s
  {
    if head >= V * s {
      MulMonotone(V * s, head, P);
      MulMonotone(U + 1, V * P, s);
      MulDist(s, U, 1);
      MulAssoc(V, s, P);
      MulAssoc(V, P, s);
      assert false;
    }
  }

  /** Undoing the shift: quotient and remainder of the shifted pair give those of the pair itself. */
  lemma Denormalise(U: nat, V: nat, s: nat, q: nat, R: nat)
    requires s > 0 && U * s == q * (V * s) + R && R < V * s
    ensures R == Div(R, s) * s && U == q * V + Div(R, s) && Div(R, s) < V
  {
    MulAssoc(q, V, s);
    MulDist(s, U, q * V);
    var r := U - q * V;
    assert R == r * s;
    if r < 0 {
      MulMonotone(r, -1, s);
    }
    if r >= V {
      MulMonotone(V, r, s);
    }
    DivModUnique(R, s, r, 0);
  }

  /** `q` times `v` plus `r` is `u`, with `r` below `v`. */
  ghost predicate Divides(u: nat, v: nat, q: nat, r: nat) {
    u == Times(q, v) + r && r < v
  }

  /** The digits `s` shifted left by `d` bits; no shift at all when `d` is zero. */
  function Scaled(s: seq<nat>, d: nat, h: nat): (r: seq<nat>)
    requires d <= h
    ensures |r| == |s|
  {
    if d == 0 then s else ShlDigits(s, d, h)
  }

  lemma ScaledMeaning(s: seq<nat>, d: nat, h: nat)
    requires s != [] && d < h && Digits(s, Pow2(h)) && s[0] * Pow2(d) < Pow2(h)
    ensures Digits(Scaled(s, d, h), Pow2(h))
    ensures Num(Scaled(s, d, h), Pow2(h)) == Num(s, Pow2(h)) * Pow2(d)
  {
    if d > 0 {
      ShlMeaning(s, d, h);
    }
  }

  /** D1: shifts dividend u[uo..5) and divisor v[vo+1..5) left until the divisor's leading digit is at
      least B / 2. */
  method Normalise(u: array<nat>, uo: nat, v: array<nat>, vo: nat, m: nat, n: nat, h: nat) returns (d: nat)
    requires u != v && u.Length == v.Length == 5 && h > 0
    requires n >= 2 && uo + m + n == 4 && vo + n == 4
    requires Digits(u[uo..5], Pow2(h)) && Digits(v[vo + 1..5], Pow2(h)) && v[vo + 1] > 0
    modifies u, v
    ensures d < h && old(v[vo + 1]) * Pow2(d) < Pow2(h) <= old(v[vo + 1]) * Pow2(d) * 2
    ensures forall k :: 0 <= k < uo ==> u[k] == old(u[k])
    ensures u[uo..5] == Scaled(old(u[uo..5]), d, h) && v[vo + 1..5] == Scaled(old(v[vo + 1..5]), d, h)
  {
    ghost var uu, vv := u[uo..5], v[vo + 1..5];
    assert vv[0] == v[vo + 1];
    d := NormalisingShift(v[vo + 1], h);
    if d > 0 {
      Shl(u, uo, m + n, d, h);
      assert u[uo..5] == ShlDigits(uu, d, h);
      assert v[vo + 1..5] == vv;
      Shl(v, vo + 1, n - 1, d, h);
      assert v[vo + 1..5] == ShlDigits(vv, d, h);
    }
  }

  lemma NormalisedPair(u: seq<nat>, u': seq<nat>, uo: nat, v: seq<nat>, d: nat, h: nat)
    requires |v| >= 2 && |u| == |u'| == 5 && uo + |v| < 5 && d < h
    requires (forall k :: 0 <= k <= uo ==> u[k] == 0) && (forall k :: 0 <= k < uo ==> u'[k] == 0)
    requires Digits(u[uo..5], Pow2(h)) && Digits(v, Pow2(h))
    requires v[0] > 0 && v[0] * Pow2(d) < Pow2(h)
    requires u'[uo..5] == Scaled(u[uo..5], d, h)
    ensures Num(Scaled(v, d, h), Pow2(h)) == Times(Num(v, Pow2(h)), Pow2(d))
    ensures LoopState(u', uo, Scaled(v, d, h), [], Times(Num(u[uo..5], Pow2(h)), Pow2(d)), Pow2(h))
  {
    hide Num, Pow, Pow2, Times, LoopState, ShlDigits;
    var uu := u[uo..5];
    ScaledNumber(v, d, h);
    ZeroStays(d, h);
    ScaledNumber(uu, d, h);
    ZeroInFront(uu, Pow2(h));
    LeadingNonZero(v, Pow2(h));
    ScaledLeading(v, d, h);
    ShiftedPair(u', uo, Scaled(v, d, h), Num(uu, Pow2(h)), Num(v, Pow2(h)), d, h);
  }

  lemma ZeroStays(d: nat, h: nat)
    ensures 0 * Pow2(d) < Pow2(h)
  {
  }

  lemma ScaledNumber(s: seq<nat>, d: nat, h: nat)
    requires s != [] && d < h && Digits(s, Pow2(h)) && s[0] * Pow2(d) < Pow2(h)
    ensures Digits(Scaled(s, d, h), Pow2(h))
    ensures Num(Scaled(s, d, h), Pow2(h)) == Times(Num(s, Pow2(h)), Pow2(d))
  {
    hide Num, Pow2, Times, ShlDigits;
    TimesIsProduct(Num(s, Pow2(h)), Pow2(d));
    ScaledMeaning(s, d, h);
  }

  /** A number with a leading zero is one digit shorter. */
  lemma ZeroInFront(s: seq<nat>, B: nat)
    requires s != [] && s[0] == 0 && Digits(s, B)
    ensures Num(s, B) < Pow(B, |s| - 1)
  {
    hide Num, Pow;
    assert s == [0] + s[1..];
    NumCons(0, s[1..], B);
    NumBound(s[1..], B);
    assert 0 * Pow(B, |s[1..]|) == 0;
  }

  lemma ScaledLeading(v: seq<nat>, d: nat, h: nat)
    requires v != [] && v[0] > 0 && d < h && v[0] * Pow2(d) < Pow2(h)
    ensures Scaled(v, d, h)[0] >= v[0] * Pow2(d) > 0
  {
    MulMonotone(1, v[0], Pow2(d));
    ModSmall(v[0] * Pow2(d), Pow2(h));
  }

  lemma ShiftedPair(u: seq<nat>, uo: nat, v: seq<nat>, uq: nat, vq: nat, d: nat, h: nat)
    requires |v| >= 2 && |u| == 5 && uo + |v| < 5 && h > 0
    requires (forall k :: 0 <= k < uo ==> u[k] == 0)
    requires Digits(u[uo..5], Pow2(h)) && Digits(v, Pow2(h)) && v[0] > 0
    requires Num(u[uo..5], Pow2(h)) == Times(uq, Pow2(d)) && Num(v, Pow2(h)) == Times(vq, Pow2(d))
    requires uq < Pow(Pow2(h), 4 - uo) && vq >= Pow(Pow2(h), |v| - 1)
    ensures LoopState(u, uo, v, [], Times(uq, Pow2(d)), Pow2(h))
  {
    hide *;
    Pow2Above(h);
    PaddedDigits(u, uo, Pow2(h));
    TimesIsProduct(uq, Pow2(d));
    TimesIsProduct(vq, Pow2(d));
    InitialLoopState(u, uo, v, uq, vq, Pow2(d), Pow2(h));
  }

  lemma Pow2Above(h: nat)
    requires h > 0
    ensures Pow2(h) > 1
  {
    Pow2Monotone(0, h);
  }

  /** Zeros in front are digits. */
  lemma PaddedDigits(u: seq<nat>, uo: nat, B: nat)
    requires |u| == 5 && uo <= 5 && B > 1 && (forall k :: 0 <= k < uo ==> u[k] == 0) && Digits(u[uo..5], B)
    ensures Digits(u, B) && u[uo..] == u[uo..5]
  {
    assert u[uo..] == u[uo..5];
    forall k | 0 <= k < |u| ensures u[k] < B {
      if k >= uo {
        assert u[k] == u[uo..5][k - uo];
      }
    }
  }

  lemma ShrMeaning(s: seq<nat>, d: nat, h: nat)
    requires s != [] && 0 < d < h && Digits(s, Pow2(h))
    ensures Digits(ShrDigits(s, d, h), Pow2(h))
    ensures Num(ShrDigits(s, d, h), Pow2(h)) == Div(Num(s, Pow2(h)), Pow2(d))
  {
    var n, r, B := |s| - 1, ShrDigits(s, d, h), Pow2(h);
    assert Num(r, B) * Pow2(d) + Mod(s[n], Pow2(d)) == Num(s, B) by {
      ShrPrefix(s, n, d, h);
      assert s[..n + 1] == s && r[..n + 1] == r;
    }
    DivModUnique(Num(s, B), Pow2(d), Num(r, B), Mod(s[n], Pow2(d)));
    forall k | 0 <= k < |s| ensures r[k] < B {
      ShrDigitFits(s[k], if k == 0 then 0 else s[k - 1], d, h);
    }
  }

  lemma ShrDigitFits(x: nat, left: nat, d: nat, h: nat)
    requires 0 < d < h && x < Pow2(h) && left < Pow2(h)
    ensures ShrDigit(x, left, d, h) < Pow2(h)
  {
    ShiftDigitFits(left, x, h, h - d);
  }

  /** Steps before D1 that count the leading zero digits of the dividend. */
  method SkipZeros(u: array<nat>, n: nat, ghost vq: nat, B: nat) returns (uo: nat, m: nat)
    requires u.Length == 5 && 2 <= n <= 4 && B > 1
    requires Digits(u[1..5], B) && u[0] == 0
    requires Num(u[1..5], B) >= vq >= Pow(B, n - 1)
    ensures uo + m + n == 4
    ensures forall k :: 0 <= k <= uo ==> u[k] == 0
    ensures Num(u[uo..5], B) == Num(u[1..5], B)
  {
    uo, m := 0, 4 - n;
    while u[uo + 1] == 0
      invariant uo + m + n == 4
      invariant forall k :: 0 <= k <= uo ==> u[k] == 0
      decreases m
    {
      if m == 0 {
        TooManyZeros(u[1..5], n, B);
      }
      uo, m := uo + 1, m - 1;
    }
    LeadingZeros(u[0..5], uo, B);
    LeadingZeros(u[0..5], 1, B);
    assert u[0..5][uo..] == u[uo..5] && u[0..5][1..] == u[1..5];
  }

  lemma TooManyZeros(s: seq<nat>, n: nat, B: nat)
    requires |s| == 4 && 2 <= n <= 4 && Digits(s, B)
    requires forall k :: 0 <= k < 5 - n ==> s[k] == 0
    ensures Num(s, B) < Pow(B, n - 1)
  {
    LeadingZeros(s, 5 - n, B);
    NumBound(s[5 - n..], B);
  }

  /** D1 with its meaning: both numbers are multiplied by 2^d, and the loop may start. */
  method NormalisePair(u: array<nat>, uo: nat, v: array<nat>, vo: nat, m: nat, n: nat, h: nat) returns (d: nat)
    requires u != v && u.Length == v.Length == 5 && h > 0
    requires n >= 2 && uo + m + n == 4 && vo + n == 4
    requires Digits(u[1..5], Pow2(h)) && forall k :: 0 <= k <= uo ==> u[k] == 0
    requires Digits(v[vo + 1..5], Pow2(h)) && v[vo + 1] > 0
    modifies u, v
    ensures d < h && Pow2(h) <= v[vo + 1] * 2
    ensures Num(v[vo + 1..5], Pow2(h)) == Times(old(Num(v[vo + 1..5], Pow2(h))), Pow2(d))
    ensures LoopState(u[..], uo, v[vo + 1..5], [], Times(old(Num(u[uo..5], Pow2(h))), Pow2(d)), Pow2(h))
  {
    hide Num, Pow, Pow2, Times, LoopState, Scaled;
    ghost var was, vv := u[..], v[vo + 1..5];
    assert was[uo..5] == u[uo..5];
    SuffixDigits(was, uo, Pow2(h));
    d := Normalise(u, uo, v, vo, m, n, h);
    NormalisedPair(was, u[..], uo, vv, d, h);
    ScaledLeading(vv, d, h);
    assert v[vo + 1] == v[vo + 1..5][0];
  }

  /** The leading quotient digits, which no step of Program D writes. */
  method ClearDigits(q: array<nat>, k: nat)
    requires k <= q.Length
    modifies q
    ensures forall i :: 0 <= i < k ==> q[i] == 0
  {
    var i := k;
    while i > 0
      invariant 0 <= i <= k
      invariant forall j :: i <= j < k ==> q[j] == 0
    {
      i := i - 1;
      q[i] := 0;
    }
  }

  /** The divisor has `n` digits, two or more: Program D. */
  method LongDivide(u: array<nat>, v: array<nat>, q: array<nat>, vo: nat, n: nat, h: nat)
    returns (quot: nat, rem: nat)
    requires u != v && u != q && v != q && u.Length == v.Length == q.Length == 5
    requires h > 0 && n >= 2 && vo + n == 4
    requires Digits(u[1..5], Pow2(h)) && u[0] == 0
    requires Digits(v[vo + 1..5], Pow2(h)) && v[vo + 1] > 0
    requires Num(u[1..5], Pow2(h)) >= Num(v[vo + 1..5], Pow2(h))
    modifies u, v, q
    ensures Divides(old(Num(u[1..5], Pow2(h))), old(Num(v[vo + 1..5], Pow2(h))), quot, rem)
  {
    var B := Pow2(h);
    Pow2Monotone(0, h);
    ghost var uq, vq := Num(u[1..5], B), Num(v[vo + 1..5], B);
    LeadingNonZero(v[vo + 1..5], B);
    var uo, m := SkipZeros(u, n, vq, B);
    ClearDigits(q, 4 - m);
    var d := NormalisePair(u, uo, v, vo, m, n, h);
    DivideDigits(u, uo, v, vo, q, 4 - m, m, n, Times(uq, Pow2(d)), B);
    quot, rem := Collect(u, uo + m + 1, v[vo + 1..5], q, 4 - m, d, uq, vq, h);
  }

  lemma SuffixDigits(u: seq<nat>, uo: nat, B: nat)
    requires |u| == 5 && uo <= 4 && B > 0 && Digits(u[1..5], B) && (forall k :: 0 <= k <= uo ==> u[k] == 0)
    ensures Digits(u[uo..5], B)
  {
    forall k | 0 <= k < 5 - uo ensures u[uo..5][k] < B {
      if uo + k >= 1 {
        assert u[uo + k] == u[1..5][uo + k - 1];
      }
    }
  }

  /** The end of `__qdivrem`: the remainder is shifted back, and both results are assembled. */
  method Collect(u: array<nat>, a: nat, ghost v: seq<nat>, q: array<nat>, qo: nat, d: nat,
                 ghost uq: nat, ghost vq: nat, h: nat) returns (quot: nat, rem: nat)
    requires u != q && u.Length == q.Length == 5 && 1 <= a && a + |v| == 5 && 1 <= qo <= 5 && d < h
    requires LoopState(u[..], a, v, q[qo..5], Times(uq, Pow2(d)), Pow2(h)) && Num(v, Pow2(h)) == Times(vq, Pow2(d))
    requires forall k :: 0 <= k < qo ==> q[k] == 0
    modifies u
    ensures Divides(uq, vq, quot, rem)
  {
    hide Num, Times, Pow, Div, Mod;
    var B := Pow2(h);
    ghost var R := Num(u[a..5], B);
    ghost var rest := u[a..5];
    assert u[..][a..] == rest && u[..][a..a + |v|] == rest;
    LastState(u[..], a, v, q[qo..5], uq, vq, R, d, h);
    if d > 0 {
      ShrMeaning(rest, d, h);
      Unshift(u, a - 1, d, h);
      assert u[a - 1 + 1..5] == u[a..5];
    }
    assert Digits(u[a..5], B) && Num(u[a..5], B) == Div(R, Pow2(d)) by {
      if d == 0 {
        DivModUnique(R, 1, R, 0);
      }
    }
    FourDigits(u[..], a, B);
    FourDigits(q[..], qo, B);
    rem := JoinQuad(u[1], u[2], u[3], u[4], B);
    quot := JoinQuad(q[1], q[2], q[3], q[4], B);
    assert u[..][a..5] == u[a..5] && q[..][qo..5] == q[qo..5];
  }

  lemma LastState(u: seq<nat>, a: nat, v: seq<nat>, q: seq<nat>, uq: nat, vq: nat, R: nat, d: nat, h: nat)
    requires |u| == 5 && a + |v| == 5 && d < h
    requires LoopState(u, a, v, q, Times(uq, Pow2(d)), Pow2(h)) && Num(v, Pow2(h)) == Times(vq, Pow2(d))
    requires R == Num(u[a..5], Pow2(h))
    ensures Divides(uq, vq, Num(q, Pow2(h)), Div(R, Pow2(d)))
  {
    var B, Q := Pow2(h), Num(q, Pow2(h));
    assert u[a..] == u[a..5];
    TimesIsProduct(Q, Num(v, B));
    TimesIsProduct(Times(Q, Num(v, B)), 1);
    TimesIsProduct(uq, Pow2(d));
    TimesIsProduct(vq, Pow2(d));
    TimesIsProduct(Q, vq);
    Denormalise(uq, vq, Pow2(d), Q, R);
  }

  lemma FourDigits(s: seq<nat>, a: nat, B: nat)
    requires |s| == 5 && 1 <= a <= 5 && B > 0
    requires (forall k :: 0 <= k < a ==> s[k] == 0) && Digits(s[a..5], B)
    ensures Digits([s[1], s[2], s[3], s[4]], B)
    ensures Num([s[1], s[2], s[3], s[4]], B) == Num(s[a..5], B)
  {
    var t := s[1..5];
    assert t == [s[1], s[2], s[3], s[4]];
    LeadingZeros(t, a - 1, B);
    assert t[a - 1..] == s[a..5];
    forall k | 0 <= k < 4 ensures t[k] < B {
      if k + 1 >= a {
        assert t[k] == s[a..5][k + 1 - a];
      }
    }
  }

  /** `__qdivrem`: for quads `uq` and `vq` of four digits of `h` bits, the quotient and the remainder. */
  method QDivRem(uq: nat, vq: nat, h: nat) returns (quot: Quotient, rem: nat)
    requires h > 0 && uq < Pow(Pow2(h), 4) && vq < Pow(Pow2(h), 4)
    ensures vq == 0 ==> quot.DivideByZero? && rem == uq
    ensures vq != 0 ==> quot.Quotient? && uq == quot.value * vq + rem && rem < vq
  {
    if vq == 0 {
      return DivideByZero, uq;
    }
    if uq < vq {
      assert 0 * vq == 0;
      return Quotient(0), uq;
    }
    hide Num, Pow, Pow2, Times, Mod, Div;
    var B := Pow2(h);
    Pow2Above(h);
    var u, v, q := new nat[5], new nat[5], new nat[5];
    u[0] := 0;
    StoreQuad(u, uq, B);
    StoreQuad(v, vq, B);
    ghost var vv := v[1..5];
    var vo, n := 0, 4;
    while v[vo + 1] == 0
      invariant 2 <= n && vo + n == 4
      invariant v[1..5] == vv && forall k :: 0 <= k < vo ==> vv[k] == 0
      decreases n
    {
      assert vv[vo] == v[vo + 1];
      n := n - 1;
      if n == 1 {
        assert u[1..5] == [u[1], u[2], u[3], u[4]];
        LeadingZeros(vv, 3, B);
        assert vv[3..] == [v[4]];
        NumSingle(v[4], B);
        var value;
        value, rem := ShortDivide(u[1], u[2], u[3], u[4], v[vo + 2], B);
        TimesIsProduct(value, vq);
        return Quotient(value), rem;
      }
      vo := vo + 1;
    }
    LeadingZeros(vv, vo, B);
    assert vv[vo..] == v[vo + 1..5];
    var value;
    value, rem := LongDivide(u, v, q, vo, n, h);
    TimesIsProduct(value, vq);
    return Quotient(value), rem;
  }
}
