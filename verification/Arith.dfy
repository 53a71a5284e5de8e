/** Powers, digit strings and the few non-linear facts that the arithmetic modules share. */
module Arith {

  function Pow(b: nat, e: nat): (r: nat)
    ensures b > 0 ==> r > 0
  {
    if e == 0 then 1 else b * Pow(b, e - 1)
  }

  /** 2 to the power `e`: the value of the source's `1UL << e` where it does not overflow. */
  function Pow2(e: nat): (r: nat)
    ensures r > 0
  {
    if e == 0 then 1 else 2 * Pow2(e - 1)
  }

  function Bit01(b: bool): nat { if b then 1 else 0 }

  lemma {:induction false} PowAdd(b: nat, d: nat, e: nat)
    ensures Pow(b, d + e) == Pow(b, d) * Pow(b, e)
  {
    if d == 0 {
    } else {
      PowAdd(b, d - 1, e);
      MulAssoc(b, Pow(b, d - 1), Pow(b, e));
    }
  }

  lemma {:induction false} Pow2Add(d: nat, e: nat)
    ensures Pow2(d + e) == Pow2(d) * Pow2(e)
  {
    if d == 0 {
    } else {
      Pow2Add(d - 1, e);
      MulAssoc(2, Pow2(d - 1), Pow2(e));
    }
  }

  lemma {:induction false} Pow2Monotone(d: nat, e: nat)
    requires d <= e
    ensures Pow2(d) <= Pow2(e)
    ensures d < e ==> Pow2(d) < Pow2(e)
  {
    if d < e {
      Pow2Monotone(d, e - 1);
    }
  }

  lemma MulAssoc(x: int, y: int, z: int)
    ensures x * y * z == x * (y * z)
  {
  }

  lemma MulDist(x: int, y: int, z: int)
    ensures x * (y + z) == x * y + x * z
    ensures (y + z) * x == y * x + z * x
    ensures x * (y - z) == x * y - x * z
    ensures (y - z) * x == y * x - z * x
  {
  }

  lemma MulMonotone(x: int, y: int, z: int)
    requires x <= y && 0 <= z
    ensures x * z <= y * z
    ensures z * x <= z * y
  {
  }

  /** The quotient and the remainder of naturals, by repeated subtraction: proofs then meet no
      non-linear division except through the lemmas below. */
  function Div(x: nat, d: nat): (q: nat)
    requires d > 0
  {
    if x < d then 0 else 1 + Div(x - d, d)
  }

  function Mod(x: nat, d: nat): (r: nat)
    requires d > 0
    ensures r < d
  {
    if x < d then x else Mod(x - d, d)
  }

  /** The product of naturals by repeated addition, for the same reason. */
  function Times(q: nat, d: nat): nat {
    if q == 0 then 0 else d + Times(q - 1, d)
  }

  lemma {:induction false} TimesIsProduct(q: nat, d: nat)
    ensures Times(q, d) == q * d
  {
    if q > 0 {
      TimesIsProduct(q - 1, d);
      MulDist(d, q, 1);
    }
  }

  lemma {:induction false} DivBounds(a: nat, d: nat)
    requires d > 0
    ensures Div(a, d) * d <= a < Div(a, d) * d + d
    ensures a == Div(a, d) * d + Mod(a, d)
  {
    if a >= d {
      DivBounds(a - d, d);
      MulDist(d, 1, Div(a - d, d));
    }
  }

  /** Quotient and remainder are determined by the division identity. */
  lemma {:induction false} DivModUnique(a: nat, d: nat, q: nat, r: nat)
    requires r < d
    requires a == q * d + r
    ensures Div(a, d) == q && Mod(a, d) == r
  {
    if q > 0 {
      MulDist(d, q, 1);
      MulMonotone(0, q - 1, d);
      DivModUnique(a - d, d, q - 1, r);
    }
  }

  lemma ModSmall(a: nat, d: nat)
    requires a < d
    ensures Mod(a, d) == a && Div(a, d) == 0
  {
  }

  // ---- Digit strings, most significant digit first ----

  /** The number that `s` denotes in base `B`. */
  function Num(s: seq<nat>, B: nat): nat
  {
    if s == [] then 0 else Num(s[..|s| - 1], B) * B + s[|s| - 1]
  }

  ghost predicate Digits(s: seq<nat>, B: nat) {
    forall i :: 0 <= i < |s| ==> s[i] < B
  }

  lemma {:induction false} NumAppend(s: seq<nat>, t: seq<nat>, B: nat)
    ensures Num(s + t, B) == Num(s, B) * Pow(B, |t|) + Num(t, B)
  {
    if t == [] {
      assert s + t == s;
    } else {
      var t', d := t[..|t| - 1], t[|t| - 1];
      NumAppend(s, t', B);
      assert (s + t)[..|s + t| - 1] == s + t';
      calc {
        Num(s + t, B);
        Num(s + t', B) * B + d;
        (Num(s, B) * Pow(B, |t'|) + Num(t', B)) * B + d;
        { MulDist(B, Num(s, B) * Pow(B, |t'|), Num(t', B)); MulAssoc(Num(s, B), Pow(B, |t'|), B); }
        Num(s, B) * (Pow(B, |t'|) * B) + (Num(t', B) * B + d);
      }
      assert Pow(B, |t|) == B * Pow(B, |t'|);
    }
  }

  lemma NumCons(d: nat, t: seq<nat>, B: nat)
    ensures Num([d] + t, B) == d * Pow(B, |t|) + Num(t, B)
  {
    NumAppend([d], t, B);
    assert [d][..0] == [];
    assert Num([d], B) == Num([], B) * B + d;
  }

  lemma NumSingle(d: nat, B: nat)
    ensures Num([d], B) == d
  {
    assert [d][..0] == [];
    assert Num([], B) * B == 0;
  }

  lemma NumSnoc(s: seq<nat>, d: nat, B: nat)
    ensures Num(s + [d], B) == Num(s, B) * B + d
  {
    assert (s + [d])[..|s|] == s;
  }

  lemma {:induction false} NumBound(s: seq<nat>, B: nat)
    requires Digits(s, B)
    ensures Num(s, B) < Pow(B, |s|)
  {
    if s != [] {
      var s', d := s[..|s| - 1], s[|s| - 1];
      NumBound(s', B);
      MulMonotone(Num(s', B) + 1, Pow(B, |s'|), B);
      MulDist(B, Num(s', B), 1);
      assert Pow(B, |s|) == B * Pow(B, |s'|);
      assert d < B;
    }
  }
}
