/**
 The signed wrappers, lib/utils/libquad/divdi3.c and moddi3.c.  A `quad_t` is an integer in
 -W/2 .. W/2 - 1 for W == B^4; conversions between the signed and the unsigned type wrap modulo W.
 */
module SignedDivision {
  import opened Arith
  import opened Options
  import opened Qdivrem

  /** The number of values of a quad with digits of `h` bits. */
  function QuadRange(h: nat): (w: nat) { Pow(Pow2(h), 4) }

  ghost predicate IsQuad(x: int, h: nat) { 0 - QuadRange(h) <= 2 * x < QuadRange(h) }

  /** Two's complement: the unsigned quad with the bits of `x`, and the signed quad with those of `u`. */
  function ToUnsigned(x: int, h: nat): int { if x < 0 then x + QuadRange(h) else x }

  function ToSigned(u: int, h: nat): int { if 2 * u >= QuadRange(h) then u - QuadRange(h) else u }

  /** Unsigned negation. */
  function Negate(u: int, h: nat): int { if u == 0 then 0 else QuadRange(h) - u }

  /** The magnitude that both wrappers pass on. */
  function Magnitude(x: int, h: nat): int {
    if x < 0 then Negate(ToUnsigned(x, h), h) else ToUnsigned(x, h)
  }

  lemma MagnitudeIsAbsolute(x: int, h: nat)
    requires IsQuad(x, h)
    ensures Magnitude(x, h) == Abs(x)
    ensures 0 <= Magnitude(x, h) < QuadRange(h)
  {
  }

  function Abs(x: int): nat { if x < 0 then 0 - x else x }

  function Signed(negative: bool, x: nat): int { if negative then 0 - x else x }

  /** Division that truncates toward zero, as C defines it. */
  ghost predicate TruncatedDivision(a: int, b: int, q: int, r: int) {
    && a == q * b + r
    && Abs(r) < Abs(b)
    && (r != 0 ==> (r < 0 <==> a < 0))
  }

  /** There is at most one such quotient and remainder. */
  lemma TruncatedUnique(a: int, b: int, q: int, r: int, q': int, r': int)
    requires TruncatedDivision(a, b, q, r) && TruncatedDivision(a, b, q', r')
    ensures q == q' && r == r'
  {
    MulDist(b, q, q');
    var x := q - q';
    assert x * b == r' - r;
    if x > 0 && b > 0 {
      MulMonotone(1, x, b);
    } else if x < 0 && b > 0 {
      MulMonotone(x, -1, b);
    } else if x > 0 {
      MulMonotone(1, x, -b);
      NegateFactor(x, b);
    } else if x < 0 {
      MulMonotone(x, -1, -b);
      NegateFactor(x, b);
    }
  }

  lemma NegateFactor(x: int, b: int)
    ensures x * -b == -(x * b) && -x * b == -(x * b)
  {
  }

  function TruncQuot(a: int, b: int): int
    requires b != 0
  {
    Signed((a < 0) != (b < 0), Div(Abs(a), Abs(b)))
  }

  function TruncRem(a: int, b: int): int
    requires b != 0
  {
    Signed(a < 0, Mod(Abs(a), Abs(b)))
  }

  /** ... and this is it. */
  lemma TruncatedMeaning(a: int, b: int)
    requires b != 0
    ensures TruncatedDivision(a, b, TruncQuot(a, b), TruncRem(a, b))
  {
    var q := Div(Abs(a), Abs(b));
    DivBounds(Abs(a), Abs(b));
    NegateFactor(q, b);
    NegateFactor(q, Abs(b));
  }

  /** The truncated quotient of two quads is a quad unless the least quad is divided by -1. */
  lemma QuotientIsQuad(a: int, b: int, h: nat)
    requires IsQuad(a, h) && IsQuad(b, h) && b != 0
    ensures TruncQuot(a, b) == 0 - a || Abs(TruncQuot(a, b)) <= Abs(a)
    ensures IsQuad(TruncQuot(a, b), h) <==> !(2 * a == 0 - QuadRange(h) && b == -1)
    ensures 0 <= Div(Abs(a), Abs(b)) <= Abs(a)
  {
    var q, ua, ub := Div(Abs(a), Abs(b)), Abs(a), Abs(b);
    DivBounds(ua, ub);
    MulMonotone(1, ub, q);
    if ub >= 2 {
      MulMonotone(2, ub, q);
    } else {
      assert q * 1 == q;
      DivModUnique(ua, 1, ua, 0);
    }
  }

  /** `__divdi3`: the quotient truncated toward zero; the one quotient that is not a quad, that of the
      least quad by -1, wraps to the least quad. */
  method DivDi3(a: int, b: int, h: nat) returns (quot: Option<int>)
    requires h > 0 && IsQuad(a, h) && IsQuad(b, h)
    ensures quot.None? <==> b == 0
    ensures b != 0 && IsQuad(TruncQuot(a, b), h) ==> quot == Some(TruncQuot(a, b))
    ensures b != 0 && !IsQuad(TruncQuot(a, b), h) ==> quot == Some(a)
  {
    MagnitudeIsAbsolute(a, h);
    MagnitudeIsAbsolute(b, h);
    var uq, ur := UnsignedQuotient(Magnitude(a, h), Magnitude(b, h), h);
    if b == 0 {
      return None;
    }
    QuotientIsQuad(a, b, h);
    var neg := (a < 0) != (b < 0);
    quot := Some(ToSigned(if neg then Negate(uq, h) else uq, h));
    if !IsQuad(TruncQuot(a, b), h) {
      DivModUnique(Abs(a), 1, Abs(a), 0);
    }
  }

  /** `__qdivrem` on magnitudes. */
  method UnsignedQuotient(ua: nat, ub: nat, h: nat) returns (uq: nat, ur: nat)
    requires h > 0 && ua < QuadRange(h) && ub < QuadRange(h)
    ensures ub == 0 ==> ur == ua
    ensures ub != 0 ==> uq == Div(ua, ub) && ur == Mod(ua, ub)
  {
    var quot;
    quot, ur := QDivRem(ua, ub, h);
    if quot.DivideByZero? {
      return 0, ur;
    }
    uq := quot.value;
    DivModUnique(ua, ub, uq, ur);
  }

  /** `__moddi3`: the remainder takes the dividend's sign; by zero it is the dividend itself. */
  method ModDi3(a: int, b: int, h: nat) returns (rem: int)
    requires h > 0 && IsQuad(a, h) && IsQuad(b, h)
    ensures IsQuad(rem, h)
    ensures rem == if b == 0 then a else TruncRem(a, b)
  {
    MagnitudeIsAbsolute(a, h);
    MagnitudeIsAbsolute(b, h);
    var uq, ur := UnsignedQuotient(Magnitude(a, h), Magnitude(b, h), h);
    if b != 0 {
      RemainderBound(Abs(a), Abs(b));
    }
    rem := ToSigned(if a < 0 then Negate(ur, h) else ur, h);
  }

  lemma RemainderBound(ua: nat, ub: nat)
    requires ub > 0
    ensures Mod(ua, ub) <= ua
  {
    DivBounds(ua, ub);
    MulMonotone(0, Div(ua, ub), ub);
  }
}
