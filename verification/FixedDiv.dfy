/** Division of 31.32 values (drm_fixed.h). */
module FixedDiv {
  import opened Powers
  import opened Fixed
  import opened FixedMul

  /** The C operator: the quotient rounded toward zero. */
  function TruncatedQuotient(a: int, b: int): (q: int)
    requires b != 0
  {
    var q := Abs(a) / Abs(b);
    if (a < 0) != (b < 0) then -q else q
  }

  /** How far drm_fixp_div shifts the dividend up, and the divisor down. */
  function Up(a: int): (k: nat)
  {
    MsbIsSmall(a, 62);
    62 - Msb(a)
  }

  function Down(a: int): (k: nat) {
    if Up(a) < 32 then 32 - Up(a) else 0
  }

  lemma {:induction false} MsbIsSmall(a: int, k: nat)
    ensures MsbFrom(a, k) <= k
  {
    if k > 0 {
      MsbIsSmall(a, k - 1);
    }
  }

  /** The division that is left is not by zero, and its result fits. */
  predicate Divisible(a: int, b: int) {
    Shr(b, Down(a)) != 0 && !(a * Pow2(Up(a)) == -TWO_63 && Shr(b, Down(a)) == -1)
  }

  function FixedQuotient(a: int, b: int): (r: int)
    requires Divisible(a, b)
  {
    var q := TruncatedQuotient(a * Pow2(Up(a)), Shr(b, Down(a)));
    if Up(a) > 32 then Shr(q, Up(a) - 32) else q
  }

  /** The magnitudes that the divisor can have but for the bits cut off from it. */
  function Least(a: int, b: int): (d: int) {
    if b > 0 then b - (Pow2(Down(a)) - 1) else -b
  }

  function Most(a: int, b: int): (d: int) {
    if b > 0 then b else -b + (Pow2(Down(a)) - 1)
  }

  /** r has the sign of a / b, and its magnitude is that of a / b rounded down, but for the bits
      cut off from b; or rounded up, if the quotient is negative and shifted down. */
  predicate QuotientIsNear(a: int, b: int, r: int) {
    && (r == 0 || (r < 0 <==> ((a < 0) != (b < 0))))
    && Abs(a) * TWO_32 < (Abs(r) + 1) * Most(a, b)
    && (if Up(a) > 32 && (a < 0) != (b < 0) then (Abs(r) - 1) * Abs(b) <= Abs(a) * TWO_32
        else Abs(r) * Least(a, b) <= Abs(a) * TWO_32)
  }

  /** drm_fixp_div. If it is defined it is near the quotient; for a positive divisor it is
      defined exactly if the divisor has bits left. */
  method Div(a: int, b: int) returns (r: Result)
    requires IsS64(a) && IsS64(b)
    ensures r.Undefined? <==> !Divisible(a, b)
    ensures r.Value? ==> r.value == FixedQuotient(a, b)
    ensures r.Value? ==> b != 0 && QuotientIsNear(a, b, r.value)
    ensures a >= 0 && b > 0 ==> (r.Value? <==> b >= Pow2(Down(a)))
  {
    var shift := Msbset(a);
    MsbIsSmall(a, 62);
    shift := 62 - shift;
    DividendFits(a);
    var x, y := ToS64(a * Pow2(shift)), b;
    if shift < 32 {
      y := Shr(y, 32 - shift);
    } else {
      ShrNone(b);
    }
    if a >= 0 && b > 0 {
      DefinedForPositive(a, b);
    }
    if y == 0 || (x == -TWO_63 && y == -1) {
      return Undefined;
    }
    var result := TruncatedQuotient(x, y);
    if shift > 32 {
      result := Shr(result, shift - 32);
    }
    r := Value(result);
    QuotientIsClose(a, b);
  }

  /** The shifted dividend keeps all its bits. */
  lemma DividendFits(a: int)
    requires IsS64(a)
    ensures IsS64(a * Pow2(Up(a))) && ToS64(a * Pow2(Up(a))) == a * Pow2(Up(a))
  {
    MsbSpans(a);
    MsbIsSmall(a, 62);
    Pow2Values();
    Pow2Adds(Msb(a) + 1, Up(a));
    hide Pow2;
    Widened(a, Pow2(Msb(a) + 1), Pow2(Up(a)));
    ToS64Fits(a * Pow2(Up(a)));
  }

  lemma Widened(a: int, x: int, g: int)
    requires -x <= a < x && g > 0
    ensures -(x * g) <= a * g < x * g
  {
    ScaledOrder(-x, a, g);
    ScaledOrder(a, x - 1, g);
    assert (-x) * g == -(x * g);
  }

  lemma DefinedForPositive(a: int, b: int)
    requires a >= 0 && b > 0
    ensures Divisible(a, b) <==> b >= Pow2(Down(a))
  {
    var c := Down(a);
    ShrFloors(b, c);
    ShrSign(b, c);
    if Shr(b, c) > 0 {
      ScaledOrder(1, Shr(b, c), Pow2(c));
    }
  }

  lemma QuotientIsClose(a: int, b: int)
    requires Divisible(a, b)
    ensures b != 0 && QuotientIsNear(a, b, FixedQuotient(a, b))
  {
    ZeroIsZero(Down(a));
    if Up(a) > 32 {
      CloseByQuotient(a, b);
    } else {
      CloseByDivisor(a, b);
    }
  }

  lemma {:induction false} ZeroIsZero(k: nat)
    ensures Shr(0, k) == 0
  {
    if k > 0 {
      ZeroIsZero(k - 1);
    }
  }

  lemma AbsScales(a: int, g: int)
    requires g > 0
    ensures Abs(a * g) == Abs(a) * g && (a * g < 0 <==> a < 0)
  {
    if a < 0 {
      assert a * g == -((-a) * g);
      Monotone(1, -a, 1, g);
    } else {
      Monotone(0, a, 0, g);
    }
  }

  lemma CloseByQuotient(a: int, b: int)
    requires Up(a) > 32 && Divisible(a, b) && b != 0
    ensures QuotientIsNear(a, b, FixedQuotient(a, b))
  {
    var g := Pow2(Up(a) - 32);
    AbsScales(a, Pow2(Up(a)));
    ShrNone(b);
    ZeroBits();
    var x := a * Pow2(Up(a));
    var t, q := Abs(x) / Abs(b), TruncatedQuotient(x, b);
    QuotientBounds(Abs(x), Abs(b));
    AtLeastZero(t, Abs(b), Abs(x));
    Pow2Values();
    Pow2Adds(Up(a) - 32, 32);
    ShrFloors(q, Up(a) - 32);
    ShrSign(q, Up(a) - 32);
    ZeroIsZero(Up(a) - 32);
    var r := Shr(q, Up(a) - 32);
    hide Pow2, Shr, Up, Abs;
    ShiftedEitherWay(a, b, q, t, r, g);
  }

  lemma ShiftedEitherWay(a: int, b: int, q: int, t: int, r: int, g: int)
    requires t >= 0 && b != 0 && g > 0 && q == (if (a < 0) != (b < 0) then -t else t)
    requires r * g <= q < r * g + g
    requires t * Abs(b) <= Abs(a) * (g * TWO_32) < t * Abs(b) + Abs(b)
    ensures Abs(a) * TWO_32 < (Abs(r) + 1) * Abs(b)
    ensures if (a < 0) != (b < 0) then (Abs(r) - 1) * Abs(b) <= Abs(a) * TWO_32
            else Abs(r) * Abs(b) <= Abs(a) * TWO_32
  {
    if (a < 0) != (b < 0) {
      BelowZero(r, g, t);
      QuotientShiftedUp(Abs(a), Abs(b), t, Abs(r), g);
    } else {
      AtLeastZero(r, g, q);
      QuotientShiftedDown(Abs(a), Abs(b), t, r, g);
    }
  }

  lemma BelowZero(r: int, g: int, t: int)
    requires t >= 0 && g > 0 && r * g <= -t < r * g + g
    ensures r <= 0 && t <= Abs(r) * g < t + g
  {
    if r > 0 {
      Monotone(1, r, 1, g);
    }
    assert (-r) * g == -(r * g);
  }

  lemma CloseByDivisor(a: int, b: int)
    requires Up(a) <= 32 && Divisible(a, b) && b != 0
    ensures QuotientIsNear(a, b, FixedQuotient(a, b))
  {
    var c := Down(a);
    var x, y := a * Pow2(Up(a)), Shr(b, c);
    AbsScales(a, Pow2(Up(a)));
    ShrSign(b, c);
    ShrFloors(b, c);
    var t := Abs(x) / Abs(y);
    QuotientBounds(Abs(x), Abs(y));
    AtLeastZero(t, Abs(y), Abs(x));
    Pow2Values();
    Pow2Adds(c, Up(a));
    hide Pow2, Shr, Up, Abs;
    CutDivisor(b, y, Pow2(c));
    DivisorShiftedDown(Abs(a), Least(a, b), Most(a, b), t, Abs(y), Pow2(c), Pow2(Up(a)));
  }

  lemma CutDivisor(b: int, y: int, d: int)
    requires d > 0 && b != 0 && y != 0 && y * d <= b < y * d + d && (y >= 0 <==> b >= 0)
    ensures if b > 0 then b - (d - 1) <= Abs(y) * d <= b else -b <= Abs(y) * d <= -b + (d - 1)
  {
    assert (-y) * d == -(y * d);
  }

  lemma ZeroBits()
    ensures Pow2(0) == 1
  {
  }

  lemma AtLeastZero(q: int, y: nat, x: nat)
    requires y > 0 && x < q * y + y
    ensures q >= 0
  {
    if q < 0 {
      ScaledOrder(q, -1, y);
    }
  }

  lemma QuotientShiftedDown(a: nat, b: nat, q: nat, r: int, g: int)
    requires b > 0 && g > 0 && r * g <= q < r * g + g
    requires q * b <= a * (g * TWO_32) < q * b + b
    ensures r * b <= a * TWO_32 < (r + 1) * b
  {
    var n := a * TWO_32;
    Regroup(a, TWO_32, g);
    ScaledOrder(r * g, q, b);
    ScaledOrder(q, r * g + g - 1, b);
    Exchanged(r, g, b);
    Exchanged(r + 1, g, b);
    assert (r + 1) * g == r * g + g;
    Cancel(r * b, n, g);
    CancelBelow(n, (r + 1) * b, g);
  }

  lemma Exchanged(r: int, g: int, b: int)
    ensures (r * g) * b == (r * b) * g
  {
    Regroup(r, g, b);
    Regroup(r, b, g);
  }

  lemma Cancel(x: int, y: int, g: int)
    requires g > 0 && x * g <= y * g
    ensures x <= y
  {
    if x > y {
      ScaledOrder(y + 1, x, g);
    }
  }

  lemma CancelBelow(x: int, y: int, g: int)
    requires g > 0 && x * g < y * g
    ensures x < y
  {
    if x >= y {
      ScaledOrder(y, x, g);
    }
  }

  lemma QuotientShiftedUp(a: nat, b: nat, q: nat, r: nat, g: int)
    requires b > 0 && g > 0 && q <= r * g < q + g
    requires q * b <= a * (g * TWO_32) < q * b + b
    ensures (r - 1) * b <= a * TWO_32 < (r + 1) * b
  {
    var n := a * TWO_32;
    Regroup(a, TWO_32, g);
    ScaledOrder(r * g - g, q, b);
    ScaledOrder(q, r * g + g - 1, b);
    Exchanged(r - 1, g, b);
    Exchanged(r + 1, g, b);
    assert (r - 1) * g == r * g - g && (r + 1) * g == r * g + g;
    Cancel((r - 1) * b, n, g);
    CancelBelow(n, (r + 1) * b, g);
  }

  lemma DivisorShiftedDown(a: nat, least: int, most: int, r: nat, y: nat, d: int, e: int)
    requires d > 0 && e > 0 && d * e == TWO_32 && least <= y * d <= most
    requires r * y <= a * e < r * y + y
    ensures r * least <= a * TWO_32 < (r + 1) * most
  {
    Regroup(a, e, d);
    ScaledOrder(r * y, a * e, d);
    ScaledOrder(a * e, r * y + y - 1, d);
    Regroup(r, y, d);
    Regroup(r + 1, y, d);
    assert (r + 1) * y == r * y + y;
    ScaledBy(r, least, y * d);
    ScaledBy(r + 1, y * d, most);
  }

  lemma ScaledBy(r: nat, x: int, y: int)
    requires x <= y
    ensures r * x <= r * y
  {
  }
}
