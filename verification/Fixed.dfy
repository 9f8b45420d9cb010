/** 31.32 and 20.12 fixed-point arithmetic (drm_fixed.h). */
module Fixed {
  import opened Powers

  predicate IsU32(x: int) {
    0 <= x < TWO_32
  }

  predicate IsS64(x: int) {
    -TWO_63 <= x < TWO_63
  }

  function Abs(x: int): (r: nat) {
    if x < 0 then -x else x
  }

  /** An arithmetic shift right, a bit at a time. */
  function Shr(x: int, k: nat): (r: int)
    decreases k
  {
    if k == 0 then x else Shr(x / 2, k - 1)
  }

  /** It is the quotient by a power of two, rounded down. */
  lemma {:induction false} ShrFloors(x: int, k: nat)
    ensures Shr(x, k) * Pow2(k) <= x < Shr(x, k) * Pow2(k) + Pow2(k)
    decreases k
  {
    if k > 0 {
      ShrFloors(x / 2, k - 1);
      TwiceProduct(Shr(x, k), Pow2(k - 1));
    }
  }

  /** What is left of a value in an s64. */
  function ToS64(x: int): (r: int)
    ensures IsS64(r)
  {
    var low := x % TWO_64;
    if low < TWO_63 then low else low - TWO_64
  }

  lemma ToS64Fits(x: int)
    requires IsS64(x)
    ensures ToS64(x) == x
  {
    if x < 0 {
      assert (x + TWO_64) % TWO_64 == x + TWO_64;
      assert x % TWO_64 == x + TWO_64;
    }
  }

  // -------------------------------------------------------- rounded division

  /** The quotient rounded to nearest, halves up. */
  function RoundedQuotient(n: nat, d: nat): (r: int)
    requires d > 0
  {
    (2 * n + d) / (2 * d)
  }

  /** It is at most half a unit off, and no integer is closer. */
  lemma RoundedQuotientIsNearest(n: nat, d: nat, k: int)
    requires d > 0
    ensures 2 * Abs(RoundedQuotient(n, d) * d - n) <= d
    ensures Abs(RoundedQuotient(n, d) * d - n) <= Abs(k * d - n)
  {
    var r := RoundedQuotient(n, d);
    QuotientBounds(2 * n + d, 2 * d);
    assert r * (2 * d) == 2 * (r * d);
    if k > r {
      ScaledOrder(r + 1, k, d);
    } else if k < r {
      ScaledOrder(k, r - 1, d);
    }
  }

  /** Halves are rounded up. */
  lemma HalvesRoundUp(n: nat, d: nat, k: nat)
    requires d > 0 && 2 * n == (2 * k + 1) * d
    ensures RoundedQuotient(n, d) == k + 1
  {
    assert (k + 1) * (2 * d) == (2 * k + 1) * d + d;
    QuotientIs(2 * n + d, 2 * d, k + 1);
  }

  lemma SplitQuotient(n: nat, d: nat)
    requires d > 0
    ensures (n / d) * d + n % d == n && 0 <= n % d < d && n / d >= 0
  {
  }

  lemma QuotientBounds(n: nat, d: nat)
    requires d > 0
    ensures (n / d) * d <= n < (n / d) * d + d
  {
  }

  lemma ScaledOrder(a: int, b: int, d: nat)
    requires a <= b
    ensures a * d <= b * d
    ensures (a - 1) * d == a * d - d && (b + 1) * d == b * d + d
  {
  }

  /** Long division finds it: from the quotient and the remainder, by looking at the half. */
  lemma RoundsByRemainder(n: nat, d: nat, q: nat, rem: nat)
    requires q * d + rem == n && rem < d
    ensures RoundedQuotient(n, d) == if 2 * rem >= d then q + 1 else q
  {
    var r := if 2 * rem >= d then q + 1 else q;
    assert (q + 1) * d == q * d + d;
    assert r * (2 * d) == 2 * (r * d);
    QuotientIs(2 * n + d, 2 * d, r);
  }

  lemma QuotientIs(n: nat, d: nat, q: nat)
    requires d > 0 && q * d <= n < q * d + d
    ensures n / d == q
  {
    QuotientBounds(n, d);
    if n / d < q {
      ScaledOrder(n / d + 1, q, d);
    } else if n / d > q {
      ScaledOrder(q + 1, n / d, d);
    }
  }

  /** Adding a multiple of 2^64 is not seen in 64 bits. */
  lemma LowOfShift(x: int, k: int)
    ensures (x + k * TWO_64) % TWO_64 == x % TWO_64
  {
  }

  lemma SplitLow(x: int)
    ensures x == x % TWO_64 + (x / TWO_64) * TWO_64
  {
  }

  function NextQuotient(q: nat, rem: nat, d: nat): (r: nat) {
    if 2 * rem >= d then 2 * q + 1 else 2 * q
  }

  function NextRemainder(rem: nat, d: nat): (r: nat) {
    if 2 * rem >= d then 2 * rem - d else 2 * rem
  }

  /** q and rem are quotient and remainder once k bits have been shifted in. */
  predicate Divides(n: nat, d: nat, q: nat, rem: nat, k: nat) {
    q * d + rem == n * Pow2(k) && rem < d
  }

  lemma LongDivisionStep(n: nat, d: nat, q: nat, rem: nat, k: nat)
    requires Divides(n, d, q, rem, k)
    ensures Divides(n, d, NextQuotient(q, rem, d), NextRemainder(rem, d), k + 1)
  {
    var p := Pow2(k);
    assert Pow2(k + 1) == 2 * p;
    assert (2 * q) * d == 2 * (q * d) && n * (2 * p) == 2 * (n * p);
    assert (2 * q + 1) * d == (2 * q) * d + d;
  }

  lemma LowOfNext(q: nat, bit: nat)
    requires bit <= 1
    ensures (2 * (q % TWO_64)) % TWO_64 + bit == (2 * q + bit) % TWO_64
  {
    SplitLow(q);
    LowOfShift(2 * (q % TWO_64), 2 * (q / TWO_64));
    var low := (2 * (q % TWO_64)) % TWO_64;
    SplitLow(2 * (q % TWO_64));
    LowOfShift(low + bit, (2 * (q % TWO_64)) / TWO_64 + 2 * (q / TWO_64));
  }

  /** The fractional part of drm_fixp_from_fraction: long division, a bit at a time. */
  method LongDivision(aAbs: nat, bAbs: nat) returns (resAbs: nat, rem: nat)
    requires aAbs <= TWO_63 && 0 < bAbs <= TWO_63
    ensures rem == (aAbs * TWO_32) % bAbs
    ensures resAbs == ((aAbs * TWO_32) / bAbs) % TWO_64
  {
    resAbs, rem := aAbs / bAbs, aAbs % bAbs;
    ghost var q: nat := resAbs;
    var i: nat := 32;
    DivisionBegins(aAbs, bAbs);
    while i != 0
      invariant i <= 32 && resAbs == q % TWO_64
      invariant Divides(aAbs, bAbs, q, rem, 32 - i)
    {
      LongDivisionStep(aAbs, bAbs, q, rem, 32 - i);
      LowOfNext(q, if 2 * rem >= bAbs then 1 else 0);
      q := NextQuotient(q, rem, bAbs);
      rem := rem * 2;
      resAbs := (2 * resAbs) % TWO_64;
      if rem >= bAbs {
        resAbs := resAbs + 1;
        rem := rem - bAbs;
      }
      i := i - 1;
    }
    DivisionEnds(aAbs, bAbs, q, rem);
  }

  lemma DivisionEnds(n: nat, d: nat, q: nat, rem: nat)
    requires Divides(n, d, q, rem, 32)
    ensures rem == (n * TWO_32) % d && q == (n * TWO_32) / d
  {
    Pow2Values();
    DivisionIs(n * TWO_32, d, q, rem);
  }

  lemma DivisionBegins(n: nat, d: nat)
    requires d > 0 && n <= TWO_63
    ensures Divides(n, d, n / d, n % d, 0)
    ensures (n / d) % TWO_64 == n / d
  {
    SplitQuotient(n, d);
    AtLeastOnce(n / d, d);
    SmallLow(n / d);
  }

  lemma AtLeastOnce(q: nat, d: nat)
    requires d > 0
    ensures q <= q * d
  {
  }

  lemma SmallLow(x: nat)
    requires x < TWO_64
    ensures x % TWO_64 == x
  {
  }

  lemma DivisionIs(n: nat, d: nat, q: nat, rem: nat)
    requires q * d + rem == n && rem < d
    ensures n / d == q && n % d == rem
  {
    QuotientIs(n, d, q);
  }

  /** The fraction a/b in 31.32, rounded to nearest, halves away from zero. */
  function Fraction(a: int, b: int): (result: int)
    requires b != 0
  {
    var r := RoundedQuotient(Abs(a) * TWO_32, Abs(b));
    if (a < 0) != (b < 0) then -r else r
  }

  /** The absolute value in a u64; the negation of the least s64 wraps, to the same bits. */
  lemma AbsoluteBits(a: int)
    requires IsS64(a)
    ensures ToS64(-a) % TWO_64 == if a <= 0 then Abs(a) else TWO_64 - a
  {
    if a <= 0 {
      LowOfShift(-a, 0);
    } else {
      LowOfShift(-a, 1);
    }
    SplitLow(-a);
    LowOfShift(-a % TWO_64, -1);
  }

  /** drm_fixp_from_fraction: for all arguments the exactly rounded quotient, as far as an s64
      holds it. */
  method FromFraction(a: int, b: int) returns (res: int)
    requires IsS64(a) && IsS64(b) && b != 0
    ensures res == ToS64(Fraction(a, b))
  {
    hide ToS64, RoundedQuotient;
    AbsoluteBits(a);
    AbsoluteBits(b);
    var aAbs := if a < 0 then ToS64(-a) % TWO_64 else a;
    var bAbs := if b < 0 then ToS64(-b) % TWO_64 else b;
    var resAbs, rem := LongDivision(aAbs, bAbs);
    ghost var q := (aAbs * TWO_32) / bAbs;
    SplitQuotient(aAbs * TWO_32, bAbs);
    RoundsByRemainder(aAbs * TWO_32, bAbs, q, rem);
    var summand := if rem * 2 >= bAbs then 1 else 0;
    LowOfSum(q, summand);
    resAbs := (resAbs + summand) % TWO_64;
    res := ToS64(resAbs);
    ToS64OfLow(q + summand);
    if (a < 0) != (b < 0) {
      res := ToS64(-res);
    }
  }

  lemma LowOfSum(q: nat, s: nat)
    ensures (q % TWO_64 + s) % TWO_64 == (q + s) % TWO_64
  {
    SplitLow(q);
    LowOfShift(q % TWO_64 + s, q / TWO_64);
  }

  lemma ToS64OfLow(r: int)
    ensures ToS64(r % TWO_64) == ToS64(r)
    ensures ToS64(-ToS64(r)) == ToS64(-r)
  {
    SplitLow(r);
    LowOfShift(r % TWO_64, 0);
    LowOfShift(-r, r / TWO_64);
    LowOfShift(-r, r / TWO_64 + 1);
  }

  /** The result is the nearest 31.32 value if that fits, and only then. */
  lemma FractionIsNearestIffItFits(a: int, b: int, other: int)
    requires b != 0
    ensures ToS64(Fraction(a, b)) == Fraction(a, b) <==> IsS64(Fraction(a, b))
    ensures 2 * Abs(Fraction(a, b) * b - a * TWO_32) <= Abs(b)
    ensures Abs(Fraction(a, b) * b - a * TWO_32) <= Abs(other * b - a * TWO_32)
  {
    var r := RoundedQuotient(Abs(a) * TWO_32, Abs(b));
    if IsS64(Fraction(a, b)) {
      ToS64Fits(Fraction(a, b));
    }
    RoundedQuotientIsNearest(Abs(a) * TWO_32, Abs(b), if (a < 0) != (b < 0) then -other else other);
    SignedError(a, b, r);
    SignedError(a, b, if (a < 0) != (b < 0) then -other else other);
  }

  lemma SignedError(a: int, b: int, r: int)
    ensures Abs((if (a < 0) != (b < 0) then -r else r) * b - a * TWO_32) == Abs(r * Abs(b) - Abs(a) * TWO_32)
  {
    assert (-r) * b == -(r * b) && (-r) * (-b) == r * b && r * (-b) == -(r * b);
  }
}
