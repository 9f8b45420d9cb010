/** The exponential series in 31.32 and rounded division in 20.12 (drm_fixed.h). */
module FixedExp {
  import opened Powers
  import opened Fixed
  import opened FixedMul
  import opened FixedDiv
  import opened ExpSeries

  // ------------------------------------------------------------- exponential

  /** The loop has added the first count - 1 terms and holds the next one. */
  ghost predicate Adding(x: nat, sum: int, term: int, count: nat) {
    && count >= 1 && 0 <= term < TWO_63 && TWO_32 <= sum < TWO_63
    && sum == Terms(x, count - 1) && sum as real <= ExactTerms(x, count - 1)
    && term == Term(x, count) && term as real <= ExactTerm(x, count)
    && AllReach(x, count - 1)
    && (forall c: nat :: c < count ==> !BreaksAt(x, c))
    && (x <= TWO_32 ==> sum + 2 * term <= TWO_32 + 2 * x)
  }

  function Togo(x: nat, count: nat): (n: nat) {
    if count < Enough(x) then Enough(x) - count else 0
  }

  /** The loop of drm_fixp_exp. It always comes to an end. For a y that is not negative the
      result is the sum of the terms up to the first below the tolerance, exactly if no sum or
      product on the way overflows, and none does up to 1.0. It is never more than the same
      number of exact terms, and less by no more than what products and quotients cut off; up
      to 1.0 it is the exponential to about two millionths. */
  method Series(y: int) returns (r: Result)
    requires IsS64(y)
    ensures y < 0 ==> r == Value(TWO_32)
    ensures y >= 0 ==> (r.Undefined? <==> LoopBreaks(y))
    ensures y >= 0 && r.Value? ==> IsSeries(y, r.value)
    ensures 0 <= y <= TWO_32 ==> r.Value? && r.value <= TWO_32 + 2 * y && IsAccurate(y, r.value)
  {
    hide Times, ExactNext, NothingWraps, Adding, LoopBreaks, IsSeries, Enough, Quotient, IsClose, IsAccurate;
    var sum, term := TWO_32, y;
    var count: nat := 1;
    if y >= 0 {
      Begins(y);
    }
    while term >= TOLERANCE
      invariant IsS64(sum) && IsS64(term)
      invariant if y < 0 then sum == TWO_32 && term == y else Adding(y, sum, term, count)
      decreases if y < 0 then 0 else Togo(y, count), term
    {
      if sum + term >= TWO_63 {
        Breaks(y, sum, term, count);
        return Undefined;
      }
      var next := Quotient(y, count + 1);
      if !NothingWraps(term, next) {
        Breaks(y, sum, term, count);
        return Undefined;
      }
      ghost var sum0, term0 := sum, term;
      sum := sum + term;
      QuotientFits(y, count + 1);
      term := Mul(term, next);
      StepAdds(y, sum0, term0, count, next, term);
      count := count + 1;
    }
    if y >= 0 {
      Stops(y, sum, term, count);
    }
    r := Value(sum);
  }

  ghost predicate IsSeries(y: nat, sum: int) {
    TWO_32 <= sum < TWO_63
    && exists n: nat :: StopsAt(y, n) && sum == Terms(y, n)
                        && sum as real <= ExactTerms(y, n) <= sum as real + Losses(y, n)
  }

  /** drm_fixp_exp, by way of the reciprocal for a negative argument; the least s64 has no
      magnitude in s64 and gives 1.0. */
  method Exp(x: int) returns (r: Result)
    requires IsS64(x)
    ensures x != -TWO_63 ==> (r.Undefined? <==> LoopBreaks(Abs(x)))
    ensures x >= 0 && r.Value? ==> IsSeries(x, r.value)
    ensures -TWO_63 < x < 0 && r.Value? ==>
              exists sum: int :: IsSeries(-x, sum) && IsReciprocal(sum, r.value)
                  && (-TWO_32 <= x ==> IsAccurate(-x, sum))
    ensures x == -TWO_63 ==> r == Value(TWO_32)
    ensures -TWO_32 <= x <= TWO_32 ==> r.Value?
    ensures 0 <= x <= TWO_32 ==> r.value <= TWO_32 + 2 * x && IsAccurate(x, r.value)
  {
    var y := x;
    if x < 0 {
      LeastNegated(x);
      y := ToS64(-x);
    }
    r := Series(y);
    if x < 0 && r.Value? {
      var sum := r.value;
      UpOfOne();
      r := Div(TWO_32, sum);
      OneOverSum(sum, r.value);
    }
  }

  /** The reciprocal of a sum, as drm_fixp_div finds it after cutting two bits off the sum. */
  predicate IsReciprocal(sum: int, r: int) {
    r * (sum - 3) <= TWO_64 < (r + 1) * sum
  }

  lemma LeastNegated(x: int)
    requires IsS64(x)
    ensures x < 0 ==> ToS64(-x) == if x == -TWO_63 then x else -x
  {
    if x < 0 && x != -TWO_63 {
      ToS64Fits(-x);
    }
  }

  lemma UpOfOne()
    ensures Up(TWO_32) == 30 && Down(TWO_32) == 2 && Pow2(2) == 4
  {
    MsbSpans(TWO_32);
    Pow2Values();
    var m := Msb(TWO_32);
    if m < 32 {
      Pow2Grows(m + 1, 32);
    } else if m > 32 {
      Pow2Grows(33, m);
    }
  }

  lemma OneOverSum(sum: int, r: int)
    requires TWO_32 <= sum < TWO_63 && Divisible(TWO_32, sum) && r == FixedQuotient(TWO_32, sum)
    ensures QuotientIsNear(TWO_32, sum, r) ==> IsReciprocal(sum, r)
    ensures sum == TWO_32 ==> r == TWO_32
  {
    UpOfOne();
    Pow2Values();
    assert sum == TWO_32 ==> Shr(sum, 2) == TWO_32 / 4;
    assert Pow2(32) == 4 * Pow2(30);
  }

  lemma Begins(x: nat)
    requires x < TWO_63
    ensures Adding(x, TWO_32, x, 1)
  {
  }

  lemma Breaks(x: nat, sum: int, term: int, count: nat)
    requires Adding(x, sum, term, count) && term >= TOLERANCE
    requires sum + term >= TWO_63 || !NothingWraps(term, Quotient(x, count + 1))
    ensures BreaksAt(x, count) && LoopBreaks(x) && x > TWO_32
  {
    hide NothingWraps;
    assert Terms(x, count) == Terms(x, count - 1) + Term(x, count);
    SmallProductsFit(x, count + 1, term, Quotient(x, count + 1));
  }

  lemma Stops(x: nat, sum: int, term: int, count: nat)
    requires x < TWO_63 && Adding(x, sum, term, count) && term < TOLERANCE
    ensures IsSeries(x, sum) && !LoopBreaks(x)
    ensures x <= TWO_32 ==> sum <= TWO_32 + 2 * x && IsAccurate(x, sum)
  {
    hide NothingWraps, Term, Terms, ExactTerm, ExactTerms, Losses, IsAccurate;
    assert StopsAt(x, count - 1);
    TermsAreClose(x, count - 1);
    if x <= TWO_32 {
      SumIsAccurate(x, count - 1);
    }
    forall c: nat
      ensures !BreaksAt(x, c)
    {
      if c >= count {
        NoneReachBeyond(x, count, c);
      }
    }
  }

  lemma {:induction false} NoneReachBeyond(x: nat, n: nat, c: nat)
    requires 1 <= n <= c && Term(x, n) < TOLERANCE
    ensures !AllReach(x, c)
  {
    hide Term;
    if c > n {
      NoneReachBeyond(x, n, c - 1);
    }
  }

  lemma StepAdds(x: nat, sum: int, before: int, count: nat, next: nat, term: int)
    requires Adding(x, sum, before, count) && before >= TOLERANCE && x < TWO_63 && sum + before < TWO_63
    requires next == Quotient(x, count + 1) && NothingWraps(before, next) && term == Times(before, next)
    ensures Adding(x, sum + before, term, count + 1) && IsS64(sum + before) && IsS64(term)
    ensures Togo(x, count + 1) < Togo(x, count) || (Togo(x, count + 1) == Togo(x, count) && term < before)
  {
    hide Times, ExactNext, Quotient, NothingWraps;
    TermIsBounded(x, count + 1, before, next);
    NextTerm(x, count + 1, before, next, term);
    OneMore(x, sum, before, count, term);
    Shrinks(x, before, count, term);
  }

  lemma OneMore(x: nat, sum: int, before: int, count: nat, term: int)
    requires Adding(x, sum, before, count) && before >= TOLERANCE && sum + before < TWO_63
    requires 0 <= term < TWO_63 && term as real <= ExactTerm(x, count + 1)
    requires NothingWraps(before, Quotient(x, count + 1)) && term == Times(before, Quotient(x, count + 1))
    requires x <= TWO_32 ==> 2 * term <= before
    ensures Adding(x, sum + before, term, count + 1)
  {
    hide Times, ExactNext, NothingWraps;
    assert Terms(x, count) == Terms(x, count - 1) + Term(x, count);
    SumGrows(sum, before, ExactTerms(x, count - 1), ExactTerm(x, count));
  }

  lemma Shrinks(x: nat, before: int, count: nat, term: int)
    requires 0 <= term && before >= TOLERANCE && (count + 1 >= Enough(x) ==> 2 * term <= before)
    ensures Togo(x, count + 1) < Togo(x, count) || (Togo(x, count + 1) == Togo(x, count) && term < before)
  {
  }

  lemma SumGrows(a: int, b: int, c: real, d: real)
    requires a as real <= c && b as real <= d
    ensures (a + b) as real <= c + d
  {
  }

  // ------------------------------------------------------------------- 20.12

  /** dfixed_div, on the raw 32-bit values: the quotient rounded to nearest, in 32 bits. */
  method Div2012(a: int, b: int) returns (r: int)
    requires IsU32(a) && IsU32(b) && b != 0
    ensures r == RoundedQuotient(a * 4096, b) % TWO_32
  {
    var tmp := a * 8192;
    HalvedQuotient(a * 4096, b);
    tmp := tmp / b;
    tmp := tmp + 1;
    tmp := tmp / 2;
    r := tmp % TWO_32;
  }

  lemma HalvedQuotient(n: nat, d: nat)
    requires d > 0
    ensures (2 * n / d + 1) / 2 == RoundedQuotient(n, d)
  {
    var q := 2 * n / d;
    var r := (q + 1) / 2;
    QuotientBounds(2 * n, d);
    ScaledOrder(2 * r - 1, q, d);
    ScaledOrder(q, 2 * r, d);
    assert (2 * r) * d == r * (2 * d);
    QuotientIs(2 * n + d, 2 * d, r);
  }

  /** dfixed_mul rounds to nearest in the same way. */
  function Mul2012(a: int, b: int): (r: int)
    requires IsU32(a) && IsU32(b)
  {
    (a * b + 2048) / 4096
  }

  /** A product of 20.12 values is off by at most half a unit, and dividing it again by an
      operand above one gives the other operand back. */
  lemma Div2012UndoesMul2012(a: int, b: int)
    requires IsU32(a) && IsU32(b) && b > 4096
    ensures 2 * Abs(Mul2012(a, b) * 4096 - a * b) <= 4096
    ensures RoundedQuotient(Mul2012(a, b) * 4096, b) == a
  {
    var p := Mul2012(a, b);
    Rounds(a * b, p);
    TwiceProduct(a, b);
    QuotientIs(2 * (p * 4096) + b, 2 * b, a);
  }

  lemma Rounds(n: nat, p: int)
    requires p == (n + 2048) / 4096
    ensures p >= 0 && n - 2048 < p * 4096 <= n + 2048
  {
  }
}
