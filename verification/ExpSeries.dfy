/** The terms of the exponential series, as drm_fixp_exp computes them and exactly, and how far
    the two are apart (drm_fixed.h). */
module ExpSeries {
  import opened Powers
  import opened Fixed
  import opened FixedMul

  const TOLERANCE: int := TWO_32 / 1_000_000

  /** One millionth in 31.32: the least that the loop goes on with is over, by less than a unit. */
  lemma ToleranceIsOneMillionth()
    ensures TOLERANCE * 1_000_000 <= 0x1_0000_0000 < (TOLERANCE + 1) * 1_000_000
  {
  }

  function Quotient(n: nat, d: nat): (q: nat)
    requires d > 0
  {
    SplitQuotient(n, d);
    n / d
  }

  /** The k-th term as the loop computes it, each from the one before. */
  function Term(x: nat, k: nat): (r: int) {
    if k <= 1 then x else Times(Term(x, k - 1), Quotient(x, k))
  }

  function Terms(x: nat, n: nat): (r: int) {
    if n == 0 then TWO_32 else Terms(x, n - 1) + Term(x, n)
  }

  /** The k-th term of the exact series, x^k / k! in units of 2^-32. */
  function ExactTerm(x: nat, k: nat): (r: real) {
    if k <= 1 then x as real else ExactNext(ExactTerm(x, k - 1), x, k)
  }

  function ExactNext(term: real, x: nat, k: nat): (r: real)
    requires k > 0
  {
    term * (x as real) / ((k * TWO_32) as real)
  }

  function ExactTerms(x: nat, n: nat): (r: real) {
    if n == 0 then TWO_32 as real else ExactTerms(x, n - 1) + ExactTerm(x, n)
  }

  predicate AllReach(x: nat, n: nat) {
    n == 0 || (AllReach(x, n - 1) && Term(x, n) >= TOLERANCE)
  }

  /** The loop stops behind n terms that reach the tolerance, at the first that does not. */
  predicate StopsAt(x: nat, n: nat) {
    AllReach(x, n) && Term(x, n + 1) < TOLERANCE
  }

  /** The loop comes to term c and cannot add it, or cannot compute the next one. */
  predicate BreaksAt(x: nat, c: nat) {
    c >= 1 && AllReach(x, c) && (Terms(x, c) >= TWO_63 || !NothingWraps(Term(x, c), Quotient(x, c + 1)))
  }

  /** Some sum or product on the way overflows. */
  ghost predicate LoopBreaks(x: nat) {
    exists c: nat :: BreaksAt(x, c)
  }

  /** From here on the terms at least halve. */
  function Enough(x: nat): (n: nat) {
    2 * x / TWO_32 + 1
  }

  // --------------------------------------------------- the terms from above

  lemma TermIsBounded(x: nat, count: nat, before: nat, next: nat)
    requires count >= 2 && x < TWO_63 && before < TWO_63 && next == Quotient(x, count) && NothingWraps(before, next)
    ensures var term := Times(before, next);
            0 <= term < TWO_63 && term * TWO_32 <= before * next
  {
    ProductRangeOfS64(before, next, Msb(before), Msb(next));
    ProductIsClose(before, next, Msb(before), Msb(next));
    NothingOver(before, next, ShiftA(Msb(before), Msb(next)), ShiftB(Msb(before), Msb(next)));
  }

  lemma NothingOver(a: nat, b: nat, c: nat, f: nat)
    ensures Over(a, b, c, f) == 0
  {
  }

  lemma QuotientFits(x: nat, count: nat)
    requires x < TWO_63 && count >= 2
    ensures Quotient(x, count) < TWO_63
  {
    QuotientBounds(x, count);
    AtLeastOnce(Quotient(x, count), count);
  }

  lemma SmallProductsFit(x: nat, count: nat, term: nat, next: nat)
    requires count >= 2 && next == Quotient(x, count) && term < TWO_63
    ensures x <= TWO_32 ==> NothingWraps(term, next)
  {
    if x <= TWO_32 {
      QuotientFits(x, count);
      QuotientBounds(x, count);
      AtLeastOnce(next, count);
      Monotone(term, TWO_63 - 1, next, TWO_32);
      MsbSpans(term);
      MsbSpans(next);
      FitsIfExactDoes(term, next, Msb(term), Msb(next));
    }
  }

  /** A term is at most its exact value, and at most half the one before once count is large. */
  lemma NextTerm(x: nat, count: nat, before: nat, next: nat, term: nat)
    requires count >= 2 && before < TWO_63 && next == Quotient(x, count)
    requires term * TWO_32 <= before * next
    requires before as real <= ExactTerm(x, count - 1)
    ensures term as real <= ExactTerm(x, count)
    ensures count >= Enough(x) || x <= TWO_32 ==> 2 * term <= before
  {
    QuotientBounds(x, count);
    ExactStep(x, count, before, next, term, ExactTerm(x, count - 1));
    if count >= Enough(x) || x <= TWO_32 {
      HalfOrLess(x, count, next);
      Monotone(before, before, next, TWO_32 / 2);
    }
  }

  lemma HalfOrLess(x: nat, count: nat, next: nat)
    requires count >= 2 && next * count <= x && (count >= Enough(x) || x <= TWO_32)
    ensures next <= TWO_32 / 2
  {
    if next > TWO_32 / 2 {
      Monotone(TWO_32 / 2 + 1, next, count, count);
      Monotone(TWO_32 / 2 + 1, TWO_32 / 2 + 1, if x <= TWO_32 then 2 else Enough(x), count);
      assert false;
    }
  }

  lemma ExactStep(x: nat, count: nat, before: nat, next: nat, term: nat, exact: real)
    requires count >= 2 && next * count <= x && term * TWO_32 <= before * next && before as real <= exact
    ensures term as real <= ExactNext(exact, x, count)
  {
    var d := count * TWO_32;
    Monotone(term * TWO_32, before * next, count, count);
    Regroup(term, TWO_32, count);
    Regroup(before, next, count);
    Monotone(before, before, next * count, x);
    assert term * d <= before * x;
    RealProducts(term, d, before, x, exact);
  }

  lemma RealProducts(t: nat, d: nat, b: nat, x: nat, exact: real)
    requires d > 0 && t * d <= b * x && b as real <= exact
    ensures t as real <= exact * (x as real) / (d as real)
  {
    assert (t as real) * (d as real) == (t * d) as real && (b as real) * (x as real) == (b * x) as real;
    assert (b as real) * (x as real) <= exact * (x as real);
    Divided(t as real, d as real, exact * (x as real));
  }

  lemma Divided(t: real, d: real, n: real)
    requires d > 0.0 && t * d <= n
    ensures t <= n / d
  {
    RealOrder(t, n / d, d);
  }

  lemma RealOrder(t: real, q: real, d: real)
    requires d > 0.0
    ensures t > q ==> t * d > q * d
  {
  }

  // --------------------------------------------------- the terms from below

  /** What the shifts of a product can cut off. */
  function CutOff(a: int, b: int): (e: int) {
    Short(a, b, ShiftA(Msb(a), Msb(b)), ShiftB(Msb(a), Msb(b)))
  }

  /** What a product and a quotient cut off term k, in units of 2^-32. */
  function StepLoss(x: nat, k: nat): (e: real)
    requires k >= 2
  {
    var a, b := Term(x, k - 1), Quotient(x, k);
    1.0 + (a + CutOff(a, b)) as real / TWO_32 as real
  }

  /** And what has been cut off before it, as the series carries it on. */
  function Loss(x: nat, k: nat): (e: real) {
    if k <= 1 then 0.0 else ExactNext(Loss(x, k - 1), x, k) + StepLoss(x, k)
  }

  function Losses(x: nat, n: nat): (e: real) {
    if n == 0 then 0.0 else Losses(x, n - 1) + Loss(x, n)
  }

  lemma DividedUp(t: real, d: real, n: real)
    requires d > 0.0 && n <= t * d
    ensures n / d <= t
  {
    RealOrder(n / d, t, d);
  }

  lemma RealTimes(a: int, b: int)
    ensures (a as real) * (b as real) == (a * b) as real
  {
  }

  lemma RealScales(a: real, b: real, x: real)
    requires a <= b && x >= 0.0
    ensures a * x <= b * x
  {
  }

  lemma Distributes(a: real, b: real, x: real)
    ensures (a + b) * x == a * x + b * x
  {
  }

  lemma QuotientTimes(n: real, d: real)
    requires d > 0.0
    ensures n / d * d == n
  {
  }

  lemma NextGrows(a: real, b: real, x: nat, k: nat)
    requires a <= b && k > 0
    ensures ExactNext(a, x, k) <= ExactNext(b, x, k)
  {
    var d := (k * TWO_32) as real;
    RealScales(a, b, x as real);
    QuotientTimes(a * (x as real), d);
    Divided(ExactNext(a, x, k), d, b * (x as real));
  }

  lemma NextAdds(a: real, b: real, x: nat, k: nat)
    requires k > 0
    ensures ExactNext(a + b, x, k) <= ExactNext(a, x, k) + ExactNext(b, x, k)
  {
    var d := (k * TWO_32) as real;
    var p, q := ExactNext(a, x, k), ExactNext(b, x, k);
    QuotientTimes(a * (x as real), d);
    QuotientTimes(b * (x as real), d);
    Distributes(a, b, x as real);
    Distributes(p, q, d);
    DividedUp(p + q, d, (a + b) * (x as real));
  }

  /** The exact next term of a is at most what is computed with the quotient b, and what its
      remainder makes of a. */
  lemma NextOfTerm(a: nat, b: nat, x: nat, k: nat)
    requires k >= 2 && b == Quotient(x, k)
    ensures ExactNext(a as real, x, k) * (TWO_32 as real) <= (a * b + a) as real
  {
    QuotientBounds(x, k);
    Monotone(a, a, x, b * k + k);
    Regroup(a, b, k);
    assert a * (b * k + k) == a * (b * k) + a * k;
    var d := (k * TWO_32) as real;
    RealTimes(a, x);
    QuotientTimes((a as real) * (x as real), d);
    assert a * x <= (a * b + a) * k;
    RealTimes(a * b + a, k);
    RealTimes(k, TWO_32);
    ByFactor(ExactNext(a as real, x, k), (a * b + a) as real, k as real, TWO_32 as real);
  }

  lemma ByFactor(t: real, n: real, k: real, w: real)
    requires k > 0.0 && t * (k * w) <= n * k
    ensures t * w <= n
  {
    assert t * (k * w) == (t * w) * k;
    RealOrder(t * w, n, k);
  }

  lemma ProductLoss(a: nat, b: nat)
    requires NothingWraps(a, b)
    ensures a * b < Times(a, b) * TWO_32 + TWO_32 + CutOff(a, b)
  {
    ProductIsClose(a, b, Msb(a), Msb(b));
  }

  lemma TermLoss(x: nat, k: nat)
    requires x < TWO_63 && k >= 2 && 0 <= Term(x, k - 1) < TWO_63 && NothingWraps(Term(x, k - 1), Quotient(x, k))
    requires ExactTerm(x, k - 1) <= Term(x, k - 1) as real + Loss(x, k - 1)
    ensures ExactTerm(x, k) <= Term(x, k) as real + Loss(x, k)
  {
    hide Times, CutOff, ExactNext, NothingWraps, Quotient;
    var a, b := Term(x, k - 1), Quotient(x, k);
    ProductLoss(a, b);
    NextGrows(ExactTerm(x, k - 1), a as real + Loss(x, k - 1), x, k);
    NextAdds(a as real, Loss(x, k - 1), x, k);
    NextOfTerm(a, b, x, k);
    InUnits(ExactNext(a as real, x, k), a * b + a, Times(a, b), a + CutOff(a, b));
  }

  lemma InUnits(t: real, n: int, r: int, e: int)
    requires t * (TWO_32 as real) <= n as real && n <= r * TWO_32 + TWO_32 + e
    ensures t <= r as real + (1.0 + e as real / TWO_32 as real)
  {
  }

  lemma NextOf(x: nat, k: nat)
    requires k >= 2
    ensures Term(x, k) == Times(Term(x, k - 1), Quotient(x, k))
    ensures Terms(x, k - 1) == Terms(x, k - 2) + Term(x, k - 1)
  {
    hide Times, Quotient;
  }

  /** What the terms up to the loop's end are: not above the exact ones, and below them by no
      more than what has been cut off. */
  lemma {:induction false} TermIsClose(x: nat, k: nat)
    requires x < TWO_63 && k >= 1 && AllReach(x, k - 1) && forall c: nat :: c < k ==> !BreaksAt(x, c)
    ensures 0 <= Term(x, k) < TWO_63
    ensures Term(x, k) as real <= ExactTerm(x, k) <= Term(x, k) as real + Loss(x, k)
  {
    FirstTerm(x);
    hide Term, Times, NothingWraps, ExactTerm, ExactNext, Loss, Quotient, Terms;
    if k >= 2 {
      NextOf(x, k);
      TermIsClose(x, k - 1);
      assert !BreaksAt(x, k - 1);
      TermLoss(x, k);
      TermIsBounded(x, k, Term(x, k - 1), Quotient(x, k));
      NextTerm(x, k, Term(x, k - 1), Quotient(x, k), Term(x, k));
    }
  }

  lemma {:induction false} TermsAreClose(x: nat, n: nat)
    requires x < TWO_63 && AllReach(x, n) && forall c: nat :: c <= n ==> !BreaksAt(x, c)
    ensures Terms(x, n) as real <= ExactTerms(x, n) <= Terms(x, n) as real + Losses(x, n)
  {
    hide Term, ExactTerm, Loss;
    if n > 0 {
      TermsAreClose(x, n - 1);
      TermIsClose(x, n);
    }
  }

  // ------------------------------------------------------------- up to 1.0

  /** Up to 1.0 nothing overflows, and each term is a fraction of the one before. */
  lemma {:induction false} SmallTerms(x: nat, k: nat)
    requires x <= TWO_32 && k >= 1 && AllReach(x, k - 1)
    ensures 0 <= Term(x, k) && 0 <= Terms(x, k - 1) && Terms(x, k - 1) + 2 * Term(x, k) <= TWO_32 + 2 * x
    ensures k >= 2 ==> Term(x, k) * k <= Term(x, k - 1)
    ensures forall c: nat :: c < k ==> !BreaksAt(x, c)
  {
    FirstTerm(x);
    hide NothingWraps, Times, Quotient, Term, Terms;
    if k >= 2 {
      NextOf(x, k);
      SmallTerms(x, k - 1);
      var a, b := Term(x, k - 1), Quotient(x, k);
      SmallProductsFit(x, k, a, b);
      TermIsBounded(x, k, a, b);
      FractionOfTerm(x, k, a, b, Term(x, k));
    }
  }

  lemma FractionOfTerm(x: nat, k: nat, a: nat, b: nat, term: nat)
    requires x <= TWO_32 && k >= 2 && b == Quotient(x, k) && term * TWO_32 <= a * b
    ensures term * k <= a && 2 * term <= a
  {
    QuotientBounds(x, k);
    Monotone(term * TWO_32, a * b, k, k);
    Regroup(term, TWO_32, k);
    Regroup(term, k, TWO_32);
    Regroup(a, b, k);
    Monotone(a, a, b * k, TWO_32);
    assert TWO_32 * k == k * TWO_32;
    Monotone(term, term, 2, k);
  }

  /** So at most nine terms reach one millionth. */
  lemma AtMostNine(x: nat, n: nat)
    requires x <= TWO_32 && AllReach(x, n)
    ensures n <= 9
  {
    if n >= 10 {
      ReachedBefore(x, n, 10);
      NineFactors(x);
    }
  }

  lemma {:induction false} ReachedBefore(x: nat, n: nat, k: nat)
    requires k <= n && AllReach(x, n)
    ensures AllReach(x, k)
  {
    hide Term;
    if k < n {
      ReachedBefore(x, n - 1, k);
    }
  }

  lemma NineFactors(x: nat)
    requires x <= TWO_32 && AllReach(x, 9)
    ensures Term(x, 10) < TOLERANCE
  {
    hide Term;
    forall k: nat | 2 <= k <= 10
      ensures Term(x, k) * k <= Term(x, k - 1)
    {
      ReachedBefore(x, 9, k - 1);
      SmallTerms(x, k);
    }
    FirstTerm(x);
    assert Term(x, 2) * 2 <= x && Term(x, 3) * 6 <= x && Term(x, 4) * 24 <= x && Term(x, 5) * 120 <= x;
    assert Term(x, 6) * 720 <= x && Term(x, 7) * 5040 <= x && Term(x, 8) * 40320 <= x;
    assert Term(x, 9) * 362880 <= x && Term(x, 10) * 3628800 <= x;
  }

  lemma FirstTerm(x: nat)
    ensures Term(x, 1) == x && ExactTerm(x, 1) == x as real && Loss(x, 1) == 0.0 && Terms(x, 0) == TWO_32
  {
  }

  lemma SmallStepLoss(x: nat, k: nat)
    requires x <= TWO_32 && k >= 2 && AllReach(x, k - 2)
    ensures 0.0 <= StepLoss(x, k) <= 5.0
  {
    hide Term, Quotient, CutOff;
    var a, b := Term(x, k - 1), Quotient(x, k);
    SmallTerms(x, k - 1);
    TermAtMost(x, k - 1);
    QuotientSplits(x, k);
    HalfOrLess(x, k, b);
    SmallCutOff(a, b);
  }

  lemma QuotientSplits(x: nat, k: nat)
    requires k >= 2
    ensures Quotient(x, k) * k <= x
  {
    QuotientBounds(x, k);
  }

  lemma SmallCutOff(a: nat, b: nat)
    requires a <= TWO_32 && b <= TWO_31
    ensures 0 <= a + CutOff(a, b) <= 4 * TWO_32
  {
    SmallShifts(a, b);
    var c, f := ShiftA(Msb(a), Msb(b)), ShiftB(Msb(a), Msb(b));
    Monotone(Pow2(c), 2, b, b);
    Monotone(Pow2(f), 2, a, a);
    hide Pow2, ShiftA, ShiftB, Msb;
  }

  lemma {:induction false} TermAtMost(x: nat, k: nat)
    requires x <= TWO_32 && k >= 1 && AllReach(x, k - 1)
    ensures Term(x, k) <= x
  {
    FirstTerm(x);
    hide Term;
    if k >= 2 {
      TermAtMost(x, k - 1);
      SmallTerms(x, k);
      SmallTerms(x, k - 1);
      Monotone(Term(x, k), Term(x, k), 1, k);
    }
  }

  /** Operands up to 1.0 and one half are shifted by a bit at most. */
  lemma SmallShifts(a: int, b: int)
    requires 0 <= a <= TWO_32 && 0 <= b <= TWO_31
    ensures 0 < Pow2(ShiftA(Msb(a), Msb(b))) <= 2 && 0 < Pow2(ShiftB(Msb(a), Msb(b))) <= 2
  {
    MsbSpans(a);
    MsbSpans(b);
    MsbAtMost(a, Msb(a), 32);
    MsbAtMost(b, Msb(b), 31);
    hide Msb;
    SmallExcess(Msb(a), Msb(b));
  }

  lemma SmallExcess(m: nat, n: nat)
    requires m <= 32 && n <= 31
    ensures 0 < Pow2(ShiftA(m, n)) <= 2 && 0 < Pow2(ShiftB(m, n)) <= 2
  {
    assert ShiftA(m, n) <= 1 && ShiftB(m, n) <= 1;
    assert Pow2(0) == 1 && Pow2(1) == 2;
  }

  lemma MsbAtMost(a: int, m: nat, k: nat)
    requires Spans(a, m) && 0 <= a && ((k == 32 && a <= TWO_32) || (k == 31 && a <= TWO_31))
    ensures m <= k
  {
    Pow2Values();
    if m > k {
      Pow2Grows(k + 1, m);
    }
  }

  lemma NextHalves(t: real, x: nat, k: nat)
    requires x <= TWO_32 && k >= 2 && t >= 0.0
    ensures 0.0 <= ExactNext(t, x, k) <= t / 2.0
  {
    var d := (k * TWO_32) as real;
    RealScales(x as real, d / 2.0, t);
    assert t * (x as real) <= (t / 2.0) * d;
    DividedUp(t / 2.0, d, t * (x as real));
    RealScales(0.0, t, x as real);
    Divided(0.0, d, t * (x as real));
  }

  lemma {:induction false} SmallLoss(x: nat, k: nat)
    requires x <= TWO_32 && (k <= 1 || AllReach(x, k - 2))
    ensures 0.0 <= Loss(x, k) <= 10.0
  {
    hide StepLoss, ExactNext, AllReach;
    if k >= 2 {
      LessReach(x, k);
      SmallLoss(x, k - 1);
      SmallStepLoss(x, k);
      NextHalves(Loss(x, k - 1), x, k);
    }
  }

  lemma LessReach(x: nat, k: nat)
    requires k >= 2 && AllReach(x, k - 2)
    ensures k >= 3 ==> AllReach(x, k - 3)
  {
    hide Term;
  }

  lemma {:induction false} SmallLosses(x: nat, n: nat)
    requires x <= TWO_32 && AllReach(x, n)
    ensures 0.0 <= Losses(x, n) <= 10.0 * n as real
  {
    hide Loss, Term;
    if n > 0 {
      SmallLosses(x, n - 1);
      if n >= 2 {
        ReachedBefore(x, n, n - 2);
      }
      SmallLoss(x, n);
    }
  }

  /** The rest of the series is at most twice its first term. */
  lemma {:induction false} RestOfSeries(x: nat, n: nat, more: nat)
    requires x <= TWO_32
    ensures ExactTerm(x, n + 1) >= 0.0 && ExactTerm(x, n + 1 + more) >= 0.0
    ensures ExactTerms(x, n) <= ExactTerms(x, n + more)
    ensures ExactTerms(x, n + more) + 2.0 * ExactTerm(x, n + more + 1) <= ExactTerms(x, n) + 2.0 * ExactTerm(x, n + 1)
  {
    hide ExactNext;
    ExactIsNotNegative(x, n + 1);
    ExactIsNotNegative(x, n + 1 + more);
    if more > 0 {
      RestOfSeries(x, n, more - 1);
      ExactIsNotNegative(x, n + more);
      NextHalves(ExactTerm(x, n + more), x, n + more + 1);
    }
  }

  lemma {:induction false} ExactIsNotNegative(x: nat, k: nat)
    requires x <= TWO_32
    ensures ExactTerm(x, k) >= 0.0
  {
    if k >= 2 {
      ExactIsNotNegative(x, k - 1);
      NextHalves(ExactTerm(x, k - 1), x, k);
    }
  }

  /** r is less than 9000 units, or about two millionths, below the exponential, and not above:
      that is, against every partial sum of nine or more terms. */
  ghost predicate IsAccurate(x: nat, r: int) {
    forall n: nat :: n >= 9 ==> r as real <= ExactTerms(x, n) <= r as real + 9000.0
  }

  /** Up to 1.0 the loop finds the exponential to about two millionths. */
  lemma SumIsAccurate(x: nat, n: nat)
    requires x <= TWO_32 && StopsAt(x, n)
    ensures IsAccurate(x, Terms(x, n))
  {
    hide Term, Terms, ExactTerm, ExactTerms, Loss, Losses, BreaksAt, AllReach;
    AtMostNine(x, n);
    SmallTerms(x, n + 1);
    TermsAreClose(x, n);
    TermIsClose(x, n + 1);
    SmallLosses(x, n);
    if n >= 1 {
      ReachedBefore(x, n, n - 1);
    }
    SmallLoss(x, n + 1);
    forall big: nat | big >= 9
      ensures Terms(x, n) as real <= ExactTerms(x, big) <= Terms(x, n) as real + 9000.0
    {
      RestOfSeries(x, n, big - n);
    }
  }
}
