/** Products of 31.32 values (drm_fixed.h). */
module FixedMul {
  import opened Powers
  import opened Fixed

  /** A value, or what C leaves open: a signed sum or product that overflows, or a quotient by
      zero or that overflows. */
  datatype Result = Value(value: int) | Undefined

  // ------------------------------------------------- the most significant bit

  function Sign(a: int): (r: int) {
    if a < 0 then 1 else 0
  }

  /** The highest bit from k down that differs from the sign. */
  function MsbFrom(a: int, k: nat): (r: nat) {
    if k == 0 then 0 else if Shr(a, k) % 2 != Sign(a) then k else MsbFrom(a, k - 1)
  }

  function Msb(a: int): (r: nat) {
    MsbFrom(a, 62)
  }

  /** drm_fixp_msbset. */
  method Msbset(a: int) returns (shift: nat)
    requires IsS64(a)
    ensures shift == Msb(a)
  {
    var sign := Shr(a, 63) % 2;
    SignBit(a);
    shift := 62;
    while shift > 0
      invariant shift <= 62 && MsbFrom(a, shift) == Msb(a)
    {
      if Shr(a, shift) % 2 != sign {
        return;
      }
      shift := shift - 1;
    }
  }

  lemma SignBit(a: int)
    requires IsS64(a)
    ensures Shr(a, 63) % 2 == Sign(a)
  {
    Pow2Values();
    ShrTop(a, 63);
  }

  /** A value of k + 1 bits and its sign: what is left above bit k is the sign. */
  lemma ShrTop(a: int, k: nat)
    requires -2 * Pow2(k) <= a < 2 * Pow2(k)
    ensures Shr(a, k) == if a >= Pow2(k) then 1 else if a >= 0 then 0 else if a >= -Pow2(k) then -1 else -2
  {
    ShrIs(a, k, if a >= Pow2(k) then 1 else if a >= 0 then 0 else if a >= -Pow2(k) then -1 else -2);
  }

  lemma ShrIs(a: int, k: nat, q: int)
    requires q * Pow2(k) <= a < q * Pow2(k) + Pow2(k)
    ensures Shr(a, k) == q
  {
    ShrFloors(a, k);
    var d := Pow2(k);
    if Shr(a, k) < q {
      ScaledOrder(Shr(a, k) + 1, q, d);
    } else if Shr(a, k) > q {
      ScaledOrder(q + 1, Shr(a, k), d);
    }
  }

  /** The value is within 2^(m+1) of zero, on the negative side inclusively, and m is least. */
  predicate Spans(a: int, m: nat) {
    && m <= 62
    && -Pow2(m + 1) <= a < Pow2(m + 1)
    && (m > 0 ==> a < -Pow2(m) || a >= Pow2(m))
  }

  /** What drm_fixp_msbset finds, for all values. */
  lemma MsbSpans(a: int)
    requires IsS64(a)
    ensures Spans(a, Msb(a))
  {
    Pow2Values();
    MsbFromSpans(a, 62);
  }

  lemma {:induction false} MsbFromSpans(a: int, k: nat)
    requires k <= 62 && -Pow2(k + 1) <= a < Pow2(k + 1)
    ensures Spans(a, MsbFrom(a, k))
  {
    ShrTop(a, k);
    if k > 0 && Shr(a, k) % 2 == Sign(a) {
      MsbFromSpans(a, k - 1);
    }
  }

  // ---------------------------------------------------------------- products

  /** How far the operands are shifted in all, and each of them. */
  function Excess(m: nat, n: nat): (r: nat) {
    if m + n > 61 then m + n - 61 else 0
  }

  function ShiftA(m: nat, n: nat): (r: nat) {
    Excess(m, n) / 2 + Excess(m, n) % 2
  }

  function ShiftB(m: nat, n: nat): (r: nat) {
    Excess(m, n) / 2
  }

  /** drm_fixp_mul for operands whose most significant bits are m and n. */
  function Product(a: int, b: int, m: nat, n: nat): (r: int) {
    var shift := Excess(m, n);
    var result := ToS64(Shr(a, ShiftA(m, n)) * Shr(b, ShiftB(m, n)));
    ShiftedBack(result, shift)
  }

  lemma ShrNone(a: int)
    ensures Shr(a, 0) == a
  {
  }

  function Times(a: int, b: int): (r: int) {
    Product(a, b, Msb(a), Msb(b))
  }

  /** drm_fixp_mul. Unless a step wraps, the result is right but for less than one unit and what
      the two shifts cut off. */
  method Mul(a: int, b: int) returns (r: int)
    requires IsS64(a) && IsS64(b)
    ensures r == Times(a, b)
    ensures NothingWraps(a, b) ==> IsClose(a, b, r)
  {
    MsbSpans(a);
    MsbSpans(b);
    if NothingWraps(a, b) {
      ProductIsClose(a, b, Msb(a), Msb(b));
    }
    r := MulSteps(a, b);
  }

  method MulSteps(a: int, b: int) returns (r: int)
    requires IsS64(a) && IsS64(b)
    ensures r == Times(a, b)
  {
    var m := Msbset(a);
    var n := Msbset(b);
    var shift := m + n;
    var x, y := a, b;
    if shift > 61 {
      shift := shift - 61;
      x := Shr(x, shift / 2 + shift % 2);
      y := Shr(y, shift / 2);
    } else {
      shift := 0;
      ShrNone(a);
      ShrNone(b);
    }
    assert shift == Excess(m, n) && x == Shr(a, ShiftA(m, n)) && y == Shr(b, ShiftB(m, n));
    var result := ToS64(x * y);
    if shift > 32 {
      return ToS64(result * Pow2(shift - 32));
    }
    if shift < 32 {
      return Shr(result, 32 - shift);
    }
    ShrNone(result);
    return result;
  }

  lemma ShrRange(a: int, k: nat, c: nat)
    requires c <= k && -Pow2(k) <= a < Pow2(k)
    ensures -Pow2(k - c) <= Shr(a, c) < Pow2(k - c)
  {
    Pow2Adds(k - c, c);
    ShrFloors(a, c);
    var q, d, p := Shr(a, c), Pow2(c), Pow2(k - c);
    if q < -p {
      ScaledOrder(q + 1, -p, d);
    } else if q >= p {
      ScaledOrder(p, q, d);
    }
  }

  lemma ProductRange(u: int, v: int, x: int, y: int)
    requires -x <= u < x && -y <= v < y
    ensures -(x * y) <= u * v <= x * y
    ensures u * v == x * y <==> u == -x && v == -y
  {
    if u >= 0 {
      Scaled(u, v, y);
      Scaled(y, u, x);
    } else {
      Scaled(-u, -v, y);
      Scaled(y, -u, x);
    }
    if u == -x && v == -y {
      assert u * v == x * y;
    } else if u < 0 && v < 0 {
      StrictlyLess(-u, -v, x, y);
      assert u * v == (-u) * (-v);
    } else if u >= 0 && v >= 0 {
      StrictlyLess(u, v, x, y);
    } else {
      MixedSigns(u, v);
      assert x * y > 0;
    }
  }

  lemma Scaled(u: nat, v: int, y: int)
    requires -y <= v <= y
    ensures -(u * y) <= u * v <= u * y
  {
  }

  lemma StrictlyLess(u: nat, v: nat, x: int, y: int)
    requires u <= x && v <= y && x > 0 && y > 0 && (u < x || v < y)
    ensures u * v < x * y
  {
    OneLess(x, y);
    if u < x {
      Monotone(u, x - 1, v, y);
    } else {
      Monotone(u, x, v, y - 1);
    }
  }

  lemma OneLess(x: int, y: int)
    ensures (x - 1) * y == x * y - y && x * (y - 1) == x * y - x
  {
  }

  lemma Monotone(u: int, x: int, v: int, y: int)
    requires 0 <= u <= x && 0 <= v <= y
    ensures 0 <= u * v <= x * y
  {
  }

  lemma MixedSigns(u: int, v: int)
    requires (u >= 0 && v <= 0) || (u <= 0 && v >= 0)
    ensures u * v <= 0
  {
  }

  /** The bits that are left of the operands. */
  function LeftA(m: nat, n: nat): (r: int) {
    m + 1 - ShiftA(m, n)
  }

  function LeftB(m: nat, n: nat): (r: int) {
    n + 1 - ShiftB(m, n)
  }

  lemma BitsLeft(m: nat, n: nat)
    requires m <= 62 && n <= 62
    ensures LeftA(m, n) >= 0 && LeftB(m, n) >= 0
    ensures LeftA(m, n) + LeftB(m, n) == if m + n >= 61 then 63 else m + n + 2
  {
  }

  /** The intermediate product of drm_fixp_mul, before it is stored. */
  function Intermediate(a: int, b: int, m: nat, n: nat): (r: int) {
    Shr(a, ShiftA(m, n)) * Shr(b, ShiftB(m, n))
  }

  /** Both shifted operands are the least value that their most significant bits allow. */
  predicate BothLeast(a: int, b: int, m: nat, n: nat) {
    && LeftA(m, n) >= 0 && LeftB(m, n) >= 0
    && Shr(a, ShiftA(m, n)) == -Pow2(LeftA(m, n)) && Shr(b, ShiftB(m, n)) == -Pow2(LeftB(m, n))
  }

  /** When the intermediate product fits an s64. */
  lemma IntermediateFits(a: int, b: int, m: nat, n: nat)
    requires Spans(a, m) && Spans(b, n)
    ensures IsS64(Intermediate(a, b, m, n)) <==> !(m + n >= 61 && BothLeast(a, b, m, n))
  {
    BitsLeft(m, n);
    ShiftedRange(a, b, m, n);
    FitsFor(Shr(a, ShiftA(m, n)), Shr(b, ShiftB(m, n)), LeftA(m, n), LeftB(m, n), m + n);
  }

  lemma FitsFor(u: int, v: int, j: nat, k: nat, bits: nat)
    requires j + k == if bits >= 61 then 63 else bits + 2
    requires -Pow2(j) <= u < Pow2(j) && -Pow2(k) <= v < Pow2(k)
    ensures IsS64(u * v) <==> !(bits >= 61 && u == -Pow2(j) && v == -Pow2(k))
  {
    Pow2Adds(j, k);
    LimitOfBits(bits);
    FitsUnlessLeast(u, v, Pow2(j), Pow2(k), bits >= 61);
  }

  lemma ShiftedRange(a: int, b: int, m: nat, n: nat)
    requires Spans(a, m) && Spans(b, n) && LeftA(m, n) >= 0 && LeftB(m, n) >= 0
    ensures -Pow2(LeftA(m, n)) <= Shr(a, ShiftA(m, n)) < Pow2(LeftA(m, n))
    ensures -Pow2(LeftB(m, n)) <= Shr(b, ShiftB(m, n)) < Pow2(LeftB(m, n))
  {
    SpanRange(a, m, ShiftA(m, n), LeftA(m, n));
    SpanRange(b, n, ShiftB(m, n), LeftB(m, n));
  }

  lemma SpanRange(a: int, m: nat, c: nat, left: nat)
    requires Spans(a, m) && left + c == m + 1
    ensures -Pow2(left) <= Shr(a, c) < Pow2(left)
  {
    ShrRange(a, m + 1, c);
  }

  lemma FitsUnlessLeast(u: int, v: int, x: int, y: int, tight: bool)
    requires -x <= u < x && -y <= v < y
    requires if tight then x * y == TWO_63 else 2 * (x * y) <= TWO_63
    ensures IsS64(u * v) <==> !(tight && u == -x && v == -y)
  {
    ProductRange(u, v, x, y);
  }

  lemma LimitOfBits(bits: nat)
    ensures bits < 61 ==> 2 * Pow2(bits + 2) <= TWO_63
    ensures Pow2(63) == TWO_63
  {
    Pow2Values();
    if bits < 61 {
      Pow2Grows(bits + 2, 62);
      assert Pow2(63) == 2 * Pow2(62);
    }
  }

  /** It does whenever at most one operand is negative. */
  lemma IntermediateFitsUnlessBothNegative(a: int, b: int, m: nat, n: nat)
    requires Spans(a, m) && Spans(b, n) && (a >= 0 || b >= 0)
    ensures IsS64(Intermediate(a, b, m, n))
  {
    IntermediateFits(a, b, m, n);
    ShrSign(a, ShiftA(m, n));
    ShrSign(b, ShiftB(m, n));
  }

  lemma ShrSign(a: int, k: nat)
    ensures Shr(a, k) >= 0 <==> a >= 0
  {
    ShrFloors(a, k);
    if Shr(a, k) >= 0 {
      ScaledOrder(0, Shr(a, k), Pow2(k));
    } else {
      ScaledOrder(Shr(a, k) + 1, 0, Pow2(k));
    }
  }

  /** Otherwise it can wrap: (-1.0) * (-0.5) gives -0.5. */
  lemma NegativeProductCanWrap()
    ensures Spans(-TWO_32, 31) && Spans(-TWO_32 / 2, 30)
    ensures Product(-TWO_32, -TWO_32 / 2, 31, 30) == -TWO_32 / 2
  {
    Pow2Values();
    assert Pow2(31) == 2 * Pow2(30);
    assert Pow2(0) == 1;
    assert Shr(-TWO_32, 0) == -TWO_32 && Shr(-TWO_32 / 2, 0) == -TWO_32 / 2;
    assert ToS64(TWO_63) == -TWO_63;
    ShrIs(-TWO_63, 32, -TWO_32 / 2);
  }

  // ----------------------------------------------------------- how exact it is

  function Pos(x: int): (p: nat) {
    if x > 0 then x else 0
  }

  /** What the bits that the shifts cut off can make the product too small by, and too large. */
  function Short(a: int, b: int, c: nat, f: nat): (e: int) {
    Pow2(c) * Pos(b) + Pow2(f) * Pos(a)
  }

  function Over(a: int, b: int, c: nat, f: nat): (e: int) {
    Pow2(c) * Pos(-b) + Pow2(f) * (if a < 0 then Pow2(c) - a else 0)
  }

  /** r differs from the exact product, in units of 2^-32, by less than one unit and that. */
  predicate Near(a: int, b: int, c: nat, f: nat, r: int) {
    -Over(a, b, c, f) <= a * b - r * TWO_32 < TWO_32 + Short(a, b, c, f)
  }

  predicate IsClose(a: int, b: int, r: int) {
    Near(a, b, ShiftA(Msb(a), Msb(b)), ShiftB(Msb(a), Msb(b)), r)
  }

  /** Neither the multiplication nor the shift behind it overflows. */
  predicate StepsFit(a: int, b: int, m: nat, n: nat) {
    var p, s := Intermediate(a, b, m, n), Excess(m, n);
    IsS64(p) && (s > 32 ==> IsS64(p * Pow2(s - 32)))
  }

  predicate NothingWraps(a: int, b: int) {
    StepsFit(a, b, Msb(a), Msb(b))
  }

  /** For all signs, as long as no step wraps. */
  lemma ProductIsClose(a: int, b: int, m: nat, n: nat)
    requires StepsFit(a, b, m, n)
    ensures Near(a, b, ShiftA(m, n), ShiftB(m, n), Product(a, b, m, n))
  {
    var c, f := ShiftA(m, n), ShiftB(m, n);
    var p := Intermediate(a, b, m, n);
    ToS64Fits(p);
    ShiftsLose(a, b, c, f);
    BackShift(p, c + f);
  }

  /** If one does, the result is further off than that, for all operands. */
  lemma WrappedProductIsNotClose(a: int, b: int, m: nat, n: nat)
    requires Spans(a, m) && Spans(b, n) && !StepsFit(a, b, m, n)
    ensures !Near(a, b, ShiftA(m, n), ShiftB(m, n), Product(a, b, m, n))
  {
    var p, s := Intermediate(a, b, m, n), Excess(m, n);
    if IsS64(p) {
      ToS64Fits(p);
      WrappedShiftIsFar(a, b, p, m, n, s);
    } else {
      IntermediateFits(a, b, m, n);
      LeastOperands(a, b, m, n);
    }
  }

  lemma BelowIsNotNear(a: int, b: int, c: nat, f: nat, r: int)
    requires r <= 0 && a * b >= TWO_32 + Short(a, b, c, f)
    ensures !Near(a, b, c, f, r)
  {
    hide Short;
  }

  lemma LeastOperands(a: int, b: int, m: nat, n: nat)
    requires Spans(a, m) && Spans(b, n) && m + n >= 61 && BothLeast(a, b, m, n)
    ensures !Near(a, b, ShiftA(m, n), ShiftB(m, n), Product(a, b, m, n))
  {
    ShrSign(a, ShiftA(m, n));
    ShrSign(b, ShiftB(m, n));
    BitsLeft(m, n);
    BothNegative(a, b, m, n);
    LeastWraps(Shr(a, ShiftA(m, n)), Shr(b, ShiftB(m, n)), LeftA(m, n), LeftB(m, n), Excess(m, n));
    BelowIsNotNear(a, b, ShiftA(m, n), ShiftB(m, n), Product(a, b, m, n));
  }

  lemma WrappedShiftIsFar(a: int, b: int, p: int, m: nat, n: nat, s: nat)
    requires Spans(a, m) && Spans(b, n) && p == Intermediate(a, b, m, n)
    requires s == Excess(m, n) > 32 && !IsS64(p * Pow2(s - 32))
    ensures !Near(a, b, ShiftA(m, n), ShiftB(m, n), ToS64(p * Pow2(s - 32)))
  {
    ShiftsLose(a, b, ShiftA(m, n), ShiftB(m, n));
    CutOffIsSmall(a, b, m, n);
    Pow2Values();
    Pow2Adds(s - 32, 32);
    Regroup(p, Pow2(s - 32), TWO_32);
    WrapsFar(p * Pow2(s - 32));
    hide ToS64, Spans, Intermediate, Short, Over, Shr, Pow2;
    assert p * Pow2(s) == (p * Pow2(s - 32)) * TWO_32;
  }

  /** In the exact units of 2^-32 a wrap is off by at least 2^96. */
  lemma WrapsFar(v: int)
    requires !IsS64(v)
    ensures Abs(v * TWO_32 - ToS64(v) * TWO_32) >= TWO_64 * TWO_32
  {
    SplitLow(v);
    var t := if v % TWO_64 < TWO_63 then v / TWO_64 else v / TWO_64 + 1;
    assert v == ToS64(v) + t * TWO_64;
    assert t != 0;
  }

  lemma CutOffIsSmall(a: int, b: int, m: nat, n: nat)
    requires Spans(a, m) && Spans(b, n)
    ensures var c, f := ShiftA(m, n), ShiftB(m, n);
            Short(a, b, c, f) + Over(a, b, c, f) + TWO_32 <= TWO_64 * TWO_32
  {
    hide Pow2, ShiftA, ShiftB;
    ShiftsAreSmall(a, b, m, n);
    CutOffs(Pow2(ShiftA(m, n)), Pow2(ShiftB(m, n)), a, b);
  }

  lemma ShiftsAreSmall(a: int, b: int, m: nat, n: nat)
    requires Spans(a, m) && Spans(b, n)
    ensures Pow2(ShiftA(m, n)) <= TWO_32 && Pow2(ShiftB(m, n)) <= TWO_31
    ensures Abs(a) <= TWO_63 && Abs(b) <= TWO_63
  {
    hide Pow2;
    Pow2Values();
    HalvesOfExcess(m, n);
    Pow2Grows(ShiftA(m, n), 32);
    Pow2Grows(ShiftB(m, n), 31);
    Pow2Grows(m + 1, 63);
    Pow2Grows(n + 1, 63);
  }

  lemma HalvesOfExcess(m: nat, n: nat)
    requires m <= 62 && n <= 62
    ensures ShiftA(m, n) <= 32 && ShiftB(m, n) <= 31
  {
  }

  lemma CutOffs(d: int, e: int, a: int, b: int)
    requires 0 < d <= TWO_32 && 0 < e <= TWO_31 && Abs(a) <= TWO_63 && Abs(b) <= TWO_63
    ensures d * Pos(b) + d * Pos(-b) <= TWO_64 * TWO_31
    ensures e * Pos(a) + e * (if a < 0 then d - a else 0) <= TWO_31 * (TWO_32 + TWO_63)
  {
    Monotone(d, TWO_32, Abs(b), TWO_63);
    Monotone(e, TWO_31, if a < 0 then d - a else a, TWO_32 + TWO_63);
    assert Pos(b) == 0 || Pos(-b) == 0;
  }

  lemma BothNegative(a: int, b: int, m: nat, n: nat)
    requires Spans(a, m) && Spans(b, n) && a < 0 && b < 0 && m + n >= 61
    ensures a * b >= TWO_32 + Short(a, b, ShiftA(m, n), ShiftB(m, n))
  {
    Pow2Values();
    Pow2Grows(32, m + n);
    assert Pow2(33) == 2 * TWO_32;
    Pow2Adds(m, n);
    assert Pow2(0) == 1;
    Monotone(Pow2(m), -a, Pow2(n), -b);
    assert a * b == (-a) * (-b);
  }

  /** Two least values multiply to 2^63, whose bits are those of the least s64. */
  lemma LeastWraps(u: int, v: int, j: nat, k: nat, s: nat)
    requires u == -Pow2(j) && v == -Pow2(k) && j + k == 63
    ensures ShiftedBack(ToS64(u * v), s) <= 0
  {
    Pow2Values();
    Pow2Adds(j, k);
    hide Pow2;
    Negated(Pow2(j), Pow2(k));
    assert ToS64(TWO_63) == -TWO_63;
    LeastShiftedBack(s);
  }

  lemma Negated(x: int, y: int)
    ensures (-x) * (-y) == x * y
  {
  }

  lemma LeastShiftedBack(s: nat)
    ensures ShiftedBack(-TWO_63, s) <= 0
  {
    if s > 32 {
      LowOfShift(0, -Pow2(s - 33));
      assert -TWO_63 * Pow2(s - 32) == -Pow2(s - 33) * TWO_64;
    } else {
      ShrSign(-TWO_63, 32 - s);
    }
  }

  /** So the product is right, in that sense, if and only if no step wraps. */
  lemma CloseIffNothingWraps(a: int, b: int)
    requires IsS64(a) && IsS64(b)
    ensures IsClose(a, b, Times(a, b)) <==> NothingWraps(a, b)
  {
    MsbSpans(a);
    MsbSpans(b);
    if NothingWraps(a, b) {
      ProductIsClose(a, b, Msb(a), Msb(b));
    } else {
      WrappedProductIsNotClose(a, b, Msb(a), Msb(b));
    }
  }

  /** No step wraps for operands that are not negative if the exact product fits, nor for
      operands of different signs if it does with what the shifts may take from it. */
  lemma FitsIfExactDoes(a: int, b: int, m: nat, n: nat)
    requires Spans(a, m) && Spans(b, n) && (a >= 0 || b >= 0)
    requires if a >= 0 && b >= 0 then a * b < TWO_63 * TWO_32
             else a * b >= -TWO_63 * TWO_32 + Short(a, b, ShiftA(m, n), ShiftB(m, n))
    ensures StepsFit(a, b, m, n)
  {
    var c, f := ShiftA(m, n), ShiftB(m, n);
    var p, s := Intermediate(a, b, m, n), Excess(m, n);
    IntermediateFitsUnlessBothNegative(a, b, m, n);
    ShiftsLose(a, b, c, f);
    if s > 32 {
      Pow2Values();
      Pow2Adds(s - 32, 32);
      Regroup(p, Pow2(s - 32), TWO_32);
      ShrSign(a, c);
      ShrSign(b, f);
      SignOfProduct(Shr(a, c), Shr(b, f), Pow2(s - 32));
    }
  }

  lemma SignOfProduct(u: int, v: int, g: int)
    requires (u >= 0 || v >= 0) && g > 0
    ensures u >= 0 && v >= 0 ==> u * v * g >= 0
    ensures u < 0 || v < 0 ==> u * v * g <= 0
  {
    if u >= 0 && v >= 0 {
      Monotone(0, u, 0, v);
      Monotone(0, u * v, 0, g);
    } else {
      MixedSigns(u, v);
      MixedSigns(u * v, g);
    }
  }

  /** A product is an s64, and not negative if the operands are not. */
  lemma ProductRangeOfS64(a: int, b: int, m: nat, n: nat)
    ensures IsS64(Product(a, b, m, n))
    ensures StepsFit(a, b, m, n) && a >= 0 && b >= 0 ==> Product(a, b, m, n) >= 0
  {
    var p, s := Intermediate(a, b, m, n), Excess(m, n);
    Pow2Values();
    if s <= 32 {
      ShrRange(ToS64(p), 63, 32 - s);
      Pow2Grows(63 - (32 - s), 63);
    }
    if StepsFit(a, b, m, n) && a >= 0 && b >= 0 {
      ToS64Fits(p);
      ShrSign(a, ShiftA(m, n));
      ShrSign(b, ShiftB(m, n));
      Monotone(0, Shr(a, ShiftA(m, n)), 0, Shr(b, ShiftB(m, n)));
      ShrSign(p, if s <= 32 then 32 - s else 0);
      if s > 32 {
        ToS64Fits(p * Pow2(s - 32));
        Monotone(0, p, 0, Pow2(s - 32));
      }
    }
  }

  lemma ShiftsLose(a: int, b: int, c: nat, f: nat)
    ensures -Over(a, b, c, f) <= a * b - Shr(a, c) * Shr(b, f) * Pow2(c + f) <= Short(a, b, c, f)
  {
    Pow2Adds(c, f);
    ShrFloors(a, c);
    ShrFloors(b, f);
    ShrSign(a, c);
    FloorsLose(Shr(a, c), Pow2(c), a, Shr(b, f), Pow2(f), b);
  }

  lemma FloorsLose(q: int, d: int, a: int, r: int, e: int, b: int)
    requires d > 0 && e > 0 && (a >= 0 ==> q >= 0)
    requires q * d <= a < q * d + d && r * e <= b < r * e + e
    ensures -(d * Pos(-b) + e * (if a < 0 then d - a else 0)) <= a * b - q * r * (d * e) <= d * Pos(b) + e * Pos(a)
  {
    var x, y := q * d, r * e;
    Rearrange(q, r, d, e);
    Expand(a, x, b, y);
    PartOf(a - x, d, b);
    PartOf(b - y, e, x);
    NotNegative(a, q, d);
    Monotone(e, e, Pos(x), Pos(a));
    Monotone(e, e, Pos(-x), if a < 0 then d - a else 0);
  }

  lemma NotNegative(a: int, q: int, d: nat)
    requires a >= 0 ==> q >= 0
    ensures a >= 0 ==> q * d >= 0
  {
  }

  /** Part of d times b. */
  lemma PartOf(i: int, d: int, b: int)
    requires 0 <= i < d
    ensures -(d * Pos(-b)) <= i * b <= d * Pos(b)
  {
    Monotone(i, d, Pos(b), Pos(b));
    Monotone(i, d, Pos(-b), Pos(-b));
    assert b < 0 ==> i * b == -(i * (-b));
  }

  lemma Rearrange(q: int, r: int, d: int, e: int)
    ensures (q * r) * (d * e) == (q * d) * (r * e)
  {
    Regroup(q, r, d * e);
    Regroup(r, d, e);
    Regroup(d, r, e);
    Regroup(q, d, r * e);
    assert r * d == d * r;
  }

  lemma Expand(a: int, x: int, b: int, y: int)
    ensures a * b == (a - x) * b + x * (b - y) + x * y
    ensures x * (b - y) == (b - y) * x
  {
  }

  /** The shift back, by more or less than 32. */
  function ShiftedBack(p: int, s: nat): (r: int) {
    if s > 32 then ToS64(p * Pow2(s - 32)) else Shr(p, 32 - s)
  }

  lemma BackShift(p: int, s: nat)
    requires s > 32 ==> IsS64(p * Pow2(s - 32))
    ensures var r := ShiftedBack(p, s); r * TWO_32 <= p * Pow2(s) < r * TWO_32 + TWO_32
  {
    Pow2Values();
    if s > 32 {
      Pow2Adds(s - 32, 32);
      ToS64Fits(p * Pow2(s - 32));
      Regroup(p, Pow2(s - 32), TWO_32);
    } else {
      Pow2Adds(32 - s, s);
      ShrFloors(p, 32 - s);
      ShiftRight(p, Shr(p, 32 - s), Pow2(32 - s), Pow2(s));
    }
  }

  lemma ShiftRight(p: int, r: int, d: int, e: int)
    requires 0 < d && 0 < e && d * e == TWO_32
    requires r * d <= p < r * d + d
    ensures r * TWO_32 <= p * e < r * TWO_32 + TWO_32
  {
    Regroup(r, d, e);
    ScaledOrder(r * d, p, e);
    ScaledOrder(p, r * d + d - 1, e);
    assert (r * d + d) * e == (r * d) * e + d * e;
  }

  lemma Regroup(a: int, b: int, c: int)
    ensures (a * b) * c == a * (b * c)
  {
  }
}
