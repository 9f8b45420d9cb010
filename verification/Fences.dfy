/** What the parts of the fence stack share: an option type, fences as values,
    and the wrapping order of sequence numbers (dma-fence.c). */
module Fences {
  import opened Powers

  datatype Option<+T> = None | Some(value: T)

  /** Whether an optional pointer is the given one, as a number to count with. */
  function Is(a: Option<nat>, x: nat): (r: nat) {
    if a == Some(x) then 1 else 0
  }

  /** A fence: its identity, its timeline, its unbounded position on that timeline, and
      whether its ops compare sequence numbers on 64 bits. */
  datatype Fence = Fence(id: nat, context: nat, position: nat, wide: bool)

  /** The 64-bit field the driver stores: the position, truncated. */
  function Seqno(f: Fence): (r: nat) {
    f.position % TWO_64
  }

  function LowerBits(x: nat): (r: nat) {
    x % TWO_32
  }

  /** The C cast of an unsigned 32-bit value to int. */
  function AsSigned(x: nat): (r: int)
    requires x < TWO_32
  {
    if x < TWO_31 then x else x - TWO_32
  }

  predicate SeqnoIsLater(f1: nat, f2: nat, wide: bool) {
    if wide then f1 > f2
    else AsSigned((LowerBits(f1) - LowerBits(f2)) % TWO_32) > 0
  }

  predicate IsLater(f1: Fence, f2: Fence) {
    f1.context == f2.context && SeqnoIsLater(Seqno(f1), Seqno(f2), f1.wide)
  }

  /** Two positions that the comparison is meant for: stored without loss for 64-bit
      timelines, less than 2^31 apart for 32-bit ones. */
  predicate Comparable(a: nat, b: nat, wide: bool) {
    if wide then a < TWO_64 && b < TWO_64 else a < b + TWO_31 && b < a + TWO_31
  }

  predicate InWindow(a: Fence, b: Fence) {
    a.context == b.context ==> a.wide == b.wide && Comparable(a.position, b.position, a.wide)
  }

  /** No value is later than itself, and no two values are later than each other. */
  lemma LaterIsAsymmetric(a: nat, b: nat, wide: bool)
    ensures !(SeqnoIsLater(a, b, wide) && SeqnoIsLater(b, a, wide))
    ensures !SeqnoIsLater(a, a, wide)
  {
    if !wide {
      var d := LowerBits(a) - LowerBits(b);
      if d < 0 {
        ModOfShift(d + TWO_32, -1);
        ModOfShift(-d, 0);
      } else if d > 0 {
        ModOfShift(d, 0);
        ModOfShift(TWO_32 - d, -1);
      }
    }
  }

  lemma ModOfShift(r: int, k: int)
    requires 0 <= r < TWO_32
    ensures (r + k * TWO_32) % TWO_32 == r
  {
  }

  /** The 32-bit comparison only sees the distance modulo 2^32. */
  lemma NarrowLaterIsDistance(a: nat, b: nat)
    ensures SeqnoIsLater(a % TWO_64, b % TWO_64, false) <==> 0 < (a - b) % TWO_32 < TWO_31
  {
    LowerBitsOfStored(a);
    LowerBitsOfStored(b);
    DifferenceOfLowerBits(a, b);
  }

  lemma DifferenceOfLowerBits(a: nat, b: nat)
    ensures (a % TWO_32 - b % TWO_32) % TWO_32 == (a - b) % TWO_32
  {
    var d := a % TWO_32 - b % TWO_32;
    assert a - b == d + (a / TWO_32 - b / TWO_32) * TWO_32;
    if d >= 0 {
      ModOfShift(d, 0);
      ModOfShift(d, a / TWO_32 - b / TWO_32);
    } else {
      ModOfShift(d + TWO_32, -1);
      ModOfShift(d + TWO_32, a / TWO_32 - b / TWO_32 - 1);
    }
  }

  lemma LowerBitsOfStored(a: nat)
    ensures (a % TWO_64) % TWO_32 == a % TWO_32
  {
    var r := a % TWO_64;
    ModOfShift(r % TWO_32, (a / TWO_64) * TWO_32 + r / TWO_32);
  }

  /** On comparable positions the stored comparison is the true order. */
  lemma LaterIsOrderInWindow(a: nat, b: nat, wide: bool)
    requires Comparable(a, b, wide)
    ensures SeqnoIsLater(a % TWO_64, b % TWO_64, wide) <==> a > b
  {
    if wide {
      assert a % TWO_64 == a && b % TWO_64 == b;
    } else {
      NarrowLaterIsDistance(a, b);
      if a >= b {
        ModOfShift(a - b, 0);
      } else {
        ModOfShift(a - b + TWO_32, -1);
      }
    }
  }

  /** The window is as wide as it can be: at distance exactly 2^31 neither of the two
      fences is later, whatever their positions. */
  lemma WindowIsTight(a: nat)
    ensures !SeqnoIsLater((a + TWO_31) % TWO_64, a % TWO_64, false)
    ensures !SeqnoIsLater(a % TWO_64, (a + TWO_31) % TWO_64, false)
  {
    NarrowLaterIsDistance(a + TWO_31, a);
    NarrowLaterIsDistance(a, a + TWO_31);
    ModOfShift(TWO_31, -1);
    ModOfShift(TWO_31, 0);
  }

  lemma IsLaterInWindow(a: Fence, b: Fence)
    requires a.context == b.context && InWindow(a, b)
    ensures IsLater(a, b) <==> a.position > b.position
  {
    LaterIsOrderInWindow(a.position, b.position, a.wide);
  }
}
