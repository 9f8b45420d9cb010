/** Bytes and their values. */
module Octets {

  lemma ByteOf(x: int)
    requires 0 <= x < 256
    ensures (x as bv8) as int == x
  {
  }

  lemma ByteIsItsValue(a: bv8)
    ensures 0 <= a as int < 256 && (a as int) as bv8 == a
  {
  }
}
