/** Bytes from numbers, bit by bit. */
module Bits {

  /** The low eight bits of `x`. */
  function Byte(x: nat): bv8 {
    if x == 0 then 0 else Byte(x / 2) * 2 + if x % 2 == 1 then 1 else 0
  }

  lemma Doubled(b: bv8)
    requires b as int < 128
    ensures (b * 2 + 0) as int == 2 * (b as int) && (b * 2 + 1) as int == 2 * (b as int) + 1
  {}

  /** A number below 256 survives the trip through a byte. */
  lemma {:induction false} ByteValue(x: nat)
    requires x < 256
    ensures Byte(x) as int == x
    decreases x
  {
    if x > 0 {
      ByteValue(x / 2);
      Doubled(Byte(x / 2));
    }
  }
}
