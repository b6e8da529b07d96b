/** Reading a byte as eight bits and back changes nothing. */
module Bits {
  lemma IntAsBits(b: int)
    requires 0 <= b < 0x100
    ensures (b as bv8) as int == b
  {
    assert b % 0x100 == b;
  }

  lemma BitsAsInt(v: bv8)
    ensures (v as int) as bv8 == v
  {
  }
}
