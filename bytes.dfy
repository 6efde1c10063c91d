/** Bytes as the source's `Uint8Array` elements hold them: values 0..255. */
module Bytes {

  /** The byte with value `x`. */
  function Byte(x: int): (b: bv8)
    requires 0 <= x < 256
    ensures b as int == x
  {
    ByteValue(x);
    x as bv8
  }

  lemma ByteValue(x: int)
    requires 0 <= x < 256
    ensures (x as bv8) as int == x
  {
    assert x as bv8 == (x as bv16) as bv8;
  }
}
