/** Java's signed 8-bit `byte` and the narrowing cast `(byte) x` used when a
    process id is written into a memory slot. */
module Bytes {

  /** The values a Java `byte` can hold. */
  type int8 = x: int | -128 <= x < 128

  /** The sentinel of a slot no process occupies. */
  const Free: int8 := -1

  /** Java's `(byte) x`: the low eight bits of x in two's complement, read as
      a signed value. */
  function ToByte(x: int): (b: int8)
    ensures (x - b) % 256 == 0
    ensures -128 <= x < 128 ==> b == x
  {
    (x + 128) % 256 - 128
  }

  /** The cast is determined by its residue: ToByte(x) is the only byte
      congruent to x modulo 256, so ids 256 apart share a byte. */
  lemma ToByteUnique(x: int, b: int8)
    requires (x - b) % 256 == 0
    ensures b == ToByte(x)
  {
    var c := ToByte(x);
    assert (b - c) % 256 == 0 by {
      assert b - c == (x - c) - (x - b);
    }
    assert -256 < b - c < 256;
  }
}
