/** The sum of bit vectors without carries, and its laws; it is hidden where only these are needed. */
module Bits {

  function Xor(x: bv32, y: bv32): bv32 {
    x ^ y
  }

  function Up(x: bv32): bv32 {
    x << 1
  }

  lemma XorTwice(x: bv32, y: bv32)
    ensures Xor(Xor(x, y), y) == x && Xor(x, y) == Xor(y, x)
  {
  }

  lemma XorOrder(x: bv32, y: bv32, z: bv32)
    ensures Xor(Xor(x, y), z) == Xor(Xor(x, z), y) == Xor(x, Xor(y, z))
  {
  }

  lemma XorZero(x: bv32)
    ensures Xor(x, 0) == x && Xor(0, x) == x
  {
  }
}
