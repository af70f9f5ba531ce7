/** Exclusive or, as a function that can be folded. */
module Xors {
  function Xor(x: bv64, y: bv64): bv64 {
    x ^ y
  }

  function XorByte(x: bv8, y: bv8): bv8 {
    x ^ y
  }

  lemma Rearrange(u: bv64, v: bv64, d: bv8, e: bv8)
    ensures Xor(Xor(u, v), XorByte(d, e) as bv64) == Xor(Xor(u, d as bv64), Xor(v, e as bv64))
  {
  }
}
