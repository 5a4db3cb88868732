/** Go's `uint` on a 64-bit platform: an unsigned integer whose arithmetic wraps modulo 2^64. */
module GoUint {

  const UintModulus: int := 0x1_0000_0000_0000_0000

  newtype uint = x: int | 0 <= x < 0x1_0000_0000_0000_0000

  const MaxUint: uint := 0xFFFF_FFFF_FFFF_FFFF

  /** `x -= 1` on a Go `uint`: one below `x`, except that 0 wraps around to the largest value. */
  function Decrement(x: uint): (r: uint)
    ensures x > 0 ==> r as int == x as int - 1
    ensures x == 0 ==> r == MaxUint
    ensures (r as int + 1) % UintModulus == x as int
  {
    ((x as int - 1) % UintModulus) as uint
  }
}
