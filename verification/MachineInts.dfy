/** Go's fixed-width integers, as far as the modelled code depends on them. */
module MachineInts {

  newtype int32 = x: int | -0x8000_0000 <= x < 0x8000_0000

  newtype byte = x: int | 0 <= x < 256

  const MAX_INT32 := 0x7fff_ffff
  const TWO_31 := 0x8000_0000
  const TWO_32 := 0x1_0000_0000
  const TWO_64 := 0x1_0000_0000_0000_0000

  /** The int32 congruent to x modulo 2^32: what Go's + and - on int32 yield. */
  function Wrap32(x: int): int32 {
    (((x + TWO_31) % TWO_32) - TWO_31) as int32
  }

  /** The conversion uint32(x). */
  function AsUint32(x: int32): nat {
    if x < 0 then x as int + TWO_32 else x as int
  }

  function Min(a: int, b: int): int {
    if a <= b then a else b
  }

  /** The conversion to uint8. */
  function B(v: int): byte { (v % 256) as byte }

  /** v >> 8. */
  function Shr8(v: nat): nat { v / 256 }

  function Zeros(n: nat): seq<byte> { seq(n, _ => 0) }
}
