/** Single-precision numbers as their 32 stored bits. */
module Float32 {

  type Float = bits: nat | bits < 0x1_0000_0000

  const ZERO: Float := 0
}
