/** EFLAGS bits. */
module Eflags {
  /** A set of EFLAGS bits. */
  type Mask = bv32

  const CF: Mask := 0x001
  const PF: Mask := 0x004
  const AF: Mask := 0x010
  const ZF: Mask := 0x040
  const SF: Mask := 0x080
  const OF: Mask := 0x800
  const ARITH_FLAGS: Mask := 0x8D5

  predicate Has(flags: Mask, bits: Mask) { flags & bits != 0 }
}
