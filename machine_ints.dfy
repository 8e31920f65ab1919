/** The fixed-width integer types of the source, as ranges of `int`. */
module MachineInts {

  const I32_MIN: int := -0x8000_0000
  const I32_MAX: int := 0x7fff_ffff
  const U64_MAX: int := 0xffff_ffff_ffff_ffff

  /** Rust's `i32`. */
  type i32 = x: int | I32_MIN <= x <= I32_MAX

  /** Rust's `u64`. */
  type u64 = x: int | 0 <= x <= U64_MAX
}
