/** Failure-carrying values and the machine-integer operations the sources use. */
module Wrappers {
  datatype Option<+T> = None | Some(value: T)

  datatype Result<+T, +E> = Ok(value: T) | Err(error: E)

  const U32_MAX: nat := 0xFFFF_FFFF
  const U64_MAX: nat := 0xFFFF_FFFF_FFFF_FFFF
  const I64_MAX: int := 0x7FFF_FFFF_FFFF_FFFF
  const I64_MIN: int := -0x8000_0000_0000_0000

  /** `saturating_add` on an unsigned integer whose largest value is `max`. */
  function SaturatingAdd(a: nat, b: nat, max: nat): (sum: nat)
    ensures sum <= max
    ensures a + b <= max ==> sum == a + b
  {
    if a + b > max then max else a + b
  }

  /** `saturating_sub` on `i64`. */
  function SaturatingSub(a: int, b: int): int {
    if a - b > I64_MAX then I64_MAX
    else if a - b < I64_MIN then I64_MIN
    else a - b
  }
}
