/** Machine integers: an operation on them verifies only if it cannot leave the range. */
module Int64 {
  const MAX_INT64: int := 0x7FFF_FFFF_FFFF_FFFF

  newtype int64 = x: int | -0x8000_0000_0000_0000 <= x <= 0x7FFF_FFFF_FFFF_FFFF

  /** Go's wrap-around addition. */
  function WrapAdd(a: int64, b: int64): int {
    var sum := a as int + b as int;
    if sum > MAX_INT64 then sum - 0x1_0000_0000_0000_0000
    else if sum < -MAX_INT64 - 1 then sum + 0x1_0000_0000_0000_0000
    else sum
  }
}
