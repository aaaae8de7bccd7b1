/** Go's int64. */
module Int64 {
  const MAX_INT64: nat := 0x7fff_ffff_ffff_ffff
  const SIZE: nat := 0x1_0000_0000_0000_0000

  /** What a 64-bit signed integer keeps of `n`. */
  function Wrap64(n: int): int {
    var m := n % SIZE;
    if m <= MAX_INT64 then m else m - SIZE
  }
}
