/** Go's signed 64-bit integers: arithmetic wraps around. */
module Int64 {
  const MAX := 0x7FFF_FFFF_FFFF_FFFF
  const MIN := -0x8000_0000_0000_0000

  function Wrap(x: int): int {
    (x - MIN) % 0x1_0000_0000_0000_0000 + MIN
  }

  lemma InRange(x: int)
    requires MIN <= x <= MAX
    ensures Wrap(x) == x
  {
  }
}
