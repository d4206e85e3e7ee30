/** Unsigned 64-bit arithmetic as C++ performs it on `uint64_t`: values live in
    [0, 2^64) and `+` and `-` wrap around modulo 2^64. */
module UInt64 {

  const TWO_64: int := 0x1_0000_0000_0000_0000
  const MAX_U64: int := TWO_64 - 1

  /** The values of a `uint64_t`. */
  type u64 = x: int | 0 <= x < TWO_64

  /** `a - b` on `uint64_t`: the exact difference when `b <= a`, and otherwise
      the difference brought back into range by one wrap-around. */
  function Sub(a: u64, b: u64): (r: u64)
    ensures b <= a ==> r == a - b
    ensures a < b ==> r == TWO_64 + a - b
    ensures (b + r) % TWO_64 == a
  {
    (a - b) % TWO_64
  }

  /** `a + b` on `uint64_t`: the exact sum when it fits, and otherwise the sum
      less 2^64. A wrapped result is exactly one that is smaller than `a`,
      which is the test C++ code uses to detect an overflowing add. */
  function Add(a: u64, b: u64): (r: u64)
    ensures a + b <= MAX_U64 ==> r == a + b
    ensures MAX_U64 < a + b ==> r == a + b - TWO_64
    ensures r < a <==> MAX_U64 < a + b
  {
    (a + b) % TWO_64
  }
}
