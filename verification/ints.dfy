/** Kotlin's `Int`: 32-bit two's complement, where `+` and `-` wrap around. */
module Ints {

  const IntMin: int := -0x8000_0000
  const IntMax: int := 0x7fff_ffff

  /** Values a Kotlin `Int` can hold. */
  type Int32 = x: int | -0x8000_0000 <= x <= 0x7fff_ffff

  /** The `Int` that Kotlin arithmetic yields for the mathematical result `x`:
      the one value of the `Int` range congruent to `x` modulo 2^32. */
  function Wrap(x: int): (r: Int32)
    ensures (r - x) % 0x1_0000_0000 == 0
    ensures IntMin <= x <= IntMax ==> r == x
    ensures IntMax < x <= IntMax + 0x8000_0000 ==> r == x - 0x1_0000_0000
  {
    var k := (x - IntMin) % 0x1_0000_0000;
    assert (k - (x - IntMin)) % 0x1_0000_0000 == 0;
    k + IntMin
  }
}
