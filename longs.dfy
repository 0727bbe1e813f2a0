/** Java `long` arithmetic: two's-complement values of 64 bits that wrap around. */
module Longs {
  const LONG_MIN: int := -0x8000_0000_0000_0000
  const LONG_MAX: int := 0x7FFF_FFFF_FFFF_FFFF
  const TWO_TO_THE_64: int := 0x1_0000_0000_0000_0000

  predicate IsLong(x: int)
  {
    LONG_MIN <= x <= LONG_MAX
  }

  /** The long that an exact integer wraps to. */
  function ToLong(x: int): (r: int)
    ensures IsLong(r)
    ensures (x - r) % TWO_TO_THE_64 == 0
    ensures IsLong(x) ==> r == x
  {
    (x - LONG_MIN) % TWO_TO_THE_64 + LONG_MIN
  }

  /** Java's `a + b` on longs. */
  function AddLong(a: int, b: int): (r: int)
    ensures IsLong(r)
    ensures IsLong(a + b) ==> r == a + b
  {
    ToLong(a + b)
  }

  /** Wrapping after an intermediate addition is the same as wrapping once at the end. */
  lemma AddLongAssociates(a: int, b: int, c: int)
    ensures AddLong(AddLong(a, b), c) == ToLong(a + b + c)
  {
    var k := (a + b - LONG_MIN) / TWO_TO_THE_64;
    assert AddLong(a, b) == a + b - k * TWO_TO_THE_64;
    ModuloShift(a + b + c - LONG_MIN, k);
  }

  lemma ModuloShift(x: int, k: int)
    ensures (x - k * TWO_TO_THE_64) % TWO_TO_THE_64 == x % TWO_TO_THE_64
  {
    var q := x / TWO_TO_THE_64;
    var r := x % TWO_TO_THE_64;
    assert x - k * TWO_TO_THE_64 == (q - k) * TWO_TO_THE_64 + r;
  }
}
