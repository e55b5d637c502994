/** Go's `int` and `int64`: 64-bit two's complement with wrap-around. */
module Int64 {
  const MIN: int := -0x8000_0000_0000_0000
  const MAX: int := 0x7fff_ffff_ffff_ffff
  const MODULUS: int := 0x1_0000_0000_0000_0000

  type int64 = x: int | MIN <= x <= MAX

  /** The 64-bit value that overflowing arithmetic leaves behind. */
  function Wrap(x: int): (r: int64)
    ensures (x - r) % MODULUS == 0
    ensures MIN <= x <= MAX ==> r == x
  {
    (x - MIN) % MODULUS + MIN
  }

  /** Only one representable value is congruent to `x`. */
  lemma WrapUnique(x: int, r: int64)
    requires (x - r) % MODULUS == 0
    ensures r == Wrap(x)
  {
  }

  /** Wrapping after every addition is the same as wrapping once at the end. */
  lemma WrapAdd(a: int, b: int)
    ensures Wrap(Wrap(a) + b) == Wrap(a + b)
  {
    assert (a - Wrap(a)) % MODULUS == 0;
    assert (Wrap(a) + b - Wrap(Wrap(a) + b)) % MODULUS == 0;
    WrapUnique(a + b, Wrap(Wrap(a) + b));
  }
}
