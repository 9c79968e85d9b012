/** 32-bit sequence numbers: unsigned wrap-around and the signed reading of a difference. */
module SeqNumber {
  const MODULUS := 0x1_0000_0000
  const HALF := 0x8000_0000

  type u32 = x: int | 0 <= x < 0x1_0000_0000

  /** Conversion of an integer to `uint32_t`. */
  function Wrap(x: int): u32 {
    x % MODULUS
  }

  /** `a - b` in `uint32_t`: the subtraction borrows from 2^32. */
  function Dist(a: u32, b: u32): u32 {
    if a >= b then a - b else a - b + MODULUS
  }

  /** `static_cast<int32_t>(a - b)`. */
  function Delta(a: u32, b: u32): int {
    var d := Dist(a, b);
    if d < HALF then d else d - MODULUS
  }

  /** Wrapping commutes with adding, so positions can be kept as plain integers. */
  lemma WrapAdd(x: int, y: int)
    ensures Wrap(Wrap(x) + y) == Wrap(x + y)
  {
  }

  /** Within half the number space the signed difference is the true one, whatever has wrapped. */
  lemma DeltaIsDifference(base: int, x: int, y: int)
    requires -0x8000_0000 <= x - y < 0x8000_0000
    ensures Delta(Wrap(base + x), Wrap(base + y)) == x - y
    ensures x >= y ==> Dist(Wrap(base + x), Wrap(base + y)) == x - y
    ensures x <= y ==> Dist(Wrap(base + y), Wrap(base + x)) == y - x
  {
    DistIsDifference(base, x, y);
    DistIsDifference(base, y, x);
  }

  lemma DistIsDifference(base: int, x: int, y: int)
    requires -HALF <= x - y <= HALF
    ensures Dist(Wrap(base + x), Wrap(base + y)) == if x >= y then x - y else x - y + MODULUS
  {
    var a, b := base + x, base + y;
    assert a == a / MODULUS * MODULUS + Wrap(a);
    assert b == b / MODULUS * MODULUS + Wrap(b);
    var k := a / MODULUS - b / MODULUS;
    assert Wrap(a) - Wrap(b) == x - y - k * MODULUS;
    assert -1 <= k <= 1;
  }

  /** Moving the base forward by `step` lowers a signed difference by `step`. */
  lemma DeltaAfterStep(v: u32, next: u32, step: nat)
    requires Delta(v, next) - step >= -HALF
    ensures Delta(v, Wrap(next + step)) == Delta(v, next) - step
  {
  }

  /** Negating a signed difference that is not positive gives the unsigned difference the other way. */
  lemma DeltaNegates(a: u32, b: u32)
    requires Delta(a, b) <= 0
    ensures -Delta(a, b) == Dist(b, a)
  {
  }
}
