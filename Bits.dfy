/** The 32-bit integer operators of JavaScript, on unbounded integers: every
    operand of `^`, `|`, `<<`, `>>>` and `Math.imul` is first reduced modulo
    2^32, and the result is read as an unsigned 32-bit value (a signed int32
    result has the same bits, so reading it unsigned changes nothing for the
    operators that follow). */
module Bits {
  const TwoTo32: nat := 0x1_0000_0000

  /** A value of `x >>> 0`. */
  type Uint32 = x: int | 0 <= x < 0x1_0000_0000

  function Pow2(k: nat): (p: nat)
    ensures p >= 1
  {
    if k == 0 then 1 else 2 * Pow2(k - 1)
  }

  lemma Pow2Step(k: nat)
    ensures Pow2(k + 4) == 16 * Pow2(k)
  {
    assert Pow2(k + 4) == 2 * Pow2(k + 3);
    assert Pow2(k + 2) == 4 * Pow2(k);
  }

  /** The powers of two that the shift amounts of the source denote. */
  lemma Pow2Values()
    ensures Pow2(1) == 2 && Pow2(4) == 16 && Pow2(7) == 128 && Pow2(8) == 256
    ensures Pow2(24) == 0x100_0000 && Pow2(32) == TwoTo32
  {
    Pow2Step(0); Pow2Step(4); Pow2Step(8); Pow2Step(12);
    Pow2Step(16); Pow2Step(20); Pow2Step(24); Pow2Step(28);
    Pow2Step(3);
  }

  /** Bitwise exclusive or of two naturals, one bit at a time from the lowest. */
  function Xor(a: nat, b: nat): nat
    decreases a + b
  {
    if a == 0 then b
    else if b == 0 then a
    else 2 * Xor(a / 2, b / 2) + (if a % 2 == b % 2 then 0 else 1)
  }

  /** Bitwise or of two naturals, one bit at a time from the lowest. */
  function Or(a: nat, b: nat): nat
    decreases a + b
  {
    if a == 0 then b
    else if b == 0 then a
    else 2 * Or(a / 2, b / 2) + (if a % 2 == 1 || b % 2 == 1 then 1 else 0)
  }

  lemma {:induction false} XorBelow(a: nat, b: nat, k: nat)
    requires a < Pow2(k) && b < Pow2(k)
    ensures Xor(a, b) < Pow2(k)
    decreases a + b
  {
    if a != 0 && b != 0 {
      XorBelow(a / 2, b / 2, k - 1);
    }
  }

  lemma {:induction false} OrBelow(a: nat, b: nat, k: nat)
    requires a < Pow2(k) && b < Pow2(k)
    ensures Or(a, b) < Pow2(k)
    decreases a + b
  {
    if a != 0 && b != 0 {
      OrBelow(a / 2, b / 2, k - 1);
    }
  }

  /** ToUint32 of an integral number: its residue modulo 2^32. */
  function To32(x: int): Uint32
  {
    x % TwoTo32
  }

  /** `a ^ b`. */
  function Xor32(a: Uint32, b: Uint32): Uint32
  {
    Pow2Values();
    XorBelow(a, b, 32);
    Xor(a, b)
  }

  /** `a | b`. */
  function Or32(a: Uint32, b: Uint32): Uint32
  {
    Pow2Values();
    OrBelow(a, b, 32);
    Or(a, b)
  }

  /** `a << k`: the bits shifted out at the top are lost. */
  function ShiftLeft32(a: Uint32, k: nat): Uint32
  {
    To32(a * Pow2(k))
  }

  /** The floor of `a / 2^k`, one halving at a time: shifting never makes a
      natural larger. */
  function ShiftRight(a: nat, k: nat): (r: nat)
    ensures r <= a
  {
    if k == 0 then a else ShiftRight(a / 2, k - 1)
  }

  /** `a >>> k`. */
  function ShiftRight32(a: Uint32, k: nat): Uint32
  {
    ShiftRight(a, k)
  }

  /** `Math.imul(a, b)`: the low 32 bits of the exact product. */
  function Imul(a: Uint32, b: Uint32): Uint32
  {
    To32(a * b)
  }

  /** Reducing a summand modulo 2^32 first does not change the sum modulo 2^32. */
  lemma ReduceSummand(x: int, y: int)
    ensures To32(x + To32(y)) == To32(x + y)
  {
    var q := y / TwoTo32;
    assert To32(y) == y - TwoTo32 * q;
  }
}
