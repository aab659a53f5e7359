/** Unsigned bit operations that are not plain arithmetic, on unbounded naturals. */
module Bits {
  type byte = x: int | 0 <= x < 256

  /** Bitwise inclusive or. */
  function BitOr(a: nat, b: nat): nat
    decreases a + b
  {
    if a == 0 && b == 0 then 0
    else (if a % 2 == 1 || b % 2 == 1 then 1 else 0) + 2 * BitOr(a / 2, b / 2)
  }

  /** Bitwise exclusive or. */
  function BitXor(a: nat, b: nat): nat
    decreases a + b
  {
    if a == 0 && b == 0 then 0
    else (a + b) % 2 + 2 * BitXor(a / 2, b / 2)
  }

  function Pow2(n: nat): nat {
    if n == 0 then 1 else 2 * Pow2(n - 1)
  }

  lemma {:induction false} BitOrZero(a: nat)
    ensures BitOr(a, 0) == a
  {
    if a > 0 {
      BitOrZero(a / 2);
    }
  }

  /** Or-ing a two-bit value into two clear low bits adds it. */
  lemma {:induction false} BitOrLowBits(a: nat, t: nat)
    requires a % 4 == 0 && t < 4
    ensures BitOr(a, t) == a + t
  {
    BitOrEven(a / 2, t / 2);
    BitOrStep(a, t);
  }

  lemma {:induction false} BitOrEven(a: nat, t: nat)
    requires a % 2 == 0 && t < 2
    ensures BitOr(a, t) == a + t
  {
    BitOrZero(a / 2);
    BitOrStep(a, t);
  }

  lemma {:induction false} BitOrStep(a: nat, t: nat)
    ensures BitOr(a, t) == (if a % 2 == 1 || t % 2 == 1 then 1 else 0) + 2 * BitOr(a / 2, t / 2)
  {
  }

  lemma {:induction false} BitXorBound(a: nat, b: nat, n: nat)
    requires a < Pow2(n) && b < Pow2(n)
    ensures BitXor(a, b) < Pow2(n)
  {
    if n > 0 && !(a == 0 && b == 0) {
      BitXorBound(a / 2, b / 2, n - 1);
    }
  }
}
