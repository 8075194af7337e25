/** The C code's unsigned 32-bit numbers, and products by repeated addition: those stay out of the
    solver's way wherever a proof does not need to multiply. */
module Arithmetic {
  const TWO_TO_32 := 0x1_0000_0000

  /** What is left of a number in 32 bits. */
  function Wrap32(n: int): nat {
    n % TWO_TO_32
  }

  lemma Unwrapped(n: nat)
    requires n < TWO_TO_32
    ensures Wrap32(n) == n
  {
  }

  /** `n` times `a`, or 0 for a negative `n`. */
  function Times(a: int, n: int): (r: int)
    ensures a >= 0 ==> r >= 0
    decreases n
  {
    if n <= 0 then 0 else a + Times(a, n - 1)
  }

  lemma {:induction false} TimesIsProduct(a: int, n: nat)
    ensures Times(a, n) == a * n
    decreases n
  {
    if n > 0 {
      TimesIsProduct(a, n - 1);
      assert a * n == a * (n - 1) + a;
    }
  }

  lemma {:induction false} TimesMonotone(a: int, m: int, b: int, n: int)
    requires 0 <= a <= b && 0 <= m <= n
    ensures 0 <= Times(a, m) <= Times(b, n)
    decreases n
  {
    if n > 0 {
      TimesMonotone(a, if m > 0 then m - 1 else 0, b, n - 1);
    }
  }

  lemma {:induction false} TimesSplit(a: int, m: nat, n: nat)
    ensures Times(a, m) + Times(a, n) == Times(a, m + n)
    decreases n
  {
    if n > 0 {
      TimesSplit(a, m, n - 1);
    }
  }
}
