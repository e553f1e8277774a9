/** 64-bit unsigned integers, and the few facts about products and quotients that
    the other modules share. */
module Arithmetic {
  const MAX_UINT64: nat := 0xFFFF_FFFF_FFFF_FFFF
  const TWO_64: nat := 0x1_0000_0000_0000_0000

  type uint64 = x: int | 0 <= x <= MAX_UINT64

  lemma MulMono(a: int, b: int, c: int)
    requires a <= b && c >= 0
    ensures a * c <= b * c
  {
  }

  lemma MulCancel(a: int, b: int, c: int)
    requires a * c <= b * c && c > 0
    ensures a <= b
  {
    if b < a {
      MulMono(b + 1, a, c);
    }
  }

  /** Division is the right adjoint of multiplication. */
  lemma DivAdjoint(a: int, b: int, c: int)
    requires b > 0
    ensures a / b >= c <==> a >= c * b
  {
    assert a == a / b * b + a % b;
    if a / b >= c {
      MulMono(c, a / b, b);
    } else {
      MulMono(a / b + 1, c, b);
    }
  }

  lemma MulDiv(a: nat, b: nat)
    requires b > 0
    ensures a * b / b == a
  {
    DivAdjoint(a * b, b, a);
    DivAdjoint(a * b, b, a + 1);
  }

  lemma DivBounds(a: nat, b: nat)
    requires b > 0
    ensures 0 <= a / b <= a
  {
    DivAdjoint(a, b, 0);
    DivAdjoint(a, b, a + 1);
    MulMono(1, b, a + 1);
  }
}
