/** Counters and stamps of 32 bits. */
module Wrapping {

  const WRAP: nat := 0x1_0000_0000

  function U32(x: int): nat {
    x % WRAP
  }

  lemma {:induction false} WrapDifference(a: int, b: int)
    ensures U32(U32(a) - U32(b)) == U32(a - b)
  {
    assert a - b == a % WRAP - b % WRAP + WRAP * (a / WRAP - b / WRAP);
  }

  lemma {:induction false} WrapSum(a: int, b: int)
    ensures U32(U32(a) + b) == U32(a + b)
  {
    assert a + b == a % WRAP + b + WRAP * (a / WRAP);
  }
}
