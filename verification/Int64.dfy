/** 64-bit integer arithmetic: what overflows wraps around. */
module Int64 {
  const MAX_INT64: int := 0x7FFF_FFFF_FFFF_FFFF

  /** Two's-complement reduction to 64 bits. */
  function Wrap64(x: int): (r: int)
    ensures -MAX_INT64 - 1 <= r <= MAX_INT64
    ensures (r - x) % 0x1_0000_0000_0000_0000 == 0
  {
    (x + 0x8000_0000_0000_0000) % 0x1_0000_0000_0000_0000 - 0x8000_0000_0000_0000
  }

  lemma WrapExactIff(x: int)
    ensures Wrap64(x) == x <==> -MAX_INT64 - 1 <= x <= MAX_INT64
  {
  }

  /** Wrapping after every addition is the same as wrapping once. */
  lemma WrapSum(a: int, b: int)
    ensures Wrap64(Wrap64(a) + b) == Wrap64(a + b)
  {
  }
}
