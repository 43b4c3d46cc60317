/** Small shared vocabulary. */
module Prelude {
  datatype Option<+T> = None | Some(value: T)

  /** An octet. */
  type byte = x: int | 0 <= x < 256

  /** A 32-bit word. */
  type u32 = x: int | 0 <= x < 0x1_0000_0000
}

/** Quotients and remainders. */
module Arith {
  function Two(w: nat): (r: nat)
    ensures r > 0
  {
    if w == 0 then 1 else 2 * Two(w - 1)
  }

  lemma MulBig(len: int, k: int)
    requires len > 0
    ensures k >= 1 ==> len * k >= len
    ensures k <= -1 ==> len * k <= -len
  {
  }

  lemma DivModIs(x: int, q: int, r: int, len: int)
    requires 0 <= r < len && x == len * q + r
    ensures x % len == r && x / len == q
  {
    var d := x / len - q;
    assert x == len * (x / len) + x % len;
    assert len * d == r - x % len;
    MulBig(len, d);
  }
}
