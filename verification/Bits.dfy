/** Powers of two, `int.bit_length`, and single-bit tests and sets on a natural. */
module Bits {

  function Pow2(n: nat): (p: nat)
    ensures p > 0
  {
    if n == 0 then 1 else 2 * Pow2(n - 1)
  }

  function BitLength(n: nat): (len: nat)
    ensures n < Pow2(len)
    ensures n > 0 ==> len > 0 && Pow2(len - 1) <= n
  {
    if n == 0 then 0 else 1 + BitLength(n / 2)
  }

  /** `(mask >> t) & 1` */
  predicate Bit(mask: nat, t: nat)
    decreases t
  {
    if t == 0 then mask % 2 == 1 else Bit(mask / 2, t - 1)
  }

  /** `mask | (1 << t)` */
  function SetBit(mask: nat, t: nat): nat
    decreases t
  {
    if t == 0 then
      if mask % 2 == 1 then mask else mask + 1
    else
      2 * SetBit(mask / 2, t - 1) + mask % 2
  }

  lemma {:induction false} SetBitFrame(mask: nat, t: nat, u: nat)
    ensures Bit(SetBit(mask, t), u) == (u == t || Bit(mask, u))
    decreases t
  {
    if t > 0 && u > 0 {
      SetBitFrame(mask / 2, t - 1, u - 1);
      assert SetBit(mask, t) / 2 == SetBit(mask / 2, t - 1);
    } else if t == 0 && u > 0 {
      assert SetBit(mask, 0) / 2 == mask / 2;
    }
  }

  lemma {:induction false} ZeroHasNoBits(u: nat)
    ensures !Bit(0, u)
  {
    if u > 0 {
      ZeroHasNoBits(u - 1);
    }
  }
}
