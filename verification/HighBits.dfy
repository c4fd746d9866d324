// The bsr instruction as vmem uses it (kernel/mm/vmem.c, highbit and cache_num).
module HighBits {

  function Pow2(n: nat): nat { if n == 0 then 1 else 2 * Pow2(n - 1) }

  // The index of the highest bit set, or -1 when there is none.
  function HighBit(v: nat): int { if v == 0 then -1 else 1 + HighBit(v / 2) }

  lemma {:induction false} HighBitRange(v: nat)
    requires v > 0
    ensures HighBit(v) >= 0 && Pow2(HighBit(v)) <= v < Pow2(HighBit(v) + 1)
  {
    if v > 1 { HighBitRange(v / 2); }
  }

  lemma {:induction false} HighBitMonotone(a: nat, b: nat)
    requires a <= b
    ensures -1 <= HighBit(a) <= HighBit(b)
  {
    if b > 0 { HighBitMonotone(a / 2, b / 2); }
  }

  lemma {:induction false} Pow2Monotone(a: nat, b: nat)
    requires a <= b
    ensures Pow2(a) <= Pow2(b)
  {
    if a < b { Pow2Monotone(a, b - 1); }
  }
}
