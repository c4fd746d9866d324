// Divisibility facts shared by the allocators.
module Multiples {

  lemma DivUnique(x: int, d: int, r: int, q: int)
    requires q > 0 && 0 <= r < q && x == d * q + r
    ensures x / q == d && x % q == r
  {
    var e := d - x / q;
    assert e * q == x % q - r by {
      assert x == (x / q) * q + x % q;
      assert e * q == d * q - (x / q) * q;
    }
    assert e >= 1 ==> e * q >= q;
    assert e <= -1 ==> e * q <= -q;
  }

  lemma SumOfMultiples(a: int, b: int, q: int)
    requires q > 0 && b % q == 0
    ensures (a + b) % q == a % q && (a - b) % q == a % q
    ensures (a + b) / q == a / q + b / q && (a - b) / q == a / q - b / q
  {
    var m, d, r := b / q, a / q, a % q;
    assert b == m * q && a == d * q + r;
    assert (d + m) * q == d * q + m * q && (d - m) * q == d * q - m * q;
    DivUnique(a + b, d + m, r, q);
    DivUnique(a - b, d - m, r, q);
  }

  lemma Scaled(m: nat, q: int)
    requires q > 0
    ensures (m * q) % q == 0 && (m * q) / q == m
  {
    DivUnique(m * q, m, 0, q);
  }

  lemma QuotientPositive(a: int, q: int)
    requires q > 0 && a >= q
    ensures a / q > 0
  {
    SumOfMultiples(a - q, q, q);
  }

  lemma LastQuotient(a: int, q: int)
    requires q > 0 && a > 0 && a % q == 0
    ensures (a - 1) / q < a / q
  {
    DivUnique(a - 1, a / q - 1, q - 1, q);
  }

  lemma DivMonotone(a: nat, b: nat, q: nat)
    requires q > 0 && a <= b
    ensures a / q <= b / q
  {
    var e := a / q - b / q;
    assert e * q == (a - a % q) - (b - b % q) by { assert e * q == (a / q) * q - (b / q) * q; }
    assert e >= 1 ==> e * q >= q;
  }

  lemma NoMore(a: int, b: int, s: int)
    requires a <= b && s >= 0
    ensures a * s <= b * s && s * a <= s * b
  {
  }

  function RoundUp(r: nat, q: nat): (n: nat)
    requires q > 0
  {
    if r % q != 0 then r + (q - r % q) else r
  }

  lemma RoundUpIsMultiple(r: nat, q: nat)
    requires q > 0
    ensures RoundUp(r, q) % q == 0 && r <= RoundUp(r, q) < r + q
  {
    if r % q != 0 {
      var d := r / q;
      assert RoundUp(r, q) == (d + 1) * q by { assert r == d * q + r % q; assert (d + 1) * q == d * q + q; }
      Scaled(d + 1, q);
    }
  }

  lemma RoundUpLeast(r: nat, q: nat, n: nat)
    requires q > 0 && n % q == 0 && r <= n
    ensures RoundUp(r, q) <= n
  {
    RoundUpIsMultiple(r, q);
    var d := RoundUp(r, q) - n;
    SumOfMultiples(RoundUp(r, q), n, q);
    if d > 0 { AtLeastOne(d, q); }
  }

  lemma AtLeastOne(a: int, q: int)
    requires q > 0 && a > 0 && a % q == 0
    ensures a >= q
  {
    if a < q { DivUnique(a, 0, a, q); }
  }
}
