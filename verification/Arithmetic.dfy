/** Powers of two, remainders and products: the few facts about numbers that the proofs share. */
module Arithmetic {

  function Pow2(n: nat): (r: nat)
    ensures r >= 1
  {
    if n == 0 then 1 else 2 * Pow2(n - 1)
  }

  lemma {:induction false} Pow2Add(a: nat, b: nat)
    ensures Pow2(a + b) == Pow2(a) * Pow2(b)
    decreases a
  {
    if a > 0 {
      Pow2Add(a - 1, b);
      assert 2 * Pow2(a - 1) * Pow2(b) == 2 * (Pow2(a - 1) * Pow2(b));
    }
  }

  lemma {:induction false} Pow2Mono(a: nat, b: nat)
    requires a <= b
    ensures Pow2(a) <= Pow2(b)
    decreases b
  {
    if a < b { Pow2Mono(a, b - 1); }
  }

  function Max(a: int, b: int): int {
    if a >= b then a else b
  }

  function Min(a: int, b: int): int {
    if a <= b then a else b
  }

  lemma Distribute(a: nat, b: nat, c: nat)
    ensures (a + b) * c == a * c + b * c
  {
  }

  lemma MulAssoc(a: nat, b: nat, c: nat)
    ensures a * b * c == a * (b * c)
  {
  }

  lemma MulLe(a: nat, b: nat, c: nat)
    requires a <= b
    ensures a * c <= b * c
  {
    var d := b - a;
    Distribute(a, d, c);
    assert d * c >= 0;
  }

  /** A remainder is the only number below the divisor that leaves a multiple of it. */
  lemma Remainder(x: int, p: nat, q: int, r: int)
    requires 0 <= r < p && x == q * p + r
    ensures x % p == r
  {
    var q', r' := x / p, x % p;
    assert x == q' * p + r';
    assert (q - q') * p == r' - r;
    if q > q' { Larger(q - q', p); }
    if q < q' {
      assert (q' - q) * p == r - r';
      Larger(q' - q, p);
    }
  }

  lemma Larger(k: int, p: nat)
    requires k >= 1
    ensures k * p >= p
  {
  }

  lemma AddMultiple(x: int, p: nat, k: int)
    requires p >= 1
    ensures (x + k * p) % p == x % p
  {
    var q, r := x / p, x % p;
    assert x + k * p == (q + k) * p + r;
    Remainder(x + k * p, p, q + k, r);
  }
}
