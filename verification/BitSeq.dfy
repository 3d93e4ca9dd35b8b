/** Sequences of bits: numbers sent lowest bit first, codes sent highest bit first (section 3.1.1 of RFC 1951). */
module BitSeq {
  import opened Arithmetic
  import opened Bytes

  type Bit = bool

  function BitOf(v: nat): Bit {
    v % 2 == 1
  }

  /** The low n bits of v, lowest first. */
  function LowBits(v: nat, n: nat): (r: seq<Bit>)
    ensures |r| == n
  {
    if n == 0 then [] else [BitOf(v)] + LowBits(v / 2, n - 1)
  }

  /** The low n bits of c, highest first. */
  function CodeBits(c: nat, n: nat): (r: seq<Bit>)
    ensures |r| == n
  {
    if n == 0 then [] else CodeBits(c / 2, n - 1) + [BitOf(c)]
  }

  /** The number whose bits, lowest first, are these. */
  function Number(s: seq<Bit>): nat {
    if s == [] then 0 else (if s[0] then 1 else 0) + 2 * Number(s[1..])
  }

  lemma {:induction false} NumberOfLowBits(v: nat, n: nat)
    requires v < Pow2(n)
    ensures Number(LowBits(v, n)) == v
    decreases n
  {
    if n > 0 {
      NumberOfLowBits(v / 2, n - 1);
      assert LowBits(v, n)[1..] == LowBits(v / 2, n - 1);
    }
  }

  /** The n bits of a code read from the other end. */
  function Reverse(c: nat, n: nat): nat {
    if n == 0 then 0 else (c % 2) * Pow2(n - 1) + Reverse(c / 2, n - 1)
  }

  lemma {:induction false} ReverseFits(c: nat, n: nat)
    ensures Reverse(c, n) < Pow2(n)
    decreases n
  {
    if n > 0 { ReverseFits(c / 2, n - 1); }
  }

  lemma {:induction false} LowBitsTop(x: nat, b: nat, n: nat)
    requires x < Pow2(n) && b < 2
    ensures LowBits(x + b * Pow2(n), n + 1) == LowBits(x, n) + [b == 1]
    decreases n
  {
    if n > 0 {
      var y := x + b * Pow2(n);
      assert b * Pow2(n) == 2 * (b * Pow2(n - 1));
      assert y / 2 == x / 2 + b * Pow2(n - 1) && y % 2 == x % 2;
      LowBitsTop(x / 2, b, n - 1);
      assert LowBits(x, n) == [BitOf(x)] + LowBits(x / 2, n - 1);
    } else {
      assert LowBits(b, 1) == [BitOf(b)] + LowBits(b / 2, 0);
    }
  }

  /** Reversing a code makes the two orders of sending agree. */
  lemma {:induction false} ReversedBits(c: nat, n: nat)
    ensures LowBits(Reverse(c, n), n) == CodeBits(c, n)
    decreases n
  {
    hide Pow2;
    if n > 0 {
      ReversedBits(c / 2, n - 1);
      ReverseFits(c / 2, n - 1);
      LowBitsTop(Reverse(c / 2, n - 1), c % 2, n - 1);
    }
  }

  /** bi_reverse */
  method BiReverse(code0: nat, len0: nat) returns (res: nat)
    requires len0 >= 1
    ensures res == Reverse(code0, len0)
  {
    var code, len := code0, len0;
    res := 0;
    while true
      invariant len >= 1 && res % 2 == 0 && res / 2 * Pow2(len) + Reverse(code, len) == Reverse(code0, len0)
      decreases len
    {
      ReverseStep(res / 2, code, len);
      res := res + code % 2;
      len := len - 1;
      if len <= 0 { return; }
      code := code / 2;
      res := res * 2;
    }
  }

  lemma ReverseStep(r: nat, code: nat, len: nat)
    requires len >= 1
    ensures r * Pow2(len) + Reverse(code, len) == (2 * r + code % 2) * Pow2(len - 1) + Reverse(code / 2, len - 1)
    ensures Reverse(code, 1) == code % 2 && Pow2(1) == 2 && Pow2(0) == 1
  {
    Distribute(2 * r, code % 2, Pow2(len - 1));
    assert r * Pow2(len) == r * (2 * Pow2(len - 1)) == 2 * r * Pow2(len - 1);
    assert Reverse(code, 1) == (code % 2) * Pow2(0) + Reverse(code / 2, 0);
    assert Pow2(1) == 2 * Pow2(0);
  }

  // ---------- codes as numbers ----------

  /** c >> n */
  function Shr(c: nat, n: nat): nat {
    if n == 0 then c else Shr(c / 2, n - 1)
  }

  lemma {:induction false} ShrBounds(c: nat, n: nat)
    ensures Shr(c, n) * Pow2(n) <= c < (Shr(c, n) + 1) * Pow2(n)
    decreases n
  {
    if n > 0 {
      ShrBounds(c / 2, n - 1);
      var q, p := Shr(c, n), Pow2(n - 1);
      Twice(q, p);
      Twice(q + 1, p);
    }
  }

  lemma {:induction false} ShrFits(c: nat, n: nat, k: nat)
    requires k <= n && c < Pow2(n)
    ensures Shr(c, k) < Pow2(n - k)
    decreases k
  {
    if k > 0 { ShrFits(c / 2, n - 1, k - 1); }
  }

  lemma Twice(q: nat, p: nat)
    ensures q * (2 * p) == 2 * (q * p)
  {
  }

  lemma {:induction false} CodeBitsPrefix(c: nat, n: nat, k: nat)
    requires k <= n
    ensures CodeBits(c, n)[..k] == CodeBits(Shr(c, n - k), k)
    decreases n
  {
    if k < n {
      CodeBitsPrefix(c / 2, n - 1, k);
      assert CodeBits(c, n)[..k] == CodeBits(c / 2, n - 1)[..k];
    } else {
      assert CodeBits(c, n)[..k] == CodeBits(c, n);
    }
  }

  lemma {:induction false} CodeBitsInjective(a: nat, b: nat, n: nat)
    requires a < Pow2(n) && b < Pow2(n) && CodeBits(a, n) == CodeBits(b, n)
    ensures a == b
    decreases n
  {
    if n > 0 {
      assert CodeBits(a, n)[..n - 1] == CodeBits(a / 2, n - 1) && CodeBits(a, n)[n - 1] == BitOf(a);
      assert CodeBits(b, n)[..n - 1] == CodeBits(b / 2, n - 1) && CodeBits(b, n)[n - 1] == BitOf(b);
      CodeBitsInjective(a / 2, b / 2, n - 1);
    }
  }

  // ---------- bytes ----------

  /** The bits of a string of bytes, each lowest bit first. */
  function BytesToBits(s: seq<Byte>): (r: seq<Bit>)
    ensures |r| == 8 * |s|
  {
    if s == [] then [] else BytesToBits(s[..|s| - 1]) + LowBits(s[|s| - 1] as nat, 8)
  }

  lemma {:induction false} BytesToBitsAppend(s: seq<Byte>, t: seq<Byte>)
    ensures BytesToBits(s + t) == BytesToBits(s) + BytesToBits(t)
    decreases |t|
  {
    hide LowBits;
    if t == [] {
      assert s + t == s;
    } else {
      var n := |t| - 1;
      BytesToBitsAppend(s, t[..n]);
      assert (s + t)[..|s + t| - 1] == s + t[..n] && (s + t)[|s + t| - 1] == t[n];
      Associative(BytesToBits(s), BytesToBits(t[..n]), LowBits(t[n] as nat, 8));
    }
  }

  lemma Associative(a: seq<Bit>, b: seq<Bit>, c: seq<Bit>)
    ensures (a + b) + c == a + (b + c)
  {
  }

  /** A number's bits in two parts. */
  lemma {:induction false} LowBitsSplit(v: nat, k: nat, n: nat)
    ensures LowBits(v, k + n) == LowBits(v, k) + LowBits(Shr(v, k), n)
    decreases k
  {
    if k > 0 {
      LowBitsSplit(v / 2, k - 1, n);
      assert LowBits(v, k + n) == [BitOf(v)] + LowBits(v / 2, k - 1 + n);
    }
  }

  /** Putting the bits of h above the k bits of v. */
  lemma {:induction false} LowBitsJoin(v: nat, h: nat, k: nat, n: nat)
    requires v < Pow2(k)
    ensures LowBits(v + h * Pow2(k), k + n) == LowBits(v, k) + LowBits(h, n)
    decreases k
  {
    if k > 0 {
      Twice(h, Pow2(k - 1));
      var y := v + h * Pow2(k);
      assert y / 2 == v / 2 + h * Pow2(k - 1) && y % 2 == v % 2;
      LowBitsJoin(v / 2, h, k - 1, n);
      assert LowBits(y, k + n) == [BitOf(y)] + LowBits(y / 2, k - 1 + n);
    }
  }
}
