/** ct_init: the tables from lengths and distances to codes, and the static trees. */
module DeflateTables {
  import opened Arithmetic
  import opened BitSeq
  import opened HuffmanRepair
  import opened HuffmanGen
  import opened HuffmanCodes
  import opened DeflateFormat
  import opened DeflateTokens

  datatype Tables = Tables(lengthCode: seq<nat>, baseLength: seq<nat>, distCode: seq<nat>, baseDist: seq<nat>)

  /** D_CODE */
  function DCode(t: Tables, dist: nat): nat
    requires |t.distCode| == 512 && dist < 32768
  {
    if dist < 256 then t.distCode[dist] else t.distCode[256 + dist / 128]
  }

  /** The tables agree with section 3.2.5 of RFC 1951. */
  ghost predicate GoodTables(t: Tables) {
    && |t.lengthCode| == 256 && |t.baseLength| == 29 && |t.distCode| == 512 && |t.baseDist| == 30
    && (forall lc :: 0 <= lc < 256 ==> t.lengthCode[lc] == LengthCode(lc + 3))
    && (forall c :: 0 <= c < 28 ==> t.baseLength[c] + 3 == LENGTH_BASE[c])
    && (forall d :: 0 <= d < 32768 ==> DCode(t, d) == DistCode(d + 1))
    && (forall c :: 0 <= c < 30 ==> t.baseDist[c] + 1 == DIST_BASE[c])
  }

  lemma TableSizes()
    ensures |LENGTH_BASE| == |LENGTH_EXTRA| == 29 && |DIST_BASE| == |DIST_EXTRA| == 30
  {
  }

  lemma {:induction false} LastBelowIs(table: seq<nat>, v: nat, code: nat, c: nat)
    requires code <= c < |table| && table[code] <= v && forall j :: code < j <= c ==> table[j] > v
    ensures LastBelow(table, v, c) == code
    decreases c
  {
    if c > code { LastBelowIs(table, v, code, c - 1); }
  }

  lemma {:induction false} LengthMono(a: nat, b: nat)
    requires a <= b < 28
    ensures LENGTH_BASE[a] <= LENGTH_BASE[b]
    decreases b
  {
    hide Pow2;
    if a < b {
      LengthMono(a, b - 1);
      LengthStep(b - 1);
    }
  }

  lemma {:induction false} DistMono(a: nat, b: nat)
    requires a <= b < 30
    ensures DIST_BASE[a] <= DIST_BASE[b]
    decreases b
  {
    hide Pow2;
    if a < b {
      DistMono(a, b - 1);
      DistStep(b - 1);
    }
  }

  lemma {:induction false} LengthCodeIs(len: nat, code: nat)
    requires code < 28 && LENGTH_BASE[code] <= len < LENGTH_BASE[code] + Pow2(LENGTH_EXTRA[code])
    ensures LastBelow(LENGTH_BASE, len, 27) == code
  {
    hide Pow2;
    LengthStep(code);
    forall j | code < j <= 27 ensures LENGTH_BASE[j] > len { LengthMono(code + 1, j); }
    LastBelowIs(LENGTH_BASE, len, code, 27);
  }

  lemma {:induction false} DistCodeIs(dist: nat, code: nat)
    requires code < 30 && DIST_BASE[code] <= dist < DIST_BASE[code] + Pow2(DIST_EXTRA[code])
    ensures DistCode(dist) == code
  {
    hide Pow2;
    DistStep(code);
    forall j | code < j <= 29 ensures DIST_BASE[j] > dist { DistMono(code + 1, j); }
    LastBelowIs(DIST_BASE, dist, code, 29);
  }

  // ---------- lengths ----------

  method LengthTables() returns (lengthCode: seq<nat>, baseLength: seq<nat>)
    ensures |lengthCode| == 256 && |baseLength| == 29
    ensures forall lc :: 0 <= lc < 256 ==> lengthCode[lc] == LengthCode(lc + 3)
    ensures forall c :: 0 <= c < 28 ==> baseLength[c] + 3 == LENGTH_BASE[c]
  {
    hide Pow2, LastBelow;
    lengthCode, baseLength := seq(256, _ => 0), seq(29, _ => 0);
    var length, code := 0, 0;
    while code < 28
      invariant 0 <= code <= 28 && |lengthCode| == 256 && |baseLength| == 29
      invariant length == if code < 28 then LENGTH_BASE[code] - 3 else 256
      invariant forall i :: 0 <= i < length ==> lengthCode[i] == LastBelow(LENGTH_BASE, i + 3, 27)
      invariant forall c :: 0 <= c < code ==> baseLength[c] + 3 == LENGTH_BASE[c]
    {
      LengthStep(code);
      LengthTop(code);
      baseLength := baseLength[code := length];
      var n := 0;
      while n < Pow2(LENGTH_EXTRA[code])
        invariant 0 <= n <= Pow2(LENGTH_EXTRA[code]) && |lengthCode| == 256 && length == LENGTH_BASE[code] - 3 + n
        invariant forall i :: 0 <= i < length ==> lengthCode[i] == LastBelow(LENGTH_BASE, i + 3, 27)
      {
        LengthCodeIs(length + 3, code);
        lengthCode := lengthCode[length := code];
        length := length + 1;
        n := n + 1;
      }
      code := code + 1;
    }
    lengthCode := lengthCode[length - 1 := code];
  }

  lemma LengthTop(code: nat)
    requires code < 28
    ensures 3 <= LENGTH_BASE[code] && LENGTH_BASE[code] + Pow2(LENGTH_EXTRA[code]) <= 259
  {
    hide Pow2;
    LengthMono(0, code);
    LengthStep(code);
    if code < 27 { LengthMono(code + 1, 27); }
  }

  // ---------- distances ----------

  /** From code 16 on, all intervals begin and end at multiples of 128. */
  lemma FarCodes(code: nat)
    requires 16 <= code < 30
    ensures DIST_EXTRA[code] >= 7 && (DIST_BASE[code] - 1) % 128 == 0 && Pow2(DIST_EXTRA[code]) == 128 * Pow2(DIST_EXTRA[code] - 7)
  {
    hide Pow2;
    Powers();
    var c := code;
    assert c == 16 || c == 17 || c == 18 || c == 19 || c == 20 || c == 21 || c == 22 || c == 23 || c == 24 || c == 25 || c == 26
        || c == 27 || c == 28 || c == 29;
  }

  lemma DistTop(code: nat)
    requires code < 30
    ensures 1 <= DIST_BASE[code] && DIST_BASE[code] + Pow2(DIST_EXTRA[code]) <= 32769
    ensures code < 16 ==> DIST_BASE[code] + Pow2(DIST_EXTRA[code]) <= 257
    ensures code >= 16 ==> DIST_BASE[code] >= 257
  {
    hide Pow2;
    DistMono(0, code);
    DistStep(code);
    if code < 29 { DistMono(code + 1, 29); }
    DistStep(29);
    if code < 16 { DistMono(code + 1, 16); } else { DistMono(16, code); }
  }

  /** A distance and the start of its block of 128 have the same code. */
  lemma {:induction false} SameBlock(d: nat)
    requires 256 <= d < 32768
    ensures DistCode(d + 1) == DistCode(128 * (d / 128) + 1)
  {
    hide Pow2, LastBelow;
    DistFrom(d + 1, 29);
    var c, q, r := DistCode(d + 1), d / 128, d % 128;
    DistTop(c);
    FarCodes(c);
    var b, m := (DIST_BASE[c] - 1) / 128, Pow2(DIST_EXTRA[c] - 7);
    assert DIST_BASE[c] == 128 * b + 1;
    assert 128 * b <= 128 * q + r < 128 * (b + m);
    DistCodeIs(128 * q + 1, c);
  }

  method NearDistances() returns (distCode: seq<nat>, baseDist: seq<nat>, dist: nat)
    ensures |distCode| == 512 && |baseDist| == 30 && dist == 256
    ensures forall d :: 0 <= d < 256 ==> distCode[d] == DistCode(d + 1)
    ensures forall c :: 0 <= c < 16 ==> baseDist[c] + 1 == DIST_BASE[c]
  {
    hide Pow2, LastBelow;
    distCode, baseDist := seq(512, _ => 0), seq(30, _ => 0);
    dist := 0;
    var code := 0;
    while code < 16
      invariant 0 <= code <= 16 && |distCode| == 512 && |baseDist| == 30 && dist == DIST_BASE[code] - 1
      invariant forall d :: 0 <= d < dist ==> distCode[d] == DistCode(d + 1)
      invariant forall c :: 0 <= c < code ==> baseDist[c] + 1 == DIST_BASE[c]
    {
      DistStep(code);
      DistTop(code);
      baseDist := baseDist[code := dist];
      var n := 0;
      while n < Pow2(DIST_EXTRA[code])
        invariant 0 <= n <= Pow2(DIST_EXTRA[code]) && |distCode| == 512 && dist == DIST_BASE[code] - 1 + n
        invariant forall d :: 0 <= d < dist ==> distCode[d] == DistCode(d + 1)
      {
        DistCodeIs(dist + 1, code);
        distCode := distCode[dist := code];
        dist := dist + 1;
        n := n + 1;
      }
      code := code + 1;
    }
  }

  method FarDistances(distCode0: seq<nat>, baseDist0: seq<nat>, dist0: nat) returns (distCode: seq<nat>, baseDist: seq<nat>)
    requires |distCode0| == 512 && |baseDist0| == 30 && dist0 == 256
    ensures |distCode| == 512 && |baseDist| == 30 && distCode[..256] == distCode0[..256]
    ensures forall q :: 2 <= q < 256 ==> distCode[256 + q] == DistCode(128 * q + 1)
    ensures forall c :: 0 <= c < 30 ==> baseDist[c] == if c < 16 then baseDist0[c] else DIST_BASE[c] - 1
  {
    hide Pow2, LastBelow;
    distCode, baseDist := distCode0, baseDist0;
    var code, dist := 16, dist0 / 128;
    while code < 30
      invariant 16 <= code <= 30 && |distCode| == 512 && |baseDist| == 30 && distCode[..256] == distCode0[..256]
      invariant 128 * dist == if code < 30 then DIST_BASE[code] - 1 else 32768
      invariant forall q :: 2 <= q < dist ==> distCode[256 + q] == DistCode(128 * q + 1)
      invariant forall c :: 0 <= c < code ==> baseDist[c] == if c < 16 then baseDist0[c] else DIST_BASE[c] - 1
    {
      DistStep(code);
      DistTop(code);
      FarCodes(code);
      baseDist := baseDist[code := dist * 128];
      var n := 0;
      while n < Pow2(DIST_EXTRA[code] - 7)
        invariant 0 <= n <= Pow2(DIST_EXTRA[code] - 7) && |distCode| == 512 && distCode[..256] == distCode0[..256]
        invariant 128 * dist == DIST_BASE[code] - 1 + 128 * n && dist >= 2
        invariant forall q :: 2 <= q < dist ==> distCode[256 + q] == DistCode(128 * q + 1)
      {
        DistCodeIs(128 * dist + 1, code);
        distCode := distCode[256 + dist := code];
        dist := dist + 1;
        n := n + 1;
      }
      code := code + 1;
    }
  }

  // ---------- the static trees ----------

  lemma {:induction false} SameGrow(pre: seq<nat>, x: nat, k: nat, b: nat)
    ensures Same(pre + Times(x, k), |pre| + k, b) == Same(pre, |pre|, b) + (if x == b then k else 0)
    decreases k
  {
    if k == 0 {
      assert pre + Times(x, 0) == pre;
    } else {
      SameGrow(pre, x, k - 1, b);
      assert (pre + Times(x, k))[..|pre| + k - 1] == pre + Times(x, k - 1);
      SamePrefix(pre + Times(x, k), |pre| + k - 1, |pre| + k - 1, b);
    }
  }

  lemma {:induction false} FixedLitCounts(b: nat)
    ensures |FIXED_LIT| == 288
    ensures Same(FIXED_LIT, 288, b) == if b == 7 then 24 else if b == 8 then 152 else if b == 9 then 112 else 0
  {
    hide Same;
    var p1 := Times(8, 144);
    var p2 := p1 + Times(9, 112);
    var p3 := p2 + Times(7, 24);
    assert [] + p1 == p1;
    SameGrow([], 8, 144, b);
    SameGrow(p1, 9, 112, b);
    SameGrow(p2, 7, 24, b);
    SameGrow(p3, 8, 8, b);
    assert Same([], 0, b) == 0 by { NoneSame(b); }
  }

  lemma NoneSame(b: nat)
    ensures Same([], 0, b) == 0
  {
  }

  lemma {:induction false} FixedKraft(bl: seq<nat>)
    requires |bl| == 16 && forall b {:trigger bl[b]} :: 0 <= b <= 15 ==> bl[b] == if b == 7 then 24 else if b == 8 then 152 else if b == 9 then 112 else 0
    ensures Kraft(bl, 15, 15) == Pow2(15)
  {
    hide Pow2;
    Powers();
    Pow2Fifteen();
    assert Kraft(bl, 15, 6) == 0 by { AllZeroBelow(bl, 15, 6); }
    assert Kraft(bl, 15, 7) == 24 * 256;
    assert Kraft(bl, 15, 8) == 24 * 256 + 152 * 128;
    assert Kraft(bl, 15, 9) == 24 * 256 + 152 * 128 + 112 * 64;
    ZeroAbove(bl, 9, 15);
  }

  lemma {:induction false} ZeroAbove(bl: seq<nat>, b: nat, c: nat)
    requires |bl| == 16 && b <= c <= 15 && forall i :: b < i <= c ==> bl[i] == 0
    ensures Kraft(bl, 15, c) == Kraft(bl, 15, b)
    decreases c
  {
    if b < c { ZeroAbove(bl, b, c - 1); }
  }

  /** The static literal code is complete. */
  lemma {:induction false} FixedLitLens()
    ensures |FIXED_LIT| == 288 && CodeLens(FIXED_LIT) && forall n :: 0 <= n < 288 ==> 7 <= FIXED_LIT[n] <= 9
  {
    hide Same, Kraft, Pow2;
    var bl := CountsOf(FIXED_LIT);
    forall b | 0 <= b <= 15 ensures bl[b] == if b == 7 then 24 else if b == 8 then 152 else if b == 9 then 112 else 0 { FixedLitCounts(b); }
    FixedKraft(bl);
  }

  lemma {:induction false} SameFives(n: nat, b: nat)
    requires n <= 32
    ensures Same(FIXED_DIST, n, b) == if b == 5 then n else 0
    decreases n
  {
    if n > 0 { SameFives(n - 1, b); }
  }

  /** In the static distance code, the code of n is n. */
  lemma {:induction false} FixedDistLens()
    ensures |FIXED_DIST| == 32 && CodeLens(FIXED_DIST) && forall n :: 0 <= n < 32 ==> FIXED_DIST[n] == 5 && CodeOf(FIXED_DIST, n) == n
  {
    hide Same, Pow2;
    var bl := CountsOf(FIXED_DIST);
    forall b | 0 <= b <= 15 ensures bl[b] == if b == 5 then 32 else 0 { SameFives(32, b); }
    Powers();
    Pow2Fifteen();
    assert Kraft(bl, 15, 4) == 0 by { AllZeroBelow(bl, 15, 4); }
    assert Kraft(bl, 15, 5) == 32 * 1024;
    ZeroAbove(bl, 5, 15);
    assert First(bl, 5) == 0 by { assert First(bl, 1) == 0; assert First(bl, 3) == 0; }
    forall n | 0 <= n < 32 ensures CodeOf(FIXED_DIST, n) == n { SameFives(n, 5); }
  }

  method StaticTrees() returns (lcodes: seq<nat>, dcodes: seq<nat>)
    ensures |lcodes| == 288 && Codes(lcodes, FIXED_LIT) && |dcodes| == 30 && Codes(dcodes, FIXED_DIST)
  {
    hide CodeLens, Same, Reverse, CodeOf;
    FixedLitLens();
    FixedDistLens();
    var lens: seq<nat>, bl: seq<nat>, n := [], seq(16, _ => 0), 0;
    while n <= 143
      invariant 0 <= n <= 144 && lens == Times(8, n) && |bl| == 16 && forall b :: 0 <= b < 16 ==> bl[b] == if b == 8 then n else 0
    {
      lens, bl := lens + [8], bl[8 := bl[8] + 1];
      n := n + 1;
    }
    ghost var p1 := lens;
    while n <= 255
      invariant 144 <= n <= 256 && lens == p1 + Times(9, n - 144)
      invariant |bl| == 16 && forall b :: 0 <= b < 16 ==> bl[b] == if b == 8 then 144 else if b == 9 then n - 144 else 0
    {
      lens, bl := lens + [9], bl[9 := bl[9] + 1];
      n := n + 1;
    }
    ghost var p2 := lens;
    while n <= 279
      invariant 256 <= n <= 280 && lens == p2 + Times(7, n - 256)
      invariant |bl| == 16 && forall b :: 0 <= b < 16 ==> bl[b] == if b == 8 then 144 else if b == 9 then 112 else if b == 7 then n - 256 else 0
    {
      lens, bl := lens + [7], bl[7 := bl[7] + 1];
      n := n + 1;
    }
    ghost var p3 := lens;
    while n <= 287
      invariant 280 <= n <= 288 && lens == p3 + Times(8, n - 280)
      invariant |bl| == 16 && forall b :: 0 <= b < 16 ==> bl[b] == if b == 8 then n - 136 else if b == 9 then 112 else if b == 7 then 24 else 0
    {
      lens, bl := lens + [8], bl[8 := bl[8] + 1];
      n := n + 1;
    }
    assert lens == FIXED_LIT;
    forall b | 0 <= b < 16 ensures bl[b] == CountsOf(FIXED_LIT)[b] { FixedLitCounts(b); }
    lcodes := GenCodes(lens, bl);
    dcodes := [];
    for k := 0 to 30
      invariant |dcodes| == k && forall i :: 0 <= i < k ==> dcodes[i] == Reverse(i, 5)
    {
      var c := BiReverse(k, 5);
      dcodes := dcodes + [c];
    }
  }

  /** ct_init, without the first block. */
  method CtInit() returns (t: Tables, lcodes: seq<nat>, dcodes: seq<nat>)
    ensures GoodTables(t) && |lcodes| == 288 && Codes(lcodes, FIXED_LIT) && |dcodes| == 30 && Codes(dcodes, FIXED_DIST)
  {
    hide Codes, LastBelow;
    var lengthCode, baseLength := LengthTables();
    var near, base, dist := NearDistances();
    var distCode, baseDist := FarDistances(near, base, dist);
    lcodes, dcodes := StaticTrees();
    t := Tables(lengthCode, baseLength, distCode, baseDist);
    forall d | 0 <= d < 32768 ensures DCode(t, d) == DistCode(d + 1) {
      if d < 256 {
        assert distCode[..256][d] == near[..256][d];
      } else {
        SameBlock(d);
        BlockIndex(d);
      }
    }
  }

  lemma BlockIndex(d: nat)
    requires 256 <= d < 32768
    ensures 2 <= d / 128 < 256
  {
  }
}
