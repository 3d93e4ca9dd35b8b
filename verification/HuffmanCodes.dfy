/** Canonical codes (section 3.2.2 of RFC 1951), why no code is a prefix of another, and gen_codes. */
module HuffmanCodes {
  import opened Arithmetic
  import opened HuffmanOptimal
  import opened HuffmanLengths
  import opened HuffmanRepair
  import opened HuffmanGen
  import opened BitSeq

  // ---------- the codes that a list of lengths stands for ----------

  /** The number of codes of each length; length 0 means that there is no code. */
  function CountsOf(lens: seq<nat>): (bl: seq<nat>)
    ensures |bl| == MAX_BITS + 1 && bl[0] == 0 && forall b :: 1 <= b <= MAX_BITS ==> bl[b] == Same(lens, |lens|, b)
  {
    seq(MAX_BITS + 1, b requires 0 <= b <= MAX_BITS => if b == 0 then 0 else Same(lens, |lens|, b))
  }

  /** The smallest code of length b. */
  function First(bl: seq<nat>, b: nat): nat
    requires 1 <= b < |bl|
  {
    if b == 1 then 2 * bl[0] else 2 * (First(bl, b - 1) + bl[b - 1])
  }

  /** Within a length, the codes are consecutive in the order of the symbols. */
  function CodeOf(lens: seq<nat>, n: nat): nat
    requires n < |lens| && 1 <= lens[n] <= MAX_BITS
  {
    First(CountsOf(lens), lens[n]) + Same(lens, n, lens[n])
  }

  predicate HasCode(lens: seq<nat>, n: nat) {
    n < |lens| && 1 <= lens[n] <= MAX_BITS
  }

  /** The lengths leave room for all codes. */
  ghost predicate CodeLens(lens: seq<nat>) {
    && (forall n :: 0 <= n < |lens| ==> lens[n] <= MAX_BITS)
    && Kraft(CountsOf(lens), MAX_BITS, MAX_BITS) <= Pow2(MAX_BITS)
  }

  /** No more codes and no fewer than there is room for: what a strict inflater asks for. */
  predicate CompleteCode(lens: seq<nat>) {
    (forall n :: 0 <= n < |lens| ==> lens[n] <= MAX_BITS) && Kraft(CountsOf(lens), MAX_BITS, MAX_BITS) == Pow2(MAX_BITS)
  }

  /** Code n as it is sent. */
  function CodeSeq(lens: seq<nat>, n: nat): (r: seq<Bit>)
    requires HasCode(lens, n)
    ensures |r| == lens[n]
  {
    CodeBits(CodeOf(lens, n), lens[n])
  }

  // ---------- codes as intervals ----------

  /** The first code of a length starts where the shorter codes end. */
  lemma {:induction false} FirstUnits(bl: seq<nat>, max: nat, b: nat)
    requires 1 <= b <= max < |bl| && bl[0] == 0
    ensures First(bl, b) * Pow2(max - b) == Kraft(bl, max, b - 1)
    decreases b
  {
    if b > 1 {
      FirstUnits(bl, max, b - 1);
      var u := Pow2(max - b);
      Half(max - b + 1);
      Distribute(First(bl, b - 1), bl[b - 1], 2 * u);
      Twice(First(bl, b - 1) + bl[b - 1], u);
    }
  }

  lemma {:induction false} KraftMono(bl: seq<nat>, max: nat, b: nat, c: nat)
    requires b <= c <= max < |bl|
    ensures Kraft(bl, max, b) <= Kraft(bl, max, c)
    decreases c
  {
    if b < c { KraftMono(bl, max, b, c - 1); }
  }

  lemma {:induction false} SameMono(lens: seq<nat>, n: nat, m: nat, b: nat)
    requires n <= m <= |lens|
    ensures Same(lens, n, b) <= Same(lens, m, b)
    ensures n < m && lens[n] == b ==> Same(lens, n, b) < Same(lens, m, b)
    decreases m
  {
    if n < m {
      if n < m - 1 { SameMono(lens, n, m - 1, b); }
    }
  }

  /** The interval of code n, in units of 2^-15. */
  function Start(lens: seq<nat>, n: nat): nat
    requires HasCode(lens, n)
  {
    CodeOf(lens, n) * Width(lens[n])
  }

  function Width(b: nat): (w: nat)
    requires b <= MAX_BITS
    ensures w >= 1
  {
    Pow2(MAX_BITS - b)
  }

  lemma {:induction false} Interval(lens: seq<nat>, n: nat)
    requires HasCode(lens, n)
    ensures Kraft(CountsOf(lens), MAX_BITS, lens[n] - 1) <= Start(lens, n)
    ensures Start(lens, n) + Width(lens[n]) <= Kraft(CountsOf(lens), MAX_BITS, lens[n])
    ensures Start(lens, n) == Kraft(CountsOf(lens), MAX_BITS, lens[n] - 1) + Same(lens, n, lens[n]) * Width(lens[n])
  {
    hide Pow2, First, Same;
    var l, bl := lens[n], CountsOf(lens);
    var w, k := Width(l), Same(lens, n, lens[n]);
    FirstUnits(bl, MAX_BITS, l);
    Distribute(First(bl, l), k, w);
    SameMono(lens, n, |lens|, l);
    MulLe(k + 1, bl[l], w);
    Distribute(k, 1, w);
  }

  predicate Precedes(lens: seq<nat>, n: nat, m: nat)
    requires n < |lens| && m < |lens|
  {
    lens[n] < lens[m] || (lens[n] == lens[m] && n < m)
  }

  /** Shorter codes come before longer ones, and codes of one length in the order of their symbols, without overlap. */
  lemma {:induction false} Apart(lens: seq<nat>, n: nat, m: nat)
    requires HasCode(lens, n) && HasCode(lens, m) && Precedes(lens, n, m)
    ensures Start(lens, n) + Width(lens[n]) <= Start(lens, m)
  {
    hide Pow2, Kraft, Start, Width, CountsOf, Same;
    Interval(lens, n);
    Interval(lens, m);
    if lens[n] < lens[m] {
      KraftMono(CountsOf(lens), MAX_BITS, lens[n], lens[m] - 1);
    } else {
      var w := Width(lens[n]);
      SameMono(lens, n, m, lens[n]);
      MulLe(Same(lens, n, lens[n]) + 1, Same(lens, m, lens[n]), w);
      Distribute(Same(lens, n, lens[n]), 1, w);
    }
  }

  /** Every code fits in its length. */
  lemma {:induction false} CodeFits(lens: seq<nat>, n: nat)
    requires HasCode(lens, n) && CodeLens(lens)
    ensures CodeOf(lens, n) < Pow2(lens[n])
  {
    hide Kraft, CountsOf, CodeOf, Pow2;
    var l, c := lens[n], CodeOf(lens, n);
    Interval(lens, n);
    KraftMono(CountsOf(lens), MAX_BITS, l, MAX_BITS);
    Pow2Add(l, MAX_BITS - l);
    Distribute(c, 1, Width(l));
    CancelFactor(c + 1, Pow2(l), Width(l));
  }

  lemma {:induction false} ScaleWidth(k: nat, l: nat)
    requires k <= l <= MAX_BITS
    ensures Pow2(l - k) * Width(l) == Width(k)
  {
    Pow2Add(l - k, MAX_BITS - l);
  }

  /** A code whose first bits are code n lies in the interval of n. */
  lemma {:induction false} PrefixInside(lens: seq<nat>, n: nat, m: nat)
    requires HasCode(lens, n) && HasCode(lens, m) && lens[n] <= lens[m]
    requires CodeOf(lens, n) == Shr(CodeOf(lens, m), lens[m] - lens[n])
    ensures Start(lens, n) <= Start(lens, m) < Start(lens, n) + Width(lens[n])
  {
    hide CodeOf, Pow2, Width, Shr;
    var c, d, e := CodeOf(lens, n), CodeOf(lens, m), lens[m] - lens[n];
    var w := Width(lens[m]);
    ShrBounds(d, e);
    ScaleWidth(lens[n], lens[m]);
    MulLe(c * Pow2(e), d, w);
    MulLe(d + 1, (c + 1) * Pow2(e), w);
    MulAssoc(c, Pow2(e), w);
    MulAssoc(c + 1, Pow2(e), w);
    Distribute(d, 1, w);
    Distribute(c, 1, Width(lens[n]));
  }

  /** No code is a prefix of another. */
  lemma {:induction false} PrefixFree(lens: seq<nat>, n: nat, m: nat)
    requires CodeLens(lens) && HasCode(lens, n) && HasCode(lens, m) && n != m
    ensures !(CodeSeq(lens, n) <= CodeSeq(lens, m))
  {
    hide CodeOf, Pow2, Start, Width, CodeBits, Shr, CodeLens;
    if CodeSeq(lens, n) <= CodeSeq(lens, m) {
      PrefixMeans(lens, n, m);
      PrefixInside(lens, n, m);
      if Precedes(lens, n, m) { Apart(lens, n, m); } else { Apart(lens, m, n); }
    }
  }

  lemma {:induction false} PrefixMeans(lens: seq<nat>, n: nat, m: nat)
    requires CodeLens(lens) && HasCode(lens, n) && HasCode(lens, m) && CodeSeq(lens, n) <= CodeSeq(lens, m)
    ensures lens[n] <= lens[m] && CodeOf(lens, n) == Shr(CodeOf(lens, m), lens[m] - lens[n])
  {
    hide CodeOf, Pow2, CodeBits, Shr, CodeLens;
    var c, d, k := CodeOf(lens, n), CodeOf(lens, m), lens[n];
    assert lens[n] <= lens[m];
    CodeBitsPrefix(d, lens[m], k);
    assert CodeSeq(lens, m)[..k] == CodeSeq(lens, n);
    CodeFits(lens, n);
    CodeFits(lens, m);
    ShrFits(d, lens[m], lens[m] - k);
    CodeBitsInjective(c, Shr(d, lens[m] - k), k);
  }

  // ---------- reading a symbol ----------

  datatype Option<T> = None | Some(value: T)

  /** The first symbol from n on whose code comes next. */
  function FindSymbol(lens: seq<nat>, next: seq<Bit>, n: nat): (r: Option<nat>)
    ensures r.Some? ==> HasCode(lens, r.value) && CodeSeq(lens, r.value) <= next
    decreases |lens| - n
  {
    if n >= |lens| then None
    else if HasCode(lens, n) && CodeSeq(lens, n) <= next then Some(n)
    else FindSymbol(lens, next, n + 1)
  }

  lemma {:induction false} SymbolFrom(lens: seq<nat>, next: seq<Bit>, n: nat, k: nat)
    requires CodeLens(lens) && HasCode(lens, n) && CodeSeq(lens, n) <= next && k <= n
    ensures FindSymbol(lens, next, k) == Some(n)
    decreases n - k
  {
    hide CodeSeq, CodeLens;
    if k < n {
      if HasCode(lens, k) && CodeSeq(lens, k) <= next {
        if |CodeSeq(lens, k)| <= |CodeSeq(lens, n)| { PrefixFree(lens, k, n); } else { PrefixFree(lens, n, k); }
        assert false;
      }
      SymbolFrom(lens, next, n, k + 1);
    }
  }

  /** A symbol that was sent is the one that is read. */
  lemma SymbolRead(lens: seq<nat>, next: seq<Bit>, n: nat)
    requires CodeLens(lens) && HasCode(lens, n) && CodeSeq(lens, n) <= next
    ensures FindSymbol(lens, next, 0) == Some(n)
  {
    SymbolFrom(lens, next, n, 0);
  }

  // ---------- gen_codes ----------

  /** The reversed codes of an alphabet. */
  ghost predicate Codes(codes: seq<nat>, lens: seq<nat>) {
    && CodeLens(lens) && |codes| <= |lens|
    && forall n :: 0 <= n < |codes| && lens[n] != 0 ==> HasCode(lens, n) && codes[n] == Reverse(CodeOf(lens, n), lens[n])
  }

  lemma {:induction false} FirstFits(bl: seq<nat>, b: nat)
    requires |bl| == MAX_BITS + 1 && bl[0] == 0 && 1 <= b <= MAX_BITS && Kraft(bl, MAX_BITS, MAX_BITS) <= Pow2(MAX_BITS)
    ensures First(bl, b) + bl[b] <= Pow2(b) <= 0x8000
  {
    hide Kraft, First, Pow2;
    FirstUnits(bl, MAX_BITS, b);
    KraftMono(bl, MAX_BITS, b, MAX_BITS);
    KraftUnfold(bl, b);
    Distribute(First(bl, b), bl[b], Pow2(MAX_BITS - b));
    Pow2Add(b, MAX_BITS - b);
    CancelFactor(First(bl, b) + bl[b], Pow2(b), Pow2(MAX_BITS - b));
    Pow2Mono(b, MAX_BITS);
    Pow2Fifteen();
  }

  lemma KraftUnfold(bl: seq<nat>, b: nat)
    requires 1 <= b <= MAX_BITS < |bl|
    ensures Kraft(bl, MAX_BITS, b) == bl[b] * Pow2(MAX_BITS - b) + Kraft(bl, MAX_BITS, b - 1)
  {
  }

  lemma Pow2Fifteen()
    ensures Pow2(15) == 0x8000
  {
    assert Pow2(5) == 32;
    Pow2Add(5, 5);
    Pow2Add(5, 10);
  }

  /** The first loop of gen_codes; the 16-bit variable never overflows. */
  method NextCodes(bl: seq<nat>) returns (next: seq<nat>)
    requires |bl| == MAX_BITS + 1 && bl[0] == 0 && Kraft(bl, MAX_BITS, MAX_BITS) <= Pow2(MAX_BITS)
    ensures |next| == MAX_BITS + 1 && forall b :: 1 <= b <= MAX_BITS ==> next[b] == First(bl, b)
  {
    hide Kraft, Pow2;
    next := seq(MAX_BITS + 1, _ => 0);
    var code := 0;
    for bits := 1 to MAX_BITS + 1
      invariant |next| == MAX_BITS + 1 && forall b :: 1 <= b < bits ==> next[b] == First(bl, b)
      invariant code == if bits == 1 then 0 else First(bl, bits - 1)
    {
      FirstFits(bl, bits);
      code := (code + bl[bits - 1]) * 2 % 0x10000;
      next := next[bits := code];
    }
  }

  /** gen_codes: every code of the tree, reversed. */
  method GenCodes(lens: seq<nat>, bl: seq<nat>) returns (codes: seq<nat>)
    requires CodeLens(lens) && bl == CountsOf(lens)
    ensures |codes| == |lens| && Codes(codes, lens)
  {
    hide Kraft, Pow2, Reverse, CountsOf, First;
    var next := NextCodes(bl);
    codes := seq(|lens|, _ => 0);
    for n := 0 to |lens|
      invariant |codes| == |lens| && |next| == MAX_BITS + 1
      invariant forall b :: 1 <= b <= MAX_BITS ==> next[b] == First(bl, b) + Same(lens, n, b)
      invariant forall i :: 0 <= i < n && lens[i] != 0 ==> codes[i] == Reverse(CodeOf(lens, i), lens[i])
    {
      var len := lens[n];
      if len != 0 {
        FirstFits(bl, len);
        SameMono(lens, n, |lens|, len);
        var code := BiReverse(next[len], len);
        codes := codes[n := code];
        next := next[len := (next[len] + 1) % 0x10000];
      }
    }
  }
}
