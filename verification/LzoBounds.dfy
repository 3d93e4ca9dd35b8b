/** How much longer than its data a token stream can be, and why a block can be decoded
    inside the buffer it was read into. */
module LzoBounds {
  import opened Bytes
  import opened LzoFormat
  import opened LzoDecode
  import opened LzoDecoder

  /** The number of bytes a token stands for. */
  function Gain(tok: Token): nat {
    (if tok.Match? then tok.len else 0) + |tok.lits|
  }

  function TotalGain(toks: seq<Token>): nat {
    if toks == [] then 0 else Gain(toks[0]) + TotalGain(toks[1..])
  }

  lemma {:induction false} PlayLength(out: seq<Byte>, toks: seq<Token>)
    requires Playable(out, toks)
    ensures |Play(out, toks)| == |out| + TotalGain(toks)
    decreases |toks|
  {
    if toks != [] { PlayLength(Apply(out, toks[0]), toks[1..]); }
  }

  /** Every match is at least one byte shorter than what it copies. */
  predicate Thrifty(toks: seq<Token>)
    requires AllWellFormed(toks)
  {
    forall i :: 0 <= i < |toks| && toks[i].Match? ==> |Head(toks[i])| < toks[i].len
  }

  function MaxCompressedSize(n: nat): nat {
    n + n / 16 + 64 + 3
  }

  lemma RunOverhead(n: nat)
    requires n >= 4
    ensures |RunHead(n)| <= 1 + n / 16
  {
  }

  /** Amortised: a run of n literals may cost one byte plus n/16, but runs are separated by matches,
      and every match has saved a byte before. */
  lemma {:induction false} Expansion(ctx: Context, toks: seq<Token>)
    requires Legal(ctx, toks) && AllWellFormed(toks) && Thrifty(toks)
    ensures |EncAll(toks)| <= TotalGain(toks) + TotalGain(toks) / 16
                              + (if ctx == Start || ctx == AfterMatch then 1 else 0)
    decreases |toks|
  {
    hide RunHead, MatchHead, InRange;
    if toks != [] {
      var tok, rest := toks[0], toks[1..];
      assert forall i :: 0 <= i < |rest| ==> rest[i] == toks[i + 1];
      Expansion(Next(tok), rest);
      if tok.Run? { RunOverhead(|tok.lits|); }
    }
  }

  /** The buffer bound of the block writer holds with room to spare. */
  lemma ExpansionBound(toks: seq<Token>, data: seq<Byte>)
    requires Encodes(toks, data) && AllWellFormed(toks) && Thrifty(toks)
    ensures |EncAll(toks) + EOF_MARK| <= |data| + |data| / 16 + 4
    ensures |EncAll(toks) + EOF_MARK| <= MaxCompressedSize(|data|)
  {
    Expansion(Start, toks);
    PlayLength([], toks);
  }

  // ---------- streams with matches that save nothing ----------

  predicate Saves(tok: Token) {
    tok.Match? && WellFormed(tok) ==> |Head(tok)| < tok.len
  }

  /** After four literals or more, the next match saves a byte; nothing is asked of the other matches.  This is what
      LZO1X-999 keeps to. */
  predicate Frugal(ctx: Context, toks: seq<Token>)
    decreases |toks|
  {
    toks == [] || ((ctx == AfterRun ==> Saves(toks[0])) && Frugal(Next(toks[0]), toks[1..]))
  }

  lemma {:induction false} FrugalAppend(ctx: Context, a: seq<Token>, b: seq<Token>)
    ensures Frugal(ctx, a + b) <==> Frugal(ctx, a) && Frugal(End(ctx, a), b)
    decreases |a|
  {
    hide Saves, Next;
    if a == [] {
      assert a + b == b;
    } else {
      assert (a + b)[1..] == a[1..] + b;
      FrugalAppend(Next(a[0]), a[1..], b);
    }
  }

  lemma {:induction false} FrugalSnoc(toks: seq<Token>, tok: Token)
    ensures Frugal(Start, toks + [tok]) <==> Frugal(Start, toks) && (End(Start, toks) == AfterRun ==> Saves(tok))
  {
    hide Saves, Next;
    FrugalAppend(Start, toks, [tok]);
    assert [tok][1..] == [];
  }

  lemma {:induction false} ThriftyIsFrugal(ctx: Context, toks: seq<Token>)
    requires AllWellFormed(toks) && Thrifty(toks)
    ensures Frugal(ctx, toks)
    decreases |toks|
  {
    hide Head, WellFormed, Next;
    if toks != [] {
      assert forall i :: 0 <= i < |toks[1..]| ==> toks[1..][i] == toks[i + 1];
      ThriftyIsFrugal(Next(toks[0]), toks[1..]);
    }
  }

  lemma NoMatchCostsMore(tok: Token)
    requires tok.Match? && WellFormed(tok)
    ensures |Head(tok)| <= tok.len
  {
  }

  /** Amortised over runs: what a run costs, the match after it saves. */
  lemma {:induction false} FrugalExpansion(ctx: Context, toks: seq<Token>)
    requires Legal(ctx, toks) && AllWellFormed(toks) && Frugal(ctx, toks)
    ensures |EncAll(toks)| <= TotalGain(toks) + TotalGain(toks) / 16 + (if ctx == Start then 2 else if ctx == AfterRun then 0 else 1)
    decreases |toks|
  {
    hide RunHead, MatchHead, InRange;
    if toks != [] {
      var tok, rest := toks[0], toks[1..];
      assert forall i :: 0 <= i < |rest| ==> rest[i] == toks[i + 1];
      FrugalExpansion(Next(tok), rest);
      if tok.Run? { RunOverhead(|tok.lits|); }
      if tok.Match? { NoMatchCostsMore(tok); }
    }
  }

  lemma FrugalBound(toks: seq<Token>, data: seq<Byte>)
    requires Encodes(toks, data) && AllWellFormed(toks) && Frugal(Start, toks)
    ensures |EncAll(toks) + EOF_MARK| <= |data| + |data| / 16 + 5
    ensures |EncAll(toks) + EOF_MARK| <= MaxCompressedSize(|data|)
  {
    FrugalExpansion(Start, toks);
    PlayLength([], toks);
  }

  // ---------- the decoder in its own input ----------

  /** What is left of a block of `size` bytes is hardly longer than the data it stands for. */
  predicate Lean(size: nat, cap: nat, ip: nat, outLen: nat) {
    outLen <= cap && size <= ip + (cap - outLen) + (cap - outLen) / 16 + 65
  }

  lemma LeanBefore(size: nat, cap: nat, ip: nat, outLen: nat, k: nat)
    requires Lean(size, cap, ip, outLen) && k <= ip && k <= outLen
    ensures Lean(size, cap, ip - k, outLen - k)
  {
  }

  /** That holds at every opcode the decoder comes to. */
  predicate LeanFrom(inp: seq<Byte>, ip: nat, ctx: Context, out: seq<Byte>, cap: nat)
    decreases |inp| - ip
  {
    && Lean(|inp|, cap, ip, |out|)
    && match Step(inp, ip, ctx, out, cap)
       case Done(_) => true
       case More(ip', ctx', out') => LeanFrom(inp, ip', ctx', out', cap)
  }

  predicate LeanBlock(inp: seq<Byte>, cap: nat) {
    Decompress(inp, cap).code == OK && LeanFrom(inp, 0, Start, [], cap)
  }

  /** The bound keeps the read position ahead of the write position from any opcode on. */
  lemma {:induction false} TailStaysAhead(inp: seq<Byte>, ip: nat, ctx: Context, out: seq<Byte>, cap: nat, base: nat)
    requires LeanFrom(inp, ip, ctx, out, cap) && Decode(inp, ip, ctx, out, cap).code == OK
    requires base + |inp| >= MaxCompressedSize(cap)
    ensures StaysAhead(inp, ip, ctx, out, cap, base)
    decreases |inp| - ip
  {
    hide ParseOp, StepClear, Step;
    LeanClear(inp, ip, ctx, out, cap, base);
    var s := Step(inp, ip, ctx, out, cap);
    if s.More? { TailStaysAhead(inp, s.ip, s.ctx, s.out, cap, base); }
  }

  lemma {:induction false} LeanClear(inp: seq<Byte>, ip: nat, ctx: Context, out: seq<Byte>, cap: nat, base: nat)
    requires LeanFrom(inp, ip, ctx, out, cap) && Decode(inp, ip, ctx, out, cap).code == OK
    requires base + |inp| >= MaxCompressedSize(cap)
    ensures StepClear(inp, ip, ctx, out, cap, base)
  {
    hide ParseOp, Copy, Decode;
    DecodeStep(inp, ip, ctx, out, cap);
  }

  lemma DecodeStep(inp: seq<Byte>, ip: nat, ctx: Context, out: seq<Byte>, cap: nat)
    requires Decode(inp, ip, ctx, out, cap).code == OK
    ensures var s := Step(inp, ip, ctx, out, cap); s.Done? ==> s.r.code == OK
  {
    hide Step;
  }

  // ---------- which blocks are lean ----------

  /** The bound at every boundary between tokens. */
  ghost predicate LeanTokens(toks: seq<Token>, size: nat, cap: nat)
    requires AllWellFormed(toks)
  {
    forall k: nat :: k <= |toks| ==> Lean(size, cap, |EncAll(toks[..k])|, TotalGain(toks[..k]))
  }

  lemma {:induction false} GainAppend(a: seq<Token>, b: seq<Token>)
    ensures TotalGain(a + b) == TotalGain(a) + TotalGain(b)
  {
    if a == [] {
      assert a + b == b;
    } else {
      assert (a + b)[1..] == a[1..] + b;
      GainAppend(a[1..], b);
    }
  }

  lemma {:induction false} FrugalIsLean(toks: seq<Token>)
    requires Legal(Start, toks) && AllWellFormed(toks) && Frugal(Start, toks)
    ensures LeanTokens(toks, |EncAll(toks) + EOF_MARK|, TotalGain(toks))
  {
    forall k: nat | k <= |toks| ensures Lean(|EncAll(toks) + EOF_MARK|, TotalGain(toks), |EncAll(toks[..k])|, TotalGain(toks[..k])) {
      var a, b := toks[..k], toks[k..];
      assert toks == a + b;
      EncAppend(a, b);
      GainAppend(a, b);
      LegalAppend(Start, a, b);
      FrugalAppend(Start, a, b);
      FrugalExpansion(End(Start, a), b);
    }
  }

  /** From the tokens to the decoder: after them comes the end of the block. */
  lemma {:induction false} LeanPlayed(inp: seq<Byte>, toks: seq<Token>, k: nat, out: seq<Byte>, cap: nat)
    requires AllWellFormed(toks) && LeanTokens(toks, |inp|, cap) && k <= |toks|
    requires Legal(End(Start, toks[..k]), toks[k..]) && Playable(out, toks[k..]) && |out| == TotalGain(toks[..k])
    requires TotalGain(toks) <= cap && |EncAll(toks)| < |inp| && inp[..|EncAll(toks)|] == EncAll(toks)
    requires ParseOp(inp, |EncAll(toks)|, End(Start, toks)).Stop?
    ensures LeanFrom(inp, |EncAll(toks[..k])|, End(Start, toks[..k]), out, cap)
    decreases |toks| - k
  {
    hide ParseOp, Enc, EncAll, Apply, Valid, Next, Gain, TotalGain, LeanTokens, Lean, End;
    LeanAt(toks, |inp|, cap, k);
    var ip, ctx := |EncAll(toks[..k])|, End(Start, toks[..k]);
    if k == |toks| {
      assert toks[..k] == toks;
    } else {
      var tok := toks[k];
      assert toks[k..][0] == tok && toks[k..][1..] == toks[k + 1..];
      NextToken(inp, toks, k);
      assert Legal(ctx, toks[k..]) && Valid(ctx, tok);
      GainOfApply(out, tok);
      assert |out| + Gain(tok) <= cap by { GainUpTo(toks, k + 1); }
      StepToken(inp, ip, ctx, tok, out, cap);
      LeanPlayed(inp, toks, k + 1, Apply(out, tok), cap);
    }
  }

  lemma LeanAt(toks: seq<Token>, size: nat, cap: nat, k: nat)
    requires AllWellFormed(toks) && LeanTokens(toks, size, cap) && k <= |toks|
    ensures Lean(size, cap, |EncAll(toks[..k])|, TotalGain(toks[..k]))
  {
  }

  lemma {:induction false} GainUpTo(toks: seq<Token>, k: nat)
    requires k <= |toks|
    ensures TotalGain(toks[..k]) <= TotalGain(toks)
  {
    GainAppend(toks[..k], toks[k..]);
    assert toks == toks[..k] + toks[k..];
  }

  lemma {:induction false} NextToken(inp: seq<Byte>, toks: seq<Token>, k: nat)
    requires AllWellFormed(toks) && k < |toks| && |EncAll(toks)| < |inp| && inp[..|EncAll(toks)|] == EncAll(toks)
    ensures var ip, e := |EncAll(toks[..k])|, Enc(toks[k]);
            && |EncAll(toks[..k + 1])| == ip + |e| && TotalGain(toks[..k + 1]) == TotalGain(toks[..k]) + Gain(toks[k])
            && ip + |e| < |inp| && inp[ip..ip + |e|] == e && End(Start, toks[..k + 1]) == Next(toks[k])
  {
    hide Enc, Gain, Next;
    var a, e, c := toks[..k], Enc(toks[k]), toks[k + 1..];
    assert toks[..k + 1] == a + [toks[k]] && toks == (a + [toks[k]]) + c && [toks[k]][1..] == [];
    EncAppend(a, [toks[k]]);
    EncAppend(a + [toks[k]], c);
    GainAppend(a, [toks[k]]);
    assert EncAll([toks[k]]) == e + [];
    Slice(inp, EncAll(toks), EncAll(a), e, EncAll(c));
  }

  lemma Slice(inp: seq<Byte>, s: seq<Byte>, a: seq<Byte>, e: seq<Byte>, c: seq<Byte>)
    requires s == (a + e) + c && |s| < |inp| && inp[..|s|] == s
    ensures |a| + |e| < |inp| && inp[|a|..|a| + |e|] == e
  {
    assert inp[|a|..|a| + |e|] == s[|a|..|a| + |e|] == e;
  }

  lemma GainOfApply(out: seq<Byte>, tok: Token)
    requires Fits(out, tok)
    ensures |Apply(out, tok)| == |out| + Gain(tok)
  {
  }

  /** The blocks that the compressors write are lean. */
  lemma {:induction false} WrittenIsLean(toks: seq<Token>, data: seq<Byte>)
    requires Encodes(toks, data) && AllWellFormed(toks) && Frugal(Start, toks)
    ensures LeanBlock(EncAll(toks) + EOF_MARK, |data|)
  {
    hide Legal, Frugal, LeanFrom, Decode, ParseOp;
    var inp := EncAll(toks) + EOF_MARK;
    DecompressStream(toks, data, |data|);
    PlayLength([], toks);
    FrugalIsLean(toks);
    assert toks[..0] == [] && toks[0..] == toks;
    assert inp[|EncAll(toks)|..] == EOF_MARK;
    ParseEof(inp, |EncAll(toks)|, End(Start, toks));
    LeanPlayed(inp, toks, 0, [], |data|);
  }

  /** A lean block can be decoded from the tail of a buffer of the size the block reader allocates, for any block
      size that is at least the data's. */
  lemma InPlaceSafe(block: seq<Byte>, dstLen: nat, base: nat, blockSize: nat)
    requires LeanBlock(block, dstLen) && dstLen <= blockSize && base + |block| == MaxCompressedSize(blockSize)
    ensures StaysAhead(block, 0, Start, [], dstLen, base)
  {
    hide LeanFrom, Decode, StaysAhead;
    TailStaysAhead(block, 0, Start, [], dstLen, base);
  }

  /** The block reader's call: the compressed block sits in the last bytes of the buffer and the data is
      written from its start.  `InPlaceSafe` says that a lean block meets the condition. */
  method DecompressBlock(b2: array<Byte>, blockSize: nat, srcLen: nat, dstLen: nat) returns (code: Code, d: nat)
    requires b2.Length == MaxCompressedSize(blockSize) && srcLen <= b2.Length && dstLen <= blockSize
    requires StaysAhead(b2[b2.Length - srcLen..], 0, Start, [], dstLen, b2.Length - srcLen)
    modifies b2
    ensures d <= dstLen && Decompress(old(b2[b2.Length - srcLen..]), dstLen) == Outcome(code, b2[..d])
  {
    hide Decode, StaysAhead;
    var b1 := b2.Length - srcLen;
    assert b2[b1..b1 + srcLen] == b2[b1..];
    code, d := DecompressSafe(b2, b1, srcLen, b2, dstLen);
  }
}
