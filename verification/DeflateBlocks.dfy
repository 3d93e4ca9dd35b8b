/** Blocks: what each kind of block means to an inflater, how one follows another, and how large it is. */
module DeflateBlocks {
  import opened Arithmetic
  import opened Bytes
  import opened BitSeq
  import opened HuffmanLengths
  import opened HuffmanGen
  import opened HuffmanBuild
  import opened HuffmanCodes
  import opened TreeBuilder
  import opened BitWriter
  import opened DeflateFormat
  import opened DeflateTokens
  import opened DeflateRuns
  import opened DeflateTrees
  import opened DeflateHeader
  import opened DeflateTables
  import opened DeflateBuffers

  // ---------- one block after another ----------

  /** After these bits an inflater has produced `out` and expects another block.  The input consists of whole bytes. */
  ghost predicate Continues(bits: seq<Bit>, out: seq<Byte>) {
    forall rest :: (|bits| + |rest|) % 8 == 0 ==> Inflate(bits + rest, []) == Inflate(rest, out)
  }

  /** After these bits an inflater has produced `out` and is done. */
  ghost predicate Finished(bits: seq<Bit>, out: seq<Byte>) {
    forall rest :: (|bits| + |rest|) % 8 == 0 ==> Inflate(bits + rest, []) == Got(out, rest)
  }

  /** A block of this kind, after `at` bits, changes the output from `out` to `out'`. */
  ghost predicate BlockMeans(at: nat, kind: nat, body: seq<Bit>, out: seq<Byte>, out': seq<Byte>) {
    forall rest :: (at + 3 + |body| + |rest|) % 8 == 0 ==> ReadBlock(kind, body + rest, out) == Got(out', rest)
  }

  function BlockStart(kind: nat, eof: bool): (r: seq<Bit>)
    ensures |r| == 3
  {
    LowBits(2 * kind + (if eof then 1 else 0), 3)
  }

  lemma {:induction false} StartBack(kind: nat, eof: bool, more: seq<Bit>)
    requires kind < 3
    ensures var next := BlockStart(kind, eof) + more; next[0] == eof && Number(next[1..3]) == kind && next[3..] == more
  {
    var v := 2 * kind + (if eof then 1 else 0);
    var next := BlockStart(kind, eof) + more;
    assert LowBits(v, 3) == [BitOf(v)] + LowBits(v / 2, 2);
    assert next[1..3] == LowBits(kind, 2);
    Powers();
    NumberOfLowBits(kind, 2);
  }

  lemma {:induction false} OneBlock(kind: nat, eof: bool, next: seq<Bit>, out: seq<Byte>, out': seq<Byte>, rest: seq<Bit>)
    requires kind < 3 && ReadBlock(kind, next, out) == Got(out', rest)
    ensures Inflate(BlockStart(kind, eof) + next, out) == if eof then Got(out', rest) else Inflate(rest, out')
  {
    hide ReadBlock, Number, BlockStart;
    StartBack(kind, eof, next);
  }

  lemma {:induction false} NextOne(bits: seq<Bit>, kind: nat, eof: bool, body: seq<Bit>, out: seq<Byte>, out': seq<Byte>, rest: seq<Bit>)
    requires Continues(bits, out) && kind < 3 && BlockMeans(|bits|, kind, body, out, out') && (|bits| + 3 + |body| + |rest|) % 8 == 0
    ensures Inflate(bits + BlockStart(kind, eof) + body + rest, []) == if eof then Got(out', rest) else Inflate(rest, out')
  {
    hide ReadBlock, Inflate, BlockStart;
    var more := BlockStart(kind, eof) + (body + rest);
    Associate2(bits, BlockStart(kind, eof), body, rest);
    OneBlock(kind, eof, body + rest, out, out', rest);
    assert Inflate(bits + more, []) == Inflate(more, out);
  }

  lemma Associate2(a: seq<Bit>, b: seq<Bit>, c: seq<Bit>, d: seq<Bit>)
    ensures a + b + c + d == a + (b + (c + d))
  {
  }

  ghost function After(bits: seq<Bit>, kind: nat, eof: bool, body: seq<Bit>): (r: seq<Bit>)
    ensures |r| == |bits| + 3 + |body|
  {
    bits + BlockStart(kind, eof) + body
  }

  lemma {:induction false} NextBlock(bits: seq<Bit>, kind: nat, eof: bool, body: seq<Bit>, out: seq<Byte>, out': seq<Byte>)
    requires Continues(bits, out) && kind < 3 && BlockMeans(|bits|, kind, body, out, out')
    ensures var all := After(bits, kind, eof, body); if eof then Finished(all, out') else Continues(all, out')
  {
    hide ReadBlock, Inflate, BlockStart, BlockMeans;
    var all := After(bits, kind, eof, body);
    forall rest | (|all| + |rest|) % 8 == 0 ensures Inflate(all + rest, []) == if eof then Got(out', rest) else Inflate(rest, out') {
      NextOne(bits, kind, eof, body, out, out', rest);
    }
  }

  lemma StartContinues()
    ensures Continues([], [])
  {
    hide Inflate;
    forall rest: seq<Bit> ensures Inflate([] + rest, []) == Inflate(rest, []) { assert [] + rest == rest; }
  }

  // ---------- the three kinds ----------

  ghost function FixedBody(toks: seq<Token>): seq<Bit>
    requires AllCovered(FIXED_LIT, FIXED_DIST, toks) && HasCode(FIXED_LIT, END_BLOCK)
  {
    EncTokens(FIXED_LIT, FIXED_DIST, toks) + CodeSeq(FIXED_LIT, END_BLOCK)
  }

  ghost function DynamicBody(ll: seq<nat>, dl: seq<nat>, cl: seq<nat>, n: nat, toks: seq<Token>): seq<Bit>
    requires HeaderFit(ll, dl, cl, n) && AllCovered(ll, dl, toks) && HasCode(ll, END_BLOCK)
  {
    Header(ll, dl, cl, n) + EncTokens(ll, dl, toks) + CodeSeq(ll, END_BLOCK)
  }

  lemma KindFixed(next: seq<Bit>, out: seq<Byte>, toks: seq<Token>, rest: seq<Bit>)
    requires ReadTokens(FIXED_LIT, FIXED_DIST, next) == Got(toks, rest) && Playable(out, toks)
    ensures ReadBlock(1, next, out) == Got(Play(out, toks), rest)
  {
    hide FIXED_LIT, FIXED_DIST, ReadTokens, ReadTrees, Playable, Play, ReadStored;
  }

  lemma KindDynamic(next: seq<Bit>, data: seq<Bit>, out: seq<Byte>, ll: seq<nat>, dl: seq<nat>, toks: seq<Token>, rest: seq<Bit>)
    requires ReadTrees(next) == Got(Trees(ll, dl), data) && ReadTokens(ll, dl, data) == Got(toks, rest) && Playable(out, toks)
    ensures ReadBlock(2, next, out) == Got(Play(out, toks), rest)
  {
    hide FIXED_LIT, FIXED_DIST, ReadTokens, ReadTrees, Playable, Play, ReadStored;
  }

  lemma {:induction false} FixedBlock(at: nat, toks: seq<Token>, out: seq<Byte>)
    requires Playable(out, toks) && AllCovered(FIXED_LIT, FIXED_DIST, toks) && HasCode(FIXED_LIT, END_BLOCK)
    ensures BlockMeans(at, 1, FixedBody(toks), out, Play(out, toks))
  {
    hide CodeLens, CodeSeq, EncTokens, ReadTokens, Playable, Play, AllCovered, FIXED_LIT, FIXED_DIST, HasCode, CodeOf, ReadBlock;
    FixedLitLens();
    FixedDistLens();
    forall rest: seq<Bit> | (at + 3 + |FixedBody(toks)| + |rest|) % 8 == 0
      ensures ReadBlock(1, FixedBody(toks) + rest, out) == Got(Play(out, toks), rest)
    {
      TokensBack(FIXED_LIT, FIXED_DIST, toks, rest);
      KindFixed(FixedBody(toks) + rest, out, toks, rest);
    }
  }

  lemma {:induction false} DynamicOne(ll: seq<nat>, dl: seq<nat>, cl: seq<nat>, n: nat, toks: seq<Token>, out: seq<Byte>, rest: seq<Bit>)
    requires HeaderFit(ll, dl, cl, n) && CodeLens(ll) && CodeLens(dl)
    requires Playable(out, toks) && AllCovered(ll, dl, toks) && HasCode(ll, END_BLOCK)
    ensures ReadBlock(2, DynamicBody(ll, dl, cl, n, toks) + rest, out) == Got(Play(out, toks), rest)
  {
    hide CodeLens, CodeSeq, EncTokens, ReadTokens, Playable, Play, AllCovered, HeaderFit, Header, ReadTrees, HasCode, ReadBlock;
    var head, a, b := Header(ll, dl, cl, n), EncTokens(ll, dl, toks), CodeSeq(ll, END_BLOCK);
    Associate3(head, a, b, rest);
    HeaderBack(ll, dl, cl, n, a + b + rest);
    TokensBack(ll, dl, toks, rest);
    KindDynamic(DynamicBody(ll, dl, cl, n, toks) + rest, a + b + rest, out, ll, dl, toks, rest);
  }

  lemma Associate3(a: seq<Bit>, b: seq<Bit>, c: seq<Bit>, d: seq<Bit>)
    ensures a + b + c + d == a + (b + c + d)
  {
  }

  lemma {:induction false} DynamicBlock(at: nat, ll: seq<nat>, dl: seq<nat>, cl: seq<nat>, n: nat, toks: seq<Token>, out: seq<Byte>)
    requires HeaderFit(ll, dl, cl, n) && CodeLens(ll) && CodeLens(dl)
    requires Playable(out, toks) && AllCovered(ll, dl, toks) && HasCode(ll, END_BLOCK)
    ensures BlockMeans(at, 2, DynamicBody(ll, dl, cl, n, toks), out, Play(out, toks))
  {
    hide CodeLens, DynamicBody, Playable, Play, AllCovered, HeaderFit, HasCode, ReadBlock;
    forall rest: seq<Bit> | (at + 3 + |DynamicBody(ll, dl, cl, n, toks)| + |rest|) % 8 == 0
      ensures ReadBlock(2, DynamicBody(ll, dl, cl, n, toks) + rest, out) == Got(Play(out, toks), rest)
    {
      DynamicOne(ll, dl, cl, n, toks, out, rest);
    }
  }

  lemma {:induction false} BytesBack(data: seq<Byte>, rest: seq<Bit>)
    ensures ReadBytes(BytesToBits(data) + rest, |data|) == Got(data, rest)
    decreases |data|
  {
    hide LowBits, Number, Pow2;
    if data == [] {
      assert BytesToBits(data) + rest == rest;
    } else {
      var b, s := data[0], data[1..];
      assert data == [b] + s;
      BytesToBitsAppend([b], s);
      OneByte(b);
      BytesBack(s, rest);
      var next := BytesToBits(data) + rest;
      assert next[..8] == LowBits(b as nat, 8);
      assert next[8..] == BytesToBits(s) + rest;
      Powers();
      NumberOfLowBits(b as nat, 8);
    }
  }

  lemma {:induction false} StoredBack(pad: seq<Bit>, data: seq<Byte>, rest: seq<Bit>)
    requires |data| < 0x10000
    requires (|pad| + 32 + 8 * |data| + |rest|) % 8 == |pad|
    ensures ReadStored(pad + (LowBits(|data|, 16) + (LowBits(0xffff - |data|, 16) + (BytesToBits(data) + rest)))) == Got(data, rest)
  {
    hide LowBits, Pow2, BytesToBits, ReadBytes, ReadBits;
    var tail := LowBits(0xffff - |data|, 16) + (BytesToBits(data) + rest);
    var next := pad + (LowBits(|data|, 16) + tail);
    assert next[|pad|..] == LowBits(|data|, 16) + tail;
    Pow2Sixteen();
    BitsBack(|data|, 16, tail);
    BitsBack(0xffff - |data|, 16, BytesToBits(data) + rest);
    BytesBack(data, rest);
  }

  lemma HeaderIs(len: nat)
    requires len < 0x10000
    ensures StoredHeader(len, true) == LowBits(len, 16) + LowBits(0xffff - len, 16)
  {
    hide LowBits;
  }

  lemma KindStored(next: seq<Bit>, out: seq<Byte>, data: seq<Byte>, rest: seq<Bit>)
    requires ReadStored(next) == Got(data, rest)
    ensures ReadBlock(0, next, out) == Got(out + data, rest)
  {
    hide ReadStored, FIXED_LIT, FIXED_DIST, ReadTokens, ReadTrees, PlayParsed;
  }

  ghost function StoredBody(at: nat, data: seq<Byte>): seq<Bit> {
    Padding(at + 3) + StoredHeader(|data|, true) + BytesToBits(data)
  }

  lemma {:induction false} StoredOne(at: nat, data: seq<Byte>, out: seq<Byte>, rest: seq<Bit>)
    requires |data| < 0x10000 && (at + 3 + |StoredBody(at, data)| + |rest|) % 8 == 0
    ensures ReadBlock(0, StoredBody(at, data) + rest, out) == Got(out + data, rest)
  {
    hide LowBits, BytesToBits, ReadStored, Padding, ReadBlock, StoredHeader;
    var pad, len, nlen := Padding(at + 3), LowBits(|data|, 16), LowBits(0xffff - |data|, 16);
    HeaderIs(|data|);
    Associate4(pad, len, nlen, BytesToBits(data), rest);
    var next := StoredBody(at, data) + rest;
    SkipPadding(at + 3, next);
    assert |next| == |pad| + 32 + 8 * |data| + |rest|;
    StoredBack(pad, data, rest);
    KindStored(next, out, data, rest);
  }

  lemma {:induction false} StoredBlock(at: nat, data: seq<Byte>, out: seq<Byte>)
    requires |data| < 0x10000
    ensures BlockMeans(at, 0, StoredBody(at, data), out, out + data)
  {
    hide StoredBody, ReadBlock;
    forall rest: seq<Bit> | (at + 3 + |StoredBody(at, data)| + |rest|) % 8 == 0
      ensures ReadBlock(0, StoredBody(at, data) + rest, out) == Got(out + data, rest)
    {
      StoredOne(at, data, out, rest);
    }
  }

  lemma Associate4(a: seq<Bit>, b: seq<Bit>, c: seq<Bit>, d: seq<Bit>, e: seq<Bit>)
    ensures a + (b + c) + d + e == a + (b + (c + (d + e)))
  {
  }

  lemma SkipPadding(at: nat, next: seq<Bit>)
    requires (at + |next|) % 8 == 0
    ensures |next| % 8 == |Padding(at)|
  {
    hide LowBits;
  }

  // ---------- frequencies and sizes ----------

  function LitSym(t: Token): (s: nat)
    ensures s < L_CODES
  {
    if t.Lit? then t.b else 257 + LengthCode(t.len)
  }

  function NoCounts(n: nat): (r: seq<nat>)
    ensures |r| == n && forall i :: 0 <= i < n ==> r[i] == 0
  {
    seq(n, _ => 0)
  }

  /** The frequencies of literals and lengths; the end of the block occurs once. */
  ghost function TallyL(toks: seq<Token>): (r: seq<nat>)
    ensures |r| == L_CODES
  {
    if toks == [] then Bump(NoCounts(L_CODES), END_BLOCK) else Bump(TallyL(toks[..|toks| - 1]), LitSym(toks[|toks| - 1]))
  }

  ghost function TallyD(toks: seq<Token>): (r: seq<nat>)
    ensures |r| == D_CODES
  {
    if toks == [] then NoCounts(D_CODES)
    else
      var n := |toks| - 1;
      if toks[n].Ref? then Bump(TallyD(toks[..n]), DistCode(toks[n].dist)) else TallyD(toks[..n])
  }

  lemma {:induction false} TallySnoc(toks: seq<Token>, t: Token)
    ensures TallyL(toks + [t]) == Bump(TallyL(toks), LitSym(t))
    ensures TallyD(toks + [t]) == if t.Ref? then Bump(TallyD(toks), DistCode(t.dist)) else TallyD(toks)
  {
    hide LengthCode, DistCode;
    assert (toks + [t])[..|toks|] == toks;
  }

  lemma {:induction false} TallyPositive(toks: seq<Token>, i: nat)
    requires i < |toks|
    ensures TallyL(toks)[LitSym(toks[i])] > 0 && (toks[i].Ref? ==> TallyD(toks)[DistCode(toks[i].dist)] > 0)
    decreases |toks|
  {
    hide LengthCode, DistCode;
    if i < |toks| - 1 { TallyPositive(toks[..|toks| - 1], i); }
  }

  lemma {:induction false} TallyEnd(toks: seq<Token>)
    ensures TallyL(toks)[END_BLOCK] > 0
    decreases |toks|
  {
    hide LengthCode, DistCode;
    if toks != [] { TallyEnd(toks[..|toks| - 1]); }
  }

  ghost predicate SymbolsBelow(toks: seq<Token>, m: nat, k: nat) {
    forall i :: 0 <= i < |toks| ==> LitSym(toks[i]) < m && (toks[i].Ref? ==> DistCode(toks[i].dist) < k)
  }

  lemma {:induction false} ZeroBits(ls: seq<nat>, d: Desc, n: nat, m: nat)
    requires ValidDesc(d) && m <= d.elems && m <= |ls| && m <= n
    ensures BitTotal(ls, NoCounts(n), d, m) == 0
    decreases m
  {
    hide ValidDesc, Xbits;
    if m > 0 { ZeroBits(ls, d, n, m - 1); }
  }

  lemma LitXbits(s: nat)
    requires ValidDesc(L_DESC) && ValidDesc(D_DESC)
    ensures s < 257 ==> Xbits(L_DESC, s) == 0
    ensures s < 29 ==> Xbits(L_DESC, 257 + s) == LENGTH_EXTRA[s]
    ensures s < 30 ==> Xbits(D_DESC, s) == DIST_EXTRA[s]
  {
    hide LENGTH_EXTRA, DIST_EXTRA;
  }

  lemma {:induction false} TokenSize(ll: seq<nat>, dl: seq<nat>, t: Token)
    requires ValidDesc(L_DESC) && ValidDesc(D_DESC) && Covered(ll, dl, t)
    ensures |EncToken(ll, dl, t)| == ll[LitSym(t)] + Xbits(L_DESC, LitSym(t)) + (if t.Ref? then dl[DistCode(t.dist)] + Xbits(D_DESC, DistCode(t.dist)) else 0)
  {
    hide LengthCode, DistCode, ValidDesc, Xbits, LENGTH_EXTRA, LENGTH_BASE, DIST_EXTRA, DIST_BASE, LowBits, CodeSeq;
    if t.Lit? {
      LitXbits(t.b);
    } else {
      OffsetsFit(t);
      LitXbits(LengthCode(t.len));
      LitXbits(DistCode(t.dist));
    }
  }

  /** The bits of a block's tokens and its end are the bits of the symbols, counted by frequency. */
  lemma {:induction false} BlockBits(ll: seq<nat>, dl: seq<nat>, m: nat, k: nat, toks: seq<Token>)
    requires ValidDesc(L_DESC) && ValidDesc(D_DESC) && AllCovered(ll, dl, toks) && SymbolsBelow(toks, m, k)
    requires END_BLOCK < m <= L_CODES && m <= |ll| && k <= D_CODES && k <= |dl|
    ensures |EncTokens(ll, dl, toks)| + ll[END_BLOCK] == BitTotal(ll, TallyL(toks), L_DESC, m) + BitTotal(dl, TallyD(toks), D_DESC, k)
    decreases |toks|
  {
    hide LengthCode, DistCode, ValidDesc, Xbits, BitTotal, Covered, EncToken, LENGTH_EXTRA, DIST_EXTRA, L_DESC, D_DESC;
    DescSizes();
    if toks == [] {
      ZeroBits(ll, L_DESC, L_CODES, m);
      ZeroBits(dl, D_DESC, D_CODES, k);
      BumpTotal(ll, NoCounts(L_CODES), L_DESC, m, END_BLOCK);
      LitXbits(END_BLOCK);
    } else {
      var n := |toks| - 1;
      var t := toks[n];
      BlockBits(ll, dl, m, k, toks[..n]);
      TokenSize(ll, dl, t);
      BumpTotal(ll, TallyL(toks[..n]), L_DESC, m, LitSym(t));
      if t.Ref? { BumpTotal(dl, TallyD(toks[..n]), D_DESC, k, DistCode(t.dist)); }
    }
  }

  lemma DescSizes()
    ensures L_DESC.elems == L_CODES && D_DESC.elems == D_CODES
  {
  }

  /** With the static trees a token takes at most 32 bits. */
  lemma {:induction false} FixedSize(toks: seq<Token>)
    requires AllCovered(FIXED_LIT, FIXED_DIST, toks)
    ensures |EncTokens(FIXED_LIT, FIXED_DIST, toks)| <= 32 * |toks|
    decreases |toks|
  {
    hide LengthCode, DistCode, FIXED_LIT, FIXED_DIST, EncToken, Covered;
    if toks != [] {
      var n := |toks| - 1;
      FixedSize(toks[..n]);
      FixedTokenSize(toks[n]);
    }
  }

  lemma FixedTokenSize(t: Token)
    requires Covered(FIXED_LIT, FIXED_DIST, t)
    ensures |EncToken(FIXED_LIT, FIXED_DIST, t)| <= 32
  {
    hide LengthCode, DistCode, LENGTH_EXTRA, LENGTH_BASE, DIST_EXTRA, DIST_BASE, LowBits, CodeSeq, FIXED_LIT, FIXED_DIST, CodeLens, CodeOf;
    FixedLitLens();
    FixedDistLens();
    if t.Ref? {
      OffsetsFit(t);
      ExtrasFit(LengthCode(t.len), DistCode(t.dist));
    }
  }

  /** The static trees have a code for everything. */
  lemma {:induction false} FixedCovers(toks: seq<Token>, lcodes: seq<nat>, dcodes: seq<nat>)
    requires AllSound(toks) && |lcodes| == 288 && |dcodes| == 30
    ensures AllSends(FIXED_LIT, lcodes, FIXED_DIST, dcodes, toks) && SymbolsBelow(toks, L_CODES, D_CODES)
  {
    hide LengthCode, DistCode, FIXED_LIT, FIXED_DIST, CodeLens, CodeOf;
    FixedLitLens();
    FixedDistLens();
    forall i | 0 <= i < |toks| ensures Sends(FIXED_LIT, lcodes, FIXED_DIST, dcodes, toks[i]) && LitSym(toks[i]) < L_CODES { }
  }

  /** Trees built from the frequencies have a code for everything that occurs. */
  lemma {:induction false} DynamicCovers(toks: seq<Token>, ll: seq<nat>, lcodes: seq<nat>, dl: seq<nat>, dcodes: seq<nat>,
                                         fl: seq<nat>, fl1: seq<nat>, forcedL: seq<nat>, fd: seq<nat>, fd1: seq<nat>, forcedD: seq<nat>)
    requires AllSound(toks) && |fl| >= L_CODES && |fd| >= D_CODES && fl[..L_CODES] == TallyL(toks) && fd[..D_CODES] == TallyD(toks)
    requires Forced(fl, fl1, forcedL) && CodeFor(ll, fl1, L_DESC) && |lcodes| == |ll|
    requires Forced(fd, fd1, forcedD) && CodeFor(dl, fd1, D_DESC) && |dcodes| == |dl|
    ensures AllSends(ll, lcodes, dl, dcodes, toks) && SymbolsBelow(toks, |ll|, |dl|)
    ensures END_BLOCK < |ll| && ll[END_BLOCK] != 0 && TwoTrees(ll, dl)
  {
    hide LengthCode, DistCode, Forced, CodeFor, TallyL, TallyD, L_DESC, D_DESC, CompleteCode;
    DescSizes();
    DescLimits();
    forall i | 0 <= i < |toks| ensures Sends(ll, lcodes, dl, dcodes, toks[i]) && LitSym(toks[i]) < |ll| && (toks[i].Ref? ==> DistCode(toks[i].dist) < |dl|) {
      TallyPositive(toks, i);
      var s := LitSym(toks[i]);
      assert fl[..L_CODES][s] == fl[s];
      OccurringHasCode(fl, fl1, forcedL, ll, L_DESC, s);
      if toks[i].Ref? {
        var e := DistCode(toks[i].dist);
        assert fd[..D_CODES][e] == fd[e];
        OccurringHasCode(fd, fd1, forcedD, dl, D_DESC, e);
      }
    }
    TallyEnd(toks);
    assert fl[..L_CODES][END_BLOCK] == fl[END_BLOCK];
    OccurringHasCode(fl, fl1, forcedL, ll, L_DESC, END_BLOCK);
    CodeForLens(ll, fl1, L_DESC);
    CodeForLens(dl, fd1, D_DESC);
  }

  lemma DescLimits()
    ensures L_DESC.maxLength == 15 && D_DESC.maxLength == 15
  {
  }

  lemma OccurringHasCode(freq: seq<nat>, freq1: seq<nat>, forced: seq<nat>, lens: seq<nat>, d: Desc, s: nat)
    requires Forced(freq, freq1, forced) && CodeFor(lens, freq1, d) && s < d.elems <= |freq| && freq[s] > 0 && d.maxLength <= 15
    ensures s < |lens| && HasCode(lens, s)
  {
  }

  lemma CodeForLens(lens: seq<nat>, freq: seq<nat>, d: Desc)
    requires CodeFor(lens, freq, d) && d.maxLength <= 15
    ensures 0 < |lens| <= d.elems && lens[|lens| - 1] != 0 && (forall i :: 0 <= i < |lens| ==> lens[i] < 16) && CompleteCode(lens)
  {
  }
}
